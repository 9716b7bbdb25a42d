/**
 What a run of the reconciler owes to its environment (crates/daemon/src/main.rs): how a session's thread ended, why a
 start was refused, what the tracker last said. Each is in the log, the tables and the registry, and nothing else is.
 */
module ReconcilerEvents {
  import opened Bytes
  import opened Wrappers
  import opened Sequences
  import opened Allocators
  import opened Reconciler
  import opened ReconcilerRuns

  // ------------------------------------------------------------ how sessions end

  /** What the first end of a serial's thread comes to, if it has a session: an event told by how the thread ended. */
  function EndsOf(registered: bool, ended: seq<Ended>, serial: string): seq<Event> {
    if !registered || ended == [] then []
    else if ended[0].serial != serial then EndsOf(registered, ended[1..], serial)
    else if ended[0].clean then [EndedCleanly(serial)]
    else [Failed(serial, ended[0].at)]
  }

  lemma {:induction false} OneMoreEnd(registered: bool, ended: seq<Ended>, e: Ended, serial: string)
    ensures var before := EndsOf(registered, ended, serial);
            EndsOf(registered, ended + [e], serial) ==
            if before != [] then before else EndsOf(registered, [e], serial)
  {
    if ended == [] {
      NothingAdded([e]);
    } else {
      FrontOfConcat(ended, [e]);
      OneMoreEnd(registered, ended[1..], e, serial);
    }
  }

  lemma {:induction false} EndsOfNone(registered: bool, ended: seq<Ended>, serial: string)
    ensures EndsOf(registered, ended, serial) == [] <==> !registered || !EndsIn(ended, serial)
  {
    if ended != [] {
      EndsOfNone(registered, ended[1..], serial);
      assert EndsIn(ended[1..], serial) ==> EndsIn(ended, serial);
      if EndsIn(ended, serial) && ended[0].serial != serial {
        var i :| 0 <= i < |ended| && ended[i].serial == serial;
        assert ended[1..][i - 1].serial == serial;
      }
    }
  }

  lemma OwnOneMore(log: seq<Event>, e: Event, serial: string)
    ensures Own(log + [e], serial) == Own(log, serial) + if e.serial == serial then [e] else []
  {
    BackOfSnoc(log, e);
  }

  /** The cooldown after `n` failures, the last of them at `at`: two seconds more for each, up to sixteen. */
  function Waits(n: nat, at: nat): Cooldown {
    Cooldown(n, at + 2000 * (if n < 8 then n else 8))
  }

  function FailuresOf(cooldowns: map<string, Cooldown>, serial: string): nat {
    if serial in cooldowns then cooldowns[serial].failures else 0
  }

  /** What an event of the serial's own does to its cooldown. */
  function CooldownAfter(cooldowns: map<string, Cooldown>, events: seq<Event>, serial: string): Option<Cooldown> {
    if events == [] then Lookup(cooldowns, serial)
    else match events[0]
      case Failed(_, at) => Some(Waits(FailuresOf(cooldowns, serial) + 1, at))
      case EndedCleanly(_) => None
      case Started(_, _, _) => Lookup(cooldowns, serial)
  }

  /** `after` is `before` with exactly these ends of `serial` taken account of. */
  ghost predicate TakesAccount(before: State, after: State, ends: seq<Event>, serial: string) {
    && Own(after.log, serial) == Own(before.log, serial) + ends
    && Lookup(after.cooldowns, serial) == CooldownAfter(before.cooldowns, ends, serial)
    && Lookup(after.registry, serial) == if ends == [] then Lookup(before.registry, serial) else None
  }

  lemma OneEnd(registered: bool, e: Ended, serial: string)
    ensures EndsOf(registered, [e], serial) ==
            if !registered || e.serial != serial then []
            else if e.clean then [EndedCleanly(serial)] else [Failed(serial, e.at)]
  {
    assert [e][1..] == [];
  }

  lemma ReapTakesAccount(s: State, e: Ended, serial: string)
    ensures TakesAccount(s, Reap(s, e), EndsOf(serial in s.registry, [e], serial), serial)
  {
    hide EndsOf, Own;
    OneEnd(serial in s.registry, e, serial);
    NothingAdded(Own(s.log, serial));
    if e.serial in s.registry {
      OwnOneMore(s.log, if e.clean then EndedCleanly(e.serial) else Failed(e.serial, e.at), serial);
    }
  }

  /** Once its session has ended a serial is left alone; until then it is as it was. */
  lemma AccountsAddUp(s: State, mid: State, after: State, ends: seq<Event>, more: seq<Event>, serial: string)
    requires TakesAccount(s, mid, ends, serial) && TakesAccount(mid, after, more, serial)
    requires ends != [] ==> more == []
    ensures TakesAccount(s, after, if ends != [] then ends else more, serial)
  {
    NothingAdded(Own(s.log, serial));
    NothingAdded(Own(mid.log, serial));
  }

  lemma {:induction false} ReapAllTakesAccount(s: State, ended: seq<Ended>, serial: string)
    ensures TakesAccount(s, ReapAll(s, ended), EndsOf(serial in s.registry, ended, serial), serial)
  {
    hide Reap, Own;
    if ended == [] {
      NothingAdded(Own(s.log, serial));
    } else {
      var init, e := ended[..|ended| - 1], ended[|ended| - 1];
      var mid := ReapAll(s, init);
      ReapAllTakesAccount(s, init, serial);
      OneMoreEnd(serial in s.registry, init, e, serial);
      SplitBack(ended);
      ReapTakesAccount(mid, e, serial);
      AccountsAddUp(s, mid, Reap(mid, e), EndsOf(serial in s.registry, init, serial),
                    EndsOf(serial in mid.registry, [e], serial), serial);
    }
  }

  lemma {:induction false} OwnConcat(a: seq<Event>, b: seq<Event>, serial: string)
    ensures Own(a + b, serial) == Own(a, serial) + Own(b, serial)
  {
    if b == [] {
      NothingAdded(a);
      NothingAdded(Own(a, serial));
    } else {
      BackOfConcat(a, b);
      OwnConcat(a, b[..|b| - 1], serial);
      Regroup(Own(a, serial), Own(b[..|b| - 1], serial), Own([b[|b| - 1]], serial));
      OwnOneMore([], b[|b| - 1], serial);
      OwnOneMore(b[..|b| - 1], b[|b| - 1], serial);
      SplitBack(b);
      NothingAdded([b[|b| - 1]]);
    }
  }

  /** What a turn adds to a serial's own events when it starts sessions: starts and refusals. */
  ghost predicate OnlyAttempts(starts: seq<Event>) {
    forall k :: 0 <= k < |starts| ==> !starts[k].EndedCleanly?
  }

  lemma {:induction false} OwnOnlyAttempts(log: seq<Event>, serial: string)
    requires OnlyAttempts(log)
    ensures OnlyAttempts(Own(log, serial))
    ensures Own(log, serial) != [] <==> Attempted([], log, serial)
  {
    if log != [] {
      var init, e := log[..|log| - 1], log[|log| - 1];
      OwnOnlyAttempts(init, serial);
      AttemptedOneMore([], init, e, serial);
      SplitBack(log);
    }
  }

  lemma StartsOwn(before: State, after: State, serials: seq<string>, serial: string)
    requires Attempts(before, after, serials, serial)
    ensures exists starts :: Own(after.log, serial) == Own(before.log, serial) + starts && OnlyAttempts(starts)
                             && (starts != [] ==> serial !in before.registry)
  {
    var more := after.log[|before.log|..];
    assert after.log == before.log + more;
    OwnConcat(before.log, more, serial);
    OwnOnlyAttempts(more, serial);
    if Attempted([], more, serial) {
      var k :| 0 <= k < |more| && more[k].serial == serial;
      assert after.log[|before.log| + k].serial == serial;
    }
  }

  /**
   Every turn of every run: to what had happened to a serial the turn adds the end of its thread, exactly if the serial
   had a session and the environment says that it ended, clean or failed as it says and at its time; and after that only
   attempts to start it, made if it has no session and the tracker was heard.
   */
  lemma EndsAreLogged(config: Config, turns: seq<Turn>, t: Turn, serial: string)
    requires Run(config, turns).running
    ensures var s, after := Run(config, turns), Run(config, turns + [t]);
            var ends := EndsOf(serial in s.registry, t.ended, serial);
            exists starts :: Own(after.log, serial) == Own(s.log, serial) + ends + starts && OnlyAttempts(starts)
                             && (starts != [] ==> !t.poll.Lost? && (serial in s.registry ==> ends != []))
  {
    var s := Run(config, turns);
    var s1 := ReapAll(s, t.ended);
    RunOneMore(config, turns, t);
    TakeCases(s, config, t);
    ReapAllTakesAccount(s, t.ended, serial);
    var ends := EndsOf(serial in s.registry, t.ended, serial);
    if Looks(s, config, t).Some? {
      RunKeeps(config, turns);
      ReapAllKeeps(config, s, t.ended);
      var s2 := s1.(devices := Looks(s, config, t).value);
      ProcessAttempts(config, s2, t, serial);
      StartsOwn(Look(s2, t.now), Process(s2, config, t), Candidates(Look(s2, t.now), config, t.now), serial);
      assert serial in s1.registry <==> serial in Look(s2, t.now).registry;
    } else {
      NothingAdded(Own(s1.log, serial));
      assert OnlyAttempts([]);
    }
  }

  /**
   And what the daemon knows of a serial while the tracker is lost follows from the ends alone: a clean one forgets its
   failures, any other is one failure more and sets the next attempt 2, 4, ... 16 s after it.
   */
  lemma EndsSetCooldown(config: Config, turns: seq<Turn>, t: Turn, serial: string)
    requires Run(config, turns).running && t.poll.Lost?
    ensures var s := Run(config, turns);
            TakesAccount(s, Run(config, turns + [t]), EndsOf(serial in s.registry, t.ended, serial), serial)
  {
    RunOneMore(config, turns, t);
    ReapAllTakesAccount(Run(config, turns), t.ended, serial);
  }

  // ------------------------------------------------------------ how sessions start

  predicate PortIsFree(config: Config, registry: Registry, port: int) {
    config.port <= port < config.port + 100 && port <= 65535
    && forall s :: s in registry ==> registry[s].port != port
  }

  predicate NameIsFree(registry: Registry, name: string) {
    forall s :: s in registry ==> registry[s].name != name
  }

  predicate IsLeastFreePort(config: Config, registry: Registry, port: int) {
    PortIsFree(config, registry, port) && forall q :: config.port <= q < port ==> !PortIsFree(config, registry, q)
  }

  predicate IsFirstFreeName(config: Config, registry: Registry, serial: string, name: string) {
    var names := NamesFor(config, serial);
    exists k :: 0 <= k < |names| && names[k] == name && NameIsFree(registry, name)
                && forall j :: 0 <= j < k ==> !NameIsFree(registry, names[j])
  }

  lemma PortFound(config: Config, registry: Registry)
    ensures match FreePort(registry, config.port, 0)
            case Some(port) => IsLeastFreePort(config, registry, port)
            case None => forall q :: !PortIsFree(config, registry, q)
  {
    forall q: int
      ensures PortIsFree(config, registry, q) <==> config.port <= q < Top(config.port) && !Held(registry, q)
    {
    }
  }

  lemma NameFound(config: Config, registry: Registry, serial: string)
    ensures match ResolveOutputName(config, serial, registry)
            case Some(name) => IsFirstFreeName(config, registry, serial, name)
            case None => forall k :: 0 <= k < |NamesFor(config, serial)| ==>
                           !NameIsFree(registry, NamesFor(config, serial)[k])
  {
    NameIsFirstFree(config, serial, registry);
    forall name ensures NameIsFree(registry, name) <==> !Taken(registry, name) {
    }
  }

  /** An attempt meets a refusal: no port is free, none of the serial's names is, or the thread does not start. */
  ghost predicate Refused(config: Config, registry: Registry, serial: string, a: Attempt) {
    || (forall q :: !PortIsFree(config, registry, q))
    || (forall k :: 0 <= k < |NamesFor(config, serial)| ==> !NameIsFree(registry, NamesFor(config, serial)[k]))
    || !a.threadStarts
  }

  /**
   An attempt that is not refused registers the serial with the least free port and the first free of its names, and
   touches nothing else; one that is refused is a failure at its time, and changes no session.
   */
  lemma StartedUnlessRefused(s: State, config: Config, serial: string, a: Attempt)
    requires serial !in s.registry
    ensures var after := SpawnOne(s, config, serial, a);
            if Refused(config, s.registry, serial, a) then
              && after.registry == s.registry && after.log == s.log + [Failed(serial, a.at)]
              && after.cooldowns == s.cooldowns[serial := Waits(FailuresOf(s.cooldowns, serial) + 1, a.at)]
            else
              exists port: u16, name ::
                && IsLeastFreePort(config, s.registry, port) && IsFirstFreeName(config, s.registry, serial, name)
                && after == s.(registry := s.registry[serial := Session(port, name, false)],
                               log := s.log + [Started(serial, port, name)])
  {
    PortFound(config, s.registry);
    NameFound(config, s.registry, serial);
  }

  lemma SpawnOneStarts(s: State, config: Config, serial: string, a: Attempt)
    requires Safe(config, s.registry) && !config.explicit && !IsPlain(serial) && a.threadStarts
    requires |s.registry| < Top(config.port) - config.port
    ensures serial in SpawnOne(s, config, serial, a).registry
  {
    if serial !in s.registry {
      PortsRunOut(config, s.registry);
      PlainIsOwnSuffix(serial);
      LongNameIsFree(config, s.registry, serial);
    }
  }

  lemma SpawnOneGrows(s: State, config: Config, serial: string, a: Attempt, x: string)
    ensures x in s.registry ==> x in SpawnOne(s, config, serial, a).registry
    ensures |s.registry| <= |SpawnOne(s, config, serial, a).registry|
  {
  }

  lemma {:induction false} SpawnAllStarts(s: State, config: Config, serials: seq<string>, attempts: seq<Attempt>,
                                          x: string)
    requires Safe(config, s.registry) && TableMatches(s.cooldowns, s.log)
    requires !config.explicit && !IsPlain(x) && x in serials
    requires forall k :: 0 <= k < |attempts| ==> attempts[k].threadStarts
    requires |SpawnAll(s, config, serials, attempts).registry| < Top(config.port) - config.port
    ensures x in SpawnAll(s, config, serials, attempts).registry
  {
    hide SpawnOne, Safe, TableMatches, IsPlain;
    var k := |serials| - 1;
    var mid := SpawnAll(s, config, serials[..k], attempts);
    SpawnAllKeeps(config, s, serials[..k], attempts);
    SpawnOneGrows(mid, config, serials[k], AttemptAt(attempts, k), x);
    if x in serials[..k] {
      SpawnAllStarts(s, config, serials[..k], attempts, x);
    } else {
      assert x == serials[k];
      SpawnOneStarts(mid, config, x, AttemptAt(attempts, k));
    }
  }

  /**
   A tablet that is due does get its session: its serial not plain and the output's name not the user's own, it is
   registered after the turn, however many others are, as long as threads start and a port is left over.
   */
  lemma DueTabletStarts(config: Config, turns: seq<Turn>, t: Turn, serial: string)
    requires !config.once && !config.explicit && !IsPlain(serial)
    requires Looks(Run(config, turns), config, t).Some?
    requires MayStart(Before(config, turns, t), Run(config, turns + [t]).sightings, t.now, serial)
    requires forall k :: 0 <= k < |t.attempts| ==> t.attempts[k].threadStarts
    requires |Run(config, turns + [t]).registry| < Top(config.port) - config.port
    ensures serial in Run(config, turns + [t]).registry
  {
    var s := Run(config, turns);
    RunKeeps(config, turns);
    RunOneMore(config, turns, t);
    ReapAllKeeps(config, s, t.ended);
    TakeCases(s, config, t);
    var s1 := ReapAll(s, t.ended).(devices := Looks(s, config, t).value);
    var s2 := Look(s1, t.now);
    ProcessAttempts(config, s1, t, serial);
    DueIsMayStart(config, s1, t.now, serial);
    LookKeeps(config, s1, t.now);
    SpawnAllStarts(s2.(onceArmed := s2.onceArmed || Arms(s2, config, t.now)), config, Candidates(s2, config, t.now),
                   t.attempts, serial);
  }

  // ------------------------------------------------------------ who is registered

  function LastOwn(log: seq<Event>, serial: string): Option<Event> {
    if log == [] then None
    else if log[|log| - 1].serial == serial then Some(log[|log| - 1])
    else LastOwn(log[..|log| - 1], serial)
  }

  /** The serial has a session exactly when the last thing that happened to it is its start, with that port and name. */
  ghost predicate SessionIsLastStart(registry: Registry, log: seq<Event>, serial: string) {
    match LastOwn(log, serial)
    case Some(Started(_, port, name)) =>
      serial in registry && registry[serial].port == port && registry[serial].name == name
    case _ => serial !in registry
  }

  lemma LastOwnOneMore(log: seq<Event>, e: Event, serial: string)
    ensures LastOwn(log + [e], serial) == if e.serial == serial then Some(e) else LastOwn(log, serial)
  {
    BackOfSnoc(log, e);
  }

  lemma ReapKeepsSessions(s: State, e: Ended, serial: string)
    requires SessionIsLastStart(s.registry, s.log, serial)
    ensures var after := Reap(s, e); SessionIsLastStart(after.registry, after.log, serial)
  {
    hide LastOwn;
    if e.serial in s.registry {
      LastOwnOneMore(s.log, if e.clean then EndedCleanly(e.serial) else Failed(e.serial, e.at), serial);
    }
  }

  lemma {:induction false} ReapAllKeepsSessions(s: State, ended: seq<Ended>, serial: string)
    requires SessionIsLastStart(s.registry, s.log, serial)
    ensures var after := ReapAll(s, ended); SessionIsLastStart(after.registry, after.log, serial)
  {
    if ended != [] {
      ReapAllKeepsSessions(s, ended[..|ended| - 1], serial);
      ReapKeepsSessions(ReapAll(s, ended[..|ended| - 1]), ended[|ended| - 1], serial);
    }
  }

  lemma SpawnOneKeepsSessions(s: State, config: Config, x: string, a: Attempt, serial: string)
    requires SessionIsLastStart(s.registry, s.log, serial)
    ensures var after := SpawnOne(s, config, x, a); SessionIsLastStart(after.registry, after.log, serial)
  {
    hide LastOwn, FreePort, ResolveOutputName;
    var after := SpawnOne(s, config, x, a);
    if x !in s.registry {
      LastOwnOneMore(s.log, after.log[|s.log|], serial);
    }
  }

  lemma {:induction false} SpawnAllKeepsSessions(s: State, config: Config, serials: seq<string>,
                                                 attempts: seq<Attempt>, serial: string)
    requires SessionIsLastStart(s.registry, s.log, serial)
    ensures var after := SpawnAll(s, config, serials, attempts); SessionIsLastStart(after.registry, after.log, serial)
  {
    if serials != [] {
      var k := |serials| - 1;
      SpawnAllKeepsSessions(s, config, serials[..k], attempts, serial);
      SpawnOneKeepsSessions(SpawnAll(s, config, serials[..k], attempts), config, serials[k], AttemptAt(attempts, k),
                            serial);
    }
  }

  /** In every run a serial has a session, at that port and of that name, exactly when it was started last of all. */
  lemma {:induction false} RegistryFollowsLog(config: Config, turns: seq<Turn>, serial: string)
    ensures SessionIsLastStart(Run(config, turns).registry, Run(config, turns).log, serial)
  {
    if turns != [] {
      var init, t := turns[..|turns| - 1], turns[|turns| - 1];
      RegistryFollowsLog(config, init, serial);
      var s := Run(config, init);
      TakeCases(s, config, t);
      ReapAllKeepsSessions(s, t.ended, serial);
      if Looks(s, config, t).Some? {
        var s1 := Look(ReapAll(s, t.ended).(devices := Looks(s, config, t).value), t.now);
        SpawnAllKeepsSessions(s1.(onceArmed := s1.onceArmed || Arms(s1, config, t.now)), config,
                              Candidates(s1, config, t.now), t.attempts, serial);
      }
    }
  }

  // ------------------------------------------------------------ when the daemon looks, arms and ends

  /** Every session has ended by this turn. */
  ghost predicate AllEnd(registry: Registry, ended: seq<Ended>) {
    forall x :: x in registry ==> EndsIn(ended, x)
  }

  lemma ReapsEverything(s: State, ended: seq<Ended>)
    ensures ReapAll(s, ended).registry == map[] <==> AllEnd(s.registry, ended)
  {
    forall x ensures x in ReapAll(s, ended).registry <==> x in s.registry && !EndsIn(ended, x) {
      ReapAllTakesAccount(s, ended, x);
      EndsOfNone(x in s.registry, ended, x);
    }
    assert ReapAll(s, ended).registry == map[] <==> forall x :: x !in ReapAll(s, ended).registry;
  }

  lemma {:induction false} ReapAllLeaves(s: State, ended: seq<Ended>)
    ensures var after := ReapAll(s, ended);
            after.devices == s.devices && after.sightings == s.sightings && after.onceArmed == s.onceArmed
            && after.running == s.running && after.seenReadyAt == s.seenReadyAt
  {
    if ended != [] {
      ReapAllLeaves(s, ended[..|ended| - 1]);
    }
  }

  lemma {:induction false} SpawnAllLeaves(s: State, config: Config, serials: seq<string>, attempts: seq<Attempt>)
    ensures var after := SpawnAll(s, config, serials, attempts);
            after.devices == s.devices && after.sightings == s.sightings && after.onceArmed == s.onceArmed
            && after.running == s.running
  {
    if serials != [] {
      SpawnAllLeaves(s, config, serials[..|serials| - 1], attempts);
    }
  }

  /** The devices that are ready in the tracker's last word. */
  function ReadyIn(devices: seq<Device>): set<string> {
    set d | d in devices && d.ready :: d.serial
  }

  /** A turn that looks notes what it sees, at its own time; --once is armed once something seen has been ready long. */
  ghost predicate Looked(config: Config, s: State, after: State, t: Turn) {
    && after.devices == (if t.poll.Update? then t.poll.devices else s.devices)
    && after.sightings == s.sightings + [Sighting(t.now, ReadyIn(after.devices))]
    && (after.onceArmed <==>
        s.onceArmed || (config.once && exists x :: x in ReadyIn(after.devices) && LongReady(after.sightings, x)))
  }

  lemma ProcessLooks(config: Config, s: State, t: Turn)
    requires Invariant(config, s)
    ensures var after := Process(s, config, t);
            && after.devices == s.devices && after.running == s.running
            && after.sightings == s.sightings + [Sighting(t.now, ReadyIn(s.devices))]
            && (after.onceArmed <==>
                s.onceArmed || (config.once && exists x :: x in ReadyIn(s.devices) && LongReady(after.sightings, x)))
  {
    var s1 := Look(s, t.now);
    SpawnAllLeaves(s1.(onceArmed := s1.onceArmed || Arms(s1, config, t.now)), config, Candidates(s1, config, t.now),
                   t.attempts);
    if config.once && !s.onceArmed {
      ArmsIs(config, s, t.now);
    }
  }

  /**
   A turn of a running daemon: it is the last one exactly if --once is armed and the last sessions have ended; it looks
   exactly if it is not and the tracker is not lost; and a turn that does not look changes only what ends change.
   */
  lemma TurnLooks(config: Config, turns: seq<Turn>, t: Turn)
    requires Run(config, turns).running
    ensures var s, after := Run(config, turns), Run(config, turns + [t]);
            && (after.running <==> !(config.once && s.onceArmed && AllEnd(s.registry, t.ended)))
            && Looks(s, config, t) == (if after.running && !t.poll.Lost? then Some(after.devices) else None)
            && if Looks(s, config, t).Some? then Looked(config, s, after, t)
               else after.devices == s.devices && after.sightings == s.sightings && after.onceArmed == s.onceArmed
  {
    var s := Run(config, turns);
    RunKeeps(config, turns);
    RunOneMore(config, turns, t);
    ReapsEverything(s, t.ended);
    ReapAllLeaves(s, t.ended);
    ReapAllKeeps(config, s, t.ended);
    if Looks(s, config, t).Some? {
      TakeCases(s, config, t);
      ProcessLooks(config, ReapAll(s, t.ended).(devices := Looks(s, config, t).value), t);
    }
  }

  /** Turn `k` finds --once armed and nothing running any more. */
  ghost predicate FindsAllEnded(config: Config, turns: seq<Turn>, k: nat)
    requires k < |turns|
  {
    config.once && Run(config, turns[..k]).onceArmed && AllEnd(Run(config, turns[..k]).registry, turns[k].ended)
  }

  /** What the tracker last said. */
  function LatestDevices(turns: seq<Turn>): seq<Device> {
    if turns == [] then []
    else if turns[|turns| - 1].poll.Update? then turns[|turns| - 1].poll.devices
    else LatestDevices(turns[..|turns| - 1])
  }

  /**
   The daemon runs on until a turn finds --once armed and every session ended, and never ends otherwise; and as long as
   it runs, the devices it knows are those of the tracker's latest word.
   */
  lemma {:induction false} RunsUntilAllEnded(config: Config, turns: seq<Turn>)
    ensures Run(config, turns).running <==> forall k: nat :: k < |turns| ==> !FindsAllEnded(config, turns, k)
    ensures Run(config, turns).running ==> Run(config, turns).devices == LatestDevices(turns)
  {
    if turns != [] {
      var n := |turns| - 1;
      var init := turns[..n];
      RunsUntilAllEnded(config, init);
      forall k: nat | k < n ensures FindsAllEnded(config, turns, k) <==> FindsAllEnded(config, init, k) {
        PrefixOfPrefix(turns, n, k);
      }
      SplitBack(turns);
      if Run(config, init).running {
        TurnLooks(config, init, turns[n]);
        assert FindsAllEnded(config, turns, n) <==> !Run(config, turns).running;
      }
    }
  }
}
