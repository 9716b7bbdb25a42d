/** What holds of the reconciler over whole runs. */
module ReconcilerRuns {
  import opened Wrappers
  import opened Sequences
  import opened Allocators
  import opened Reconciler

  /** Failures of a serial since its last clean end. */
  function FailuresSince(log: seq<Event>, serial: string): nat {
    if log == [] then 0 else
    var before, e := FailuresSince(log[..|log| - 1], serial), log[|log| - 1];
    if e.serial != serial || e.Started? then before else if e.Failed? then before + 1 else 0
  }

  function LastFailure(log: seq<Event>, serial: string): nat {
    if log == [] then 0 else
    var e := log[|log| - 1];
    if e.serial == serial && e.Failed? then e.at else LastFailure(log[..|log| - 1], serial)
  }

  /** The cooldown a history of events calls for. */
  function CooldownFor(log: seq<Event>, serial: string): Option<Cooldown> {
    var n := FailuresSince(log, serial);
    if n == 0 then None else Some(Cooldown(n, LastFailure(log, serial) + 2000 * (if n < 8 then n else 8)))
  }

  /** When the serial's current run of readiness began, in what the daemon saw; `None` if it is not ready now. */
  function StreakStart(sightings: seq<Sighting>, serial: string): Option<nat> {
    if sightings == [] then None else
    var last := sightings[|sightings| - 1];
    if serial !in last.ready then None else
    match StreakStart(sightings[..|sightings| - 1], serial)
    case Some(t) => Some(t)
    case None => Some(last.now)
  }

  function Lookup<T>(m: map<string, T>, key: string): Option<T> {
    if key in m then Some(m[key]) else None
  }

  /** The cooldown table is the one the log calls for. */
  ghost predicate TableMatches(cooldowns: map<string, Cooldown>, log: seq<Event>) {
    forall serial :: Lookup(cooldowns, serial) == CooldownFor(log, serial)
  }

  ghost predicate SeenMatches(seenReadyAt: map<string, nat>, sightings: seq<Sighting>) {
    forall serial :: Lookup(seenReadyAt, serial) == StreakStart(sightings, serial)
  }

  ghost predicate StartedOnce(log: seq<Event>) {
    forall i, j :: 0 <= i < j < |log| && log[i].Started? && log[j].Started? ==> log[i].serial != log[j].serial
  }

  ghost predicate OnceHolds(config: Config, s: State) {
    config.once ==> StartedOnce(s.log) && (!s.onceArmed ==> s.log == [] && s.registry == map[])
  }

  ghost predicate Invariant(config: Config, s: State) {
    && Safe(config, s.registry)
    && TableMatches(s.cooldowns, s.log)
    && SeenMatches(s.seenReadyAt, s.sightings)
    && OnceHolds(config, s)
  }

  lemma LogGrows(log: seq<Event>, e: Event, serial: string)
    ensures CooldownFor(log + [e], serial) ==
            if e.serial != serial || e.Started? then CooldownFor(log, serial)
            else if e.EndedCleanly? then None
            else var n := FailuresSince(log, serial) + 1; Some(Cooldown(n, e.at + 2000 * (if n < 8 then n else 8)))
  {
    hide FailuresSince, LastFailure;
    FailuresGrow(log, e, serial);
  }

  lemma FailuresGrow(log: seq<Event>, e: Event, serial: string)
    ensures FailuresSince(log + [e], serial) ==
            if e.serial != serial || e.Started? then FailuresSince(log, serial)
            else if e.Failed? then FailuresSince(log, serial) + 1 else 0
    ensures LastFailure(log + [e], serial) ==
            if e.serial == serial && e.Failed? then e.at else LastFailure(log, serial)
  {
    BackOfSnoc(log, e);
  }

  /** The table as it should be after one more event. */
  function TableAfter(cooldowns: map<string, Cooldown>, e: Event): map<string, Cooldown> {
    match e
    case Started(_, _, _) => cooldowns
    case Failed(serial, at) => Bump(cooldowns, serial, at)
    case EndedCleanly(serial) => cooldowns - {serial}
  }

  lemma TableKeepsUp(cooldowns: map<string, Cooldown>, log: seq<Event>, e: Event)
    requires TableMatches(cooldowns, log)
    ensures TableMatches(TableAfter(cooldowns, e), log + [e])
  {
    forall x ensures Lookup(TableAfter(cooldowns, e), x) == CooldownFor(log + [e], x) {
      LogGrows(log, e, x);
      assert Lookup(cooldowns, x) == CooldownFor(log, x);
    }
  }

  lemma SeenKeepsUp(seen: map<string, nat>, sightings: seq<Sighting>, now: nat, ready: set<string>)
    requires SeenMatches(seen, sightings)
    ensures SeenMatches(map serial | serial in ready :: if serial in seen then seen[serial] else now,
                        sightings + [Sighting(now, ready)])
  {
    var after := map serial | serial in ready :: if serial in seen then seen[serial] else now;
    forall x ensures Lookup(after, x) == StreakStart(sightings + [Sighting(now, ready)], x) {
      assert (sightings + [Sighting(now, ready)])[..|sightings|] == sightings;
      assert Lookup(seen, x) == StreakStart(sightings, x);
    }
  }

  lemma ReapKeeps(config: Config, s: State, e: Ended)
    requires Invariant(config, s)
    ensures Invariant(config, Reap(s, e))
  {
    if e.serial in s.registry {
      RemovalIsSafe(config, s.registry, e.serial);
      TableKeepsUp(s.cooldowns, s.log, if e.clean then EndedCleanly(e.serial) else Failed(e.serial, e.at));
    }
  }

  lemma RemovalIsSafe(config: Config, registry: Registry, serial: string)
    requires Safe(config, registry)
    ensures Safe(config, registry - {serial})
  {
  }

  lemma {:induction false} ReapAllKeeps(config: Config, s: State, ended: seq<Ended>)
    requires Invariant(config, s)
    ensures Invariant(config, ReapAll(s, ended))
  {
    if ended != [] {
      var init := ended[..|ended| - 1];
      ReapAllKeeps(config, s, init);
      ReapKeeps(config, ReapAll(s, init), ended[|ended| - 1]);
    }
  }

  lemma LookIsSafe(config: Config, s: State, now: nat)
    requires Safe(config, s.registry)
    ensures Safe(config, Look(s, now).registry)
  {
  }

  lemma LookKeeps(config: Config, s: State, now: nat)
    requires Invariant(config, s)
    ensures Invariant(config, Look(s, now))
  {
    LookIsSafe(config, s, now);
    SeenKeepsUp(s.seenReadyAt, s.sightings, now, Ready(s.devices));
  }

  lemma SpawnOneIsSafe(config: Config, s: State, serial: string, a: Attempt)
    requires Safe(config, s.registry)
    ensures Safe(config, SpawnOne(s, config, serial, a).registry)
  {
    if serial !in s.registry {
      AllocationIsSafe(config, s.registry, serial);
    }
  }

  lemma SpawnOneMatches(config: Config, s: State, serial: string, a: Attempt)
    requires TableMatches(s.cooldowns, s.log)
    ensures TableMatches(SpawnOne(s, config, serial, a).cooldowns, SpawnOne(s, config, serial, a).log)
  {
    var after := SpawnOne(s, config, serial, a);
    if serial !in s.registry {
      TableKeepsUp(s.cooldowns, s.log, after.log[|s.log|]);
    }
  }

  /** Within one turn every started serial is still registered, so none is started twice. */
  ghost predicate AllStillThere(registry: Registry, log: seq<Event>) {
    forall i :: 0 <= i < |log| && log[i].Started? ==> log[i].serial in registry
  }

  lemma SpawnOneStartsOnce(config: Config, s: State, serial: string, a: Attempt)
    requires AllStillThere(s.registry, s.log) && StartedOnce(s.log)
    ensures var after := SpawnOne(s, config, serial, a);
            AllStillThere(after.registry, after.log) && StartedOnce(after.log)
  {
  }

  lemma {:induction false} SpawnAllKeeps(config: Config, s: State, serials: seq<string>, attempts: seq<Attempt>)
    requires Safe(config, s.registry) && TableMatches(s.cooldowns, s.log)
    ensures var after := SpawnAll(s, config, serials, attempts);
            && Safe(config, after.registry) && TableMatches(after.cooldowns, after.log)
            && after.seenReadyAt == s.seenReadyAt && after.sightings == s.sightings && after.onceArmed == s.onceArmed
  {
    if serials != [] {
      var k := |serials| - 1;
      SpawnAllKeeps(config, s, serials[..k], attempts);
      var mid := SpawnAll(s, config, serials[..k], attempts);
      SpawnOneIsSafe(config, mid, serials[k], AttemptAt(attempts, k));
      SpawnOneMatches(config, mid, serials[k], AttemptAt(attempts, k));
    }
  }

  lemma {:induction false} SpawnAllStartsOnce(config: Config, s: State, serials: seq<string>, attempts: seq<Attempt>)
    requires AllStillThere(s.registry, s.log) && StartedOnce(s.log)
    ensures var after := SpawnAll(s, config, serials, attempts);
            AllStillThere(after.registry, after.log) && StartedOnce(after.log)
  {
    if serials != [] {
      var k := |serials| - 1;
      SpawnAllStartsOnce(config, s, serials[..k], attempts);
      SpawnOneStartsOnce(config, SpawnAll(s, config, serials[..k], attempts), serials[k], AttemptAt(attempts, k));
    }
  }

  lemma ProcessKeeps(config: Config, s: State, t: Turn)
    requires Invariant(config, s)
    ensures Invariant(config, Process(s, config, t))
  {
    LookKeeps(config, s, t.now);
    var s1 := Look(s, t.now);
    var armed := s1.(onceArmed := s1.onceArmed || Arms(s1, config, t.now));
    SpawnAllKeeps(config, armed, Candidates(s1, config, t.now), t.attempts);
    if config.once && Arms(s1, config, t.now) {
      SpawnAllStartsOnce(config, armed, Candidates(s1, config, t.now), t.attempts);
    }
  }

  lemma TakeKeeps(config: Config, s: State, t: Turn)
    requires Invariant(config, s)
    ensures Invariant(config, Take(s, config, t))
  {
    TakeCases(s, config, t);
    ReapAllKeeps(config, s, t.ended);
    if Looks(s, config, t).Some? {
      ProcessKeeps(config, ReapAll(s, t.ended).(devices := Looks(s, config, t).value), t);
    }
  }

  lemma {:induction false} RunKeeps(config: Config, turns: seq<Turn>)
    ensures Invariant(config, Run(config, turns))
  {
    if turns != [] {
      RunKeeps(config, turns[..|turns| - 1]);
      TakeKeeps(config, Run(config, turns[..|turns| - 1]), turns[|turns| - 1]);
    }
  }

  /**
   In every run the sessions have distinct ports in [base, base + 100), below 65536, and distinct names from their own
   list; an explicit name means at most one session; and a session is refused a port exactly when all are held.
   */
  lemma RegistrySafe(config: Config, turns: seq<Turn>)
    ensures var registry := Run(config, turns).registry;
            && Safe(config, registry)
            && (config.explicit ==> forall s, t :: s in registry && t in registry ==> s == t)
            && (FreePort(registry, config.port, 0) == None <==> |registry| == Top(config.port) - config.port)
  {
    RunKeeps(config, turns);
    PortsRunOut(config, Run(config, turns).registry);
  }

  function Own(log: seq<Event>, serial: string): seq<Event> {
    if log == [] then [] else
    Own(log[..|log| - 1], serial) + if log[|log| - 1].serial == serial then [log[|log| - 1]] else []
  }

  lemma {:induction false} OwnDecides(log: seq<Event>, serial: string)
    ensures FailuresSince(log, serial) == FailuresSince(Own(log, serial), serial)
    ensures LastFailure(log, serial) == LastFailure(Own(log, serial), serial)
  {
    if log != [] {
      var before, e := log[..|log| - 1], log[|log| - 1];
      OwnDecides(before, serial);
      var own := Own(before, serial);
      if e.serial == serial {
        assert Own(log, serial) == own + [e] && (own + [e])[..|own + [e]| - 1] == own;
      } else {
        assert Own(log, serial) == own;
      }
    }
  }

  lemma CooldownsFollowLog(config: Config, turns: seq<Turn>, serial: string)
    ensures Lookup(Run(config, turns).cooldowns, serial) == CooldownFor(Run(config, turns).log, serial)
  {
    RunKeeps(config, turns);
  }

  /** In every run a serial's cooldown follows from its own failures and clean ends, and from no other tablet's. */
  lemma CooldownsAreOwn(config: Config, turns: seq<Turn>, serial: string)
    ensures var s := Run(config, turns);
            Lookup(s.cooldowns, serial) == CooldownFor(s.log, serial) == CooldownFor(Own(s.log, serial), serial)
  {
    hide Run, FailuresSince, LastFailure, Own, Lookup;
    CooldownsFollowLog(config, turns, serial);
    OwnDecides(Run(config, turns).log, serial);
  }

  /** The serial has been ready in everything seen since `i`, and was not just before. */
  predicate StreakFrom(sightings: seq<Sighting>, serial: string, i: nat) {
    && i < |sightings|
    && (forall j :: i <= j < |sightings| ==> serial in sightings[j].ready)
    && (i > 0 ==> serial !in sightings[i - 1].ready)
  }

  lemma {:induction false} StreakStartIs(sightings: seq<Sighting>, serial: string) returns (i: nat)
    ensures StreakStart(sightings, serial).Some? <==> sightings != [] && serial in sightings[|sightings| - 1].ready
    ensures var start := StreakStart(sightings, serial);
            start.Some? ==> StreakFrom(sightings, serial, i) && sightings[i].now == start.value
  {
    i := 0;
    if sightings != [] && serial in sightings[|sightings| - 1].ready {
      var before := sightings[..|sightings| - 1];
      i := StreakStartIs(before, serial);
      if StreakStart(before, serial) == None {
        i := |before|;
      }
    }
  }

  lemma StreakUnique(sightings: seq<Sighting>, serial: string, i: nat, j: nat)
    requires StreakFrom(sightings, serial, i) && StreakFrom(sightings, serial, j)
    ensures i == j
  {
    var k := if i < j then j - 1 else if j < i then i - 1 else i;
    assert serial in sightings[k].ready;
  }

  /** Ready at every turn that looked, for at least the debounce. */
  predicate LongReady(sightings: seq<Sighting>, serial: string) {
    exists i :: 0 <= i < |sightings| && StreakFrom(sightings, serial, i)
                && sightings[|sightings| - 1].now - sightings[i].now >= 600
  }

  lemma DebouncedIsLongReady(s: State, serial: string)
    requires SeenMatches(s.seenReadyAt, s.sightings) && s.sightings != []
    ensures Debounced(s, s.sightings[|s.sightings| - 1].now, serial) <==> LongReady(s.sightings, serial)
  {
    assert Lookup(s.seenReadyAt, serial) == StreakStart(s.sightings, serial);
    var i := StreakStartIs(s.sightings, serial);
    if LongReady(s.sightings, serial) {
      var j :| 0 <= j < |s.sightings| && StreakFrom(s.sightings, serial, j)
               && s.sightings[|s.sightings| - 1].now - s.sightings[j].now >= 600;
      assert serial in s.sightings[|s.sightings| - 1].ready;
      StreakUnique(s.sightings, serial, i, j);
    }
  }

  /** The log has grown by an event of this serial. */
  predicate Attempted(before: seq<Event>, after: seq<Event>, serial: string) {
    exists k :: |before| <= k < |after| && after[k].serial == serial
  }

  lemma AttemptedOneMore(before: seq<Event>, mid: seq<Event>, e: Event, x: string)
    requires |before| <= |mid|
    ensures Attempted(before, mid + [e], x) <==> Attempted(before, mid, x) || e.serial == x
  {
    var after := mid + [e];
    if e.serial == x {
      assert after[|mid|].serial == x;
    }
    if Attempted(before, mid, x) {
      var k :| |before| <= k < |mid| && mid[k].serial == x;
      assert after[k].serial == x;
    }
  }

  /**
   `after` is `before` with these serials attempted: the registered ones are left alone, the others each leave an
   event.
   */
  ghost predicate Attempts(before: State, after: State, serials: seq<string>, x: string) {
    && before.log <= after.log
    && (forall k :: |before.log| <= k < |after.log| ==> !after.log[k].EndedCleanly?)
    && (Attempted(before.log, after.log, x) <==> x in serials && x !in before.registry)
    && (if x in before.registry then x in after.registry && after.registry[x] == before.registry[x]
        else x in after.registry ==> Attempted(before.log, after.log, x) && !after.registry[x].stop)
  }

  lemma SpawnOneAttempts(config: Config, s: State, mid: State, serials: seq<string>, serial: string, a: Attempt,
                         x: string)
    requires Attempts(s, mid, serials, x) && Attempts(s, mid, serials, serial)
    ensures Attempts(s, SpawnOne(mid, config, serial, a), serials + [serial], x)
  {
    var after := SpawnOne(mid, config, serial, a);
    if serial !in mid.registry {
      assert after.log == mid.log + [after.log[|mid.log|]] && after.log[|mid.log|].serial == serial;
      AttemptedOneMore(s.log, mid.log, after.log[|mid.log|], x);
    }
  }

  lemma {:induction false} SpawnAllAttempts(config: Config, s: State, serials: seq<string>, attempts: seq<Attempt>,
                                            x: string)
    ensures Attempts(s, SpawnAll(s, config, serials, attempts), serials, x)
  {
    if serials != [] {
      var k := |serials| - 1;
      SpawnAllAttempts(config, s, serials[..k], attempts, x);
      SpawnAllAttempts(config, s, serials[..k], attempts, serials[k]);
      SpawnOneAttempts(config, s, SpawnAll(s, config, serials[..k], attempts), serials[..k], serials[k],
                       AttemptAt(attempts, k), x);
      assert serials == serials[..k] + [serials[k]];
    }
  }

  lemma {:induction false} ChosenIs(s: State, config: Config, now: nat, devices: seq<Device>, x: string)
    ensures x in Chosen(s, config, now, devices) <==>
            exists d :: d in devices && d.serial == x && if config.once then d.ready else Due(s, now, d)
  {
    if devices != [] {
      var init, last := devices[..|devices| - 1], devices[|devices| - 1];
      assert devices == init + [last];
      ChosenIs(s, config, now, init, x);
    }
  }

  /** The state a turn reaches before it looks for devices to start. */
  function Before(config: Config, turns: seq<Turn>, t: Turn): State {
    ReapAll(Run(config, turns), t.ended)
  }

  /** A serial that may be started: not registered, ready throughout the debounce, and past its own cooldown. */
  predicate MayStart(before: State, sightings: seq<Sighting>, now: nat, serial: string) {
    && serial !in before.registry
    && LongReady(sightings, serial)
    && var cooldown := CooldownFor(before.log, serial); (cooldown.Some? ==> now >= cooldown.value.nextAttempt)
  }

  lemma ReadyIs(devices: seq<Device>, serial: string)
    ensures serial in Ready(devices) <==> exists d :: d in devices && d.ready && d.serial == serial
  {
  }

  /** Of a turn that looks: the state in which its candidates are chosen, and what it does with one serial. */
  lemma ProcessAttempts(config: Config, s: State, t: Turn, serial: string)
    requires Invariant(config, s)
    ensures var s1 := Look(s, t.now);
            var after := Process(s, config, t);
            && after.sightings == s1.sightings && after.seenReadyAt == s1.seenReadyAt
            && Attempts(s1, after, Candidates(s1, config, t.now), serial)
  {
    var s1 := Look(s, t.now);
    var armed := s1.(onceArmed := s1.onceArmed || Arms(s1, config, t.now));
    LookKeeps(config, s, t.now);
    SpawnAllKeeps(config, armed, Candidates(s1, config, t.now), t.attempts);
    SpawnAllAttempts(config, armed, Candidates(s1, config, t.now), t.attempts, serial);
  }

  lemma DueIsMayStart(config: Config, s: State, now: nat, serial: string)
    requires Invariant(config, s) && !config.once
    ensures var s1 := Look(s, now);
            serial in Candidates(s1, config, now) && serial !in s1.registry <==>
            MayStart(s, s1.sightings, now, serial)
  {
    var s1 := Look(s, now);
    LookKeeps(config, s, now);
    ChosenIs(s1, config, now, s1.devices, serial);
    DebouncedIsLongReady(s1, serial);
    ReadyIs(s.devices, serial);
    assert Lookup(s.cooldowns, serial) == CooldownFor(s.log, serial);
  }

  /**
   Outside --once, a turn that looks at the devices attempts exactly the unregistered serials that every turn has seen
   ready for at least 600 ms and whose cooldown, reckoned from their own failures, has passed.
   */
  lemma SpawnsAreDue(config: Config, turns: seq<Turn>, t: Turn, serial: string)
    requires !config.once && Looks(Run(config, turns), config, t).Some?
    ensures var before, after := Before(config, turns, t), Run(config, turns + [t]);
            && before.log <= after.log
            && (forall k :: |before.log| <= k < |after.log| ==> !after.log[k].EndedCleanly?)
            && (Attempted(before.log, after.log, serial) <==> MayStart(before, after.sightings, t.now, serial))
  {
    var s := Run(config, turns);
    RunKeeps(config, turns);
    RunOneMore(config, turns, t);
    ReapAllKeeps(config, s, t.ended);
    TakeCases(s, config, t);
    var s1 := ReapAll(s, t.ended).(devices := Looks(s, config, t).value);
    ProcessAttempts(config, s1, t, serial);
    DueIsMayStart(config, s1, t.now, serial);
  }

  /**
   Under --once no serial is started twice; the turn that arms attempts every ready device, debounced or not; and no
   other turn attempts any.
   */
  lemma OnceSpawnsOnce(config: Config, turns: seq<Turn>, t: Turn, serial: string)
    requires config.once && Looks(Run(config, turns), config, t).Some?
    ensures var before, after := Before(config, turns, t), Run(config, turns + [t]);
            var devices := Looks(Run(config, turns), config, t).value;
            && StartedOnce(after.log)
            && before.log <= after.log
            && (Attempted(before.log, after.log, serial) <==>
                  !before.onceArmed && serial in Ready(devices)
                  && exists x :: x in Ready(devices) && LongReady(after.sightings, x))
  {
    var s := Run(config, turns);
    RunKeeps(config, turns);
    RunOneMore(config, turns, t);
    RunKeeps(config, turns + [t]);
    ReapAllKeeps(config, s, t.ended);
    TakeCases(s, config, t);
    var s1 := ReapAll(s, t.ended).(devices := Looks(s, config, t).value);
    ProcessAttempts(config, s1, t, serial);
    OnceCandidates(config, s1, t.now, serial);
  }

  lemma OnceCandidates(config: Config, s: State, now: nat, serial: string)
    requires Invariant(config, s) && config.once
    ensures var s1 := Look(s, now);
            serial in Candidates(s1, config, now) && serial !in s1.registry <==>
            !s.onceArmed && serial in Ready(s.devices)
            && exists x :: x in Ready(s.devices) && LongReady(s1.sightings, x)
  {
    var s1 := Look(s, now);
    LookKeeps(config, s, now);
    ChosenIs(s1, config, now, s1.devices, serial);
    ReadyIs(s.devices, serial);
    if !s.onceArmed {
      ArmsIs(config, s, now);
    }
  }

  lemma ArmsIs(config: Config, s: State, now: nat)
    requires Invariant(config, s) && config.once && !s.onceArmed
    ensures var s1 := Look(s, now);
            Arms(s1, config, now) <==> exists x :: x in Ready(s.devices) && LongReady(s1.sightings, x)
  {
    var s1 := Look(s, now);
    LookKeeps(config, s, now);
    forall x ensures Debounced(s1, now, x) <==> LongReady(s1.sightings, x) {
      DebouncedIsLongReady(s1, x);
    }
    if Arms(s1, config, now) {
      var d :| d in s1.devices && d.ready && Debounced(s1, now, d.serial);
      assert d.serial in Ready(s.devices) && LongReady(s1.sightings, d.serial);
    }
  }

  /**
   A turn that looks leaves the stop flag of every registered serial that is not ready set and starts no session
   stopped; and a session that was registered before keeps its port, its name and, once set, its stop flag.
   */
  lemma UnreadyStopped(config: Config, turns: seq<Turn>, t: Turn, serial: string)
    requires Looks(Run(config, turns), config, t).Some?
    ensures var before, after := Before(config, turns, t), Run(config, turns + [t]);
            var ready := Ready(Looks(Run(config, turns), config, t).value);
            && (serial in before.registry ==>
                  && serial in after.registry
                  && var old', new' := before.registry[serial], after.registry[serial];
                     new' == Session(old'.port, old'.name, old'.stop || serial !in ready))
            && (serial in after.registry && serial !in before.registry ==>
                  serial in ready && !after.registry[serial].stop)
  {
    var s := Run(config, turns);
    RunKeeps(config, turns);
    RunOneMore(config, turns, t);
    ReapAllKeeps(config, s, t.ended);
    TakeCases(s, config, t);
    var s1 := ReapAll(s, t.ended).(devices := Looks(s, config, t).value);
    ProcessAttempts(config, s1, t, serial);
    var looked := Look(s1, t.now);
    ChosenIs(looked, config, t.now, s1.devices, serial);
    ReadyIs(s1.devices, serial);
  }

  /** `after` is `before` less some sessions: nothing started, stopped, sighted or rearmed. */
  ghost predicate OnlyReaped(before: State, after: State) {
    && (forall s :: s in after.registry ==> s in before.registry && after.registry[s] == before.registry[s])
    && after.seenReadyAt == before.seenReadyAt && after.sightings == before.sightings
    && after.devices == before.devices && after.onceArmed == before.onceArmed
    && before.log <= after.log && (forall k :: |before.log| <= k < |after.log| ==> !after.log[k].Started?)
  }

  predicate EndsIn(ended: seq<Ended>, serial: string) {
    exists i :: 0 <= i < |ended| && ended[i].serial == serial
  }

  lemma {:induction false} ReapAllOnlyReaps(s: State, ended: seq<Ended>, serial: string)
    ensures OnlyReaped(s, ReapAll(s, ended))
    ensures serial in s.registry && !EndsIn(ended, serial) ==> serial in ReapAll(s, ended).registry
  {
    if ended != [] {
      var init := ended[..|ended| - 1];
      ReapAllOnlyReaps(s, init, serial);
      assert EndsIn(init, serial) ==> EndsIn(ended, serial);
    }
  }

  /**
   However long the tracker is lost, no session is stopped or started meanwhile, every session whose own thread has not
   ended still runs, and what is known of the devices stands.
   */
  lemma {:induction false} LossStopsNothing(config: Config, turns: seq<Turn>, lost: seq<Turn>, serial: string)
    requires forall i :: 0 <= i < |lost| ==> lost[i].poll.Lost?
    ensures var before, after := Run(config, turns), Run(config, turns + lost);
            && OnlyReaped(before, after)
            && (serial in before.registry && (forall i :: 0 <= i < |lost| ==> !EndsIn(lost[i].ended, serial)) ==>
                  serial in after.registry)
  {
    if lost == [] {
      NothingAdded(turns);
    } else {
      var init, t := lost[..|lost| - 1], lost[|lost| - 1];
      LossStopsNothing(config, turns, init, serial);
      Regroup(turns, init, [t]);
      SplitBack(lost);
      RunOneMore(config, turns + init, t);
      TakeCases(Run(config, turns + init), config, t);
      ReapAllOnlyReaps(Run(config, turns + init), t.ended, serial);
    }
  }
}
