/**
 The daemon's main loop as it runs: a registry and three tables updated in place, turn after turn. Each method is
 proved to do what `Reconciler` says, so what holds of every run there holds of the tables here.
 */
module Daemon {
  import opened Wrappers
  import opened Allocators
  import opened Reconciler

  class Loop {
    const config: Config
    var registry: Registry
    var cooldowns: map<string, Cooldown>
    var seenReadyAt: map<string, nat>
    var onceArmed: bool
    var devices: seq<Device>
    var running: bool
    ghost var log: seq<Event>
    ghost var sightings: seq<Sighting>

    ghost function Shown(): State
      reads this
    {
      State(registry, cooldowns, seenReadyAt, onceArmed, devices, running, log, sightings)
    }

    constructor (config: Config)
      ensures this.config == config && Shown() == START
    {
      this.config := config;
      registry, cooldowns, seenReadyAt := map[], map[], map[];
      onceArmed, devices, running, log, sightings := false, [], true, [], [];
    }

    method BumpCooldown(serial: string, at: nat)
      modifies this`cooldowns, this`log
      ensures Shown() == Fail(old(Shown()), serial, at)
    {
      if serial !in cooldowns {
        cooldowns := cooldowns[serial := Cooldown(0, at)];
      }
      var failures := cooldowns[serial].failures + 1;
      var capped := if failures < 8 then failures else 8;
      cooldowns := cooldowns[serial := Cooldown(failures, at + 2000 * (if capped > 1 then capped else 1))];
      log := log + [Failed(serial, at)];
    }

    method ReapOne(e: Ended)
      modifies this`registry, this`cooldowns, this`log
      ensures Shown() == Reap(old(Shown()), e)
    {
      if e.serial in registry {
        registry := registry - {e.serial};
        if e.clean {
          cooldowns := cooldowns - {e.serial};
          log := log + [EndedCleanly(e.serial)];
        } else {
          BumpCooldown(e.serial, e.at);
        }
      }
    }

    method ReapFinished(ended: seq<Ended>)
      modifies this`registry, this`cooldowns, this`log
      ensures Shown() == ReapAll(old(Shown()), ended)
    {
      for i := 0 to |ended|
        invariant Shown() == ReapAll(old(Shown()), ended[..i])
      {
        assert ended[..i + 1][..i] == ended[..i];
        ReapOne(ended[i]);
      }
      assert ended[..|ended|] == ended;
    }

    method CurrentlyReady() returns (ready: set<string>)
      ensures ready == Ready(devices)
    {
      ready := {};
      for i := 0 to |devices|
        invariant ready == Ready(devices[..i])
      {
        assert devices[..i + 1] == devices[..i] + [devices[i]];
        if devices[i].ready {
          ready := ready + {devices[i].serial};
        }
      }
      assert devices[..|devices|] == devices;
    }

    /** Drop the serials no longer ready and note `now` for those newly so. */
    method Track(ready: set<string>, now: nat)
      modifies this`seenReadyAt
      ensures seenReadyAt == map s | s in ready :: if s in old(seenReadyAt) then old(seenReadyAt)[s] else now
    {
      seenReadyAt := map s | s in seenReadyAt && s in ready :: seenReadyAt[s];
      var left := ready;
      while left != {}
        invariant left <= ready && seenReadyAt.Keys <= ready
        invariant forall s :: s in ready && s !in left ==> s in seenReadyAt
        invariant forall s :: s in ready && s in old(seenReadyAt) ==>
                    s in seenReadyAt && seenReadyAt[s] == old(seenReadyAt)[s]
        invariant forall s :: s in seenReadyAt && s !in old(seenReadyAt) ==> seenReadyAt[s] == now
      {
        var s :| s in left;
        if s !in seenReadyAt {
          seenReadyAt := seenReadyAt[s := now];
        }
        left := left - {s};
      }
    }

    /** Raise the stop flag of every session whose device is not ready. */
    method StopVanished(ready: set<string>)
      modifies this`registry
      ensures registry == map s | s in old(registry) ::
                if s in ready then old(registry)[s] else old(registry)[s].(stop := true)
    {
      var vanished := set s | s in registry && s !in ready;
      var left := vanished;
      while left != {}
        invariant left <= vanished && registry.Keys == old(registry).Keys
        invariant forall s :: s in registry ==>
                    registry[s] ==
                    if s in vanished && s !in left then old(registry)[s].(stop := true) else old(registry)[s]
      {
        var s :| s in left;
        registry := registry[s := registry[s].(stop := true)];
        left := left - {s};
      }
    }

    method LookAt(now: nat)
      modifies this`registry, this`seenReadyAt, this`sightings
      ensures Shown() == Look(old(Shown()), now)
    {
      var ready := CurrentlyReady();
      Track(ready, now);
      StopVanished(ready);
      sightings := sightings + [Sighting(now, ready)];
    }

    predicate IsDebounced(now: nat, serial: string)
      reads this
    {
      serial in seenReadyAt && now - seenReadyAt[serial] >= SPAWN_DEBOUNCE
    }

    /** Decide whom to start, arming --once as soon as any ready device has debounced. */
    method Choose(now: nat) returns (candidates: seq<string>)
      modifies this`onceArmed
      ensures candidates == Candidates(old(Shown()), config, now)
      ensures Shown() == old(Shown()).(onceArmed := old(onceArmed) || Arms(old(Shown()), config, now))
    {
      ghost var s := Shown();
      candidates := [];
      if config.once {
        if onceArmed || !exists d :: d in devices && d.ready && IsDebounced(now, d.serial) {
          return;
        }
        onceArmed := true;
      }
      for i := 0 to |devices|
        invariant candidates == Chosen(s, config, now, devices[..i])
      {
        assert devices[..i + 1][..i] == devices[..i];
        var d := devices[i];
        if d.ready {
          if config.once || (d.serial !in registry && IsDebounced(now, d.serial)
                             && (d.serial in cooldowns ==> now >= cooldowns[d.serial].nextAttempt)) {
            candidates := candidates + [d.serial];
          }
        }
      }
      assert devices[..|devices|] == devices;
    }

    /** Allocate, then start the thread; `None` if either allocator or the thread refuses. */
    method SpawnSession(serial: string, threadStarts: bool) returns (session: Option<Session>)
      ensures var port, name := FreePort(registry, config.port, 0), ResolveOutputName(config, serial, registry);
              session == if port.Some? && name.Some? && threadStarts then Some(Session(port.value, name.value, false))
                         else None
    {
      var port := AllocatePort(registry, config.port);
      if port == None {
        return None;
      }
      var name := ResolveOutputName(config, serial, registry);
      if name == None || !threadStarts {
        return None;
      }
      session := Some(Session(port.value, name.value, false));
    }

    method StartOne(serial: string, a: Attempt)
      modifies this`registry, this`cooldowns, this`log
      ensures Shown() == SpawnOne(old(Shown()), config, serial, a)
    {
      if serial in registry {
        return;
      }
      var session := SpawnSession(serial, a.threadStarts);
      match session {
        case Some(started) =>
          registry := registry[serial := started];
          log := log + [Started(serial, started.port, started.name)];
        case None =>
          BumpCooldown(serial, a.at);
      }
    }

    method Start(candidates: seq<string>, attempts: seq<Attempt>)
      modifies this`registry, this`cooldowns, this`log
      ensures Shown() == SpawnAll(old(Shown()), config, candidates, attempts)
    {
      for i := 0 to |candidates|
        invariant Shown() == SpawnAll(old(Shown()), config, candidates[..i], attempts)
      {
        assert candidates[..i + 1][..i] == candidates[..i];
        StartOne(candidates[i], AttemptAt(attempts, i));
      }
      assert candidates[..|candidates|] == candidates;
    }

    /** One turn of the loop. */
    method TakeTurn(t: Turn)
      modifies this
      ensures Shown() == Take(old(Shown()), config, t)
    {
      if !running {
        return;
      }
      ReapFinished(t.ended);
      if config.once && onceArmed && registry == map[] {
        running := false;
        return;
      }
      match t.poll {
        case Update(update) => devices := update;
        case TimedOut =>
        case Lost => return;
      }
      LookAt(t.now);
      var candidates := Choose(t.now);
      Start(candidates, t.attempts);
    }

    /** A whole run, from a daemon that has just started. */
    method RunAll(turns: seq<Turn>)
      requires Shown() == START
      modifies this
      ensures Shown() == Reconciler.Run(config, turns)
    {
      for i := 0 to |turns|
        invariant Shown() == Reconciler.Run(config, turns[..i])
      {
        assert turns[..i + 1][..i] == turns[..i];
        TakeTurn(turns[i]);
      }
      assert turns[..|turns|] == turns;
    }
  }
}
