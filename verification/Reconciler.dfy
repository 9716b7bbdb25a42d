/**
 The daemon's main loop (crates/daemon/src/main.rs) as a state machine, one step per turn of the loop. The
 environment supplies which session threads have finished, what the tracker said, what the clock read (in
 milliseconds) and which threads could be started.
 */
module Reconciler {
  import opened Bytes
  import opened Wrappers
  import opened Allocators

  const SPAWN_DEBOUNCE := 600

  datatype Device = Device(serial: string, ready: bool)
  datatype Cooldown = Cooldown(failures: nat, nextAttempt: nat)

  /** A session thread that has finished: cleanly, or with an error or a panic whose cooldown is reckoned from `at`. */
  datatype Ended = Ended(serial: string, clean: bool, at: nat)
  datatype Poll = Update(devices: seq<Device>) | TimedOut | Lost
  /** Whether the thread of one more session could be started, and when the daemon learned that it could not. */
  datatype Attempt = Attempt(threadStarts: bool, at: nat)
  datatype Turn = Turn(ended: seq<Ended>, poll: Poll, now: nat, attempts: seq<Attempt>)

  /** What happened to a serial, and what the daemon saw, in order; both are histories the daemon does not keep. */
  datatype Event = Started(serial: string, port: u16, name: string) | Failed(serial: string, at: nat)
                 | EndedCleanly(serial: string)
  datatype Sighting = Sighting(now: nat, ready: set<string>)

  datatype State = State(registry: Registry, cooldowns: map<string, Cooldown>, seenReadyAt: map<string, nat>,
                         onceArmed: bool, devices: seq<Device>, running: bool,
                         log: seq<Event>, sightings: seq<Sighting>)

  const START := State(map[], map[], map[], false, [], true, [], [])

  function Backoff(failures: nat): nat {
    2000 * (if failures > 8 then 8 else if failures < 1 then 1 else failures)
  }

  function Bump(cooldowns: map<string, Cooldown>, serial: string, at: nat): map<string, Cooldown> {
    var failures := (if serial in cooldowns then cooldowns[serial].failures else 0) + 1;
    cooldowns[serial := Cooldown(failures, at + Backoff(failures))]
  }

  function Fail(s: State, serial: string, at: nat): State {
    s.(cooldowns := Bump(s.cooldowns, serial, at), log := s.log + [Failed(serial, at)])
  }

  function Reap(s: State, e: Ended): State {
    if e.serial !in s.registry then s else
    var s' := s.(registry := s.registry - {e.serial});
    if e.clean then s'.(cooldowns := s.cooldowns - {e.serial}, log := s.log + [EndedCleanly(e.serial)])
    else Fail(s', e.serial, e.at)
  }

  function ReapAll(s: State, ended: seq<Ended>): State {
    if ended == [] then s else Reap(ReapAll(s, ended[..|ended| - 1]), ended[|ended| - 1])
  }

  function Ready(devices: seq<Device>): set<string> {
    set d | d in devices && d.ready :: d.serial
  }

  /** Note which devices are ready, and since when; tell the sessions of the others to stop. */
  function Look(s: State, now: nat): State {
    var ready := Ready(s.devices);
    s.(seenReadyAt := map serial | serial in ready :: if serial in s.seenReadyAt then s.seenReadyAt[serial] else now,
       registry := map serial | serial in s.registry ::
         if serial in ready then s.registry[serial] else s.registry[serial].(stop := true),
       sightings := s.sightings + [Sighting(now, ready)])
  }

  /** `duration_since` saturates at zero, so a clock that stood still or went back is no debounce. */
  predicate Debounced(s: State, now: nat, serial: string) {
    serial in s.seenReadyAt && now - s.seenReadyAt[serial] >= SPAWN_DEBOUNCE
  }

  predicate Cooled(s: State, now: nat, serial: string) {
    serial in s.cooldowns ==> now >= s.cooldowns[serial].nextAttempt
  }

  predicate Due(s: State, now: nat, d: Device) {
    d.ready && d.serial !in s.registry && Debounced(s, now, d.serial) && Cooled(s, now, d.serial)
  }

  function Chosen(s: State, config: Config, now: nat, devices: seq<Device>): seq<string> {
    if devices == [] then [] else
    var d := devices[|devices| - 1];
    Chosen(s, config, now, devices[..|devices| - 1])
    + if (if config.once then d.ready else Due(s, now, d)) then [d.serial] else []
  }

  predicate Arms(s: State, config: Config, now: nat) {
    config.once && !s.onceArmed && exists d :: d in s.devices && d.ready && Debounced(s, now, d.serial)
  }

  function Candidates(s: State, config: Config, now: nat): seq<string> {
    if config.once && !Arms(s, config, now) then [] else Chosen(s, config, now, s.devices)
  }

  function SpawnOne(s: State, config: Config, serial: string, a: Attempt): State {
    if serial in s.registry then s else
    var port := FreePort(s.registry, config.port, 0);
    var name := ResolveOutputName(config, serial, s.registry);
    if port.Some? && name.Some? && a.threadStarts then
      s.(registry := s.registry[serial := Session(port.value, name.value, false)],
         log := s.log + [Started(serial, port.value, name.value)])
    else Fail(s, serial, a.at)
  }

  /** A turn that does not say otherwise starts every thread. */
  function AttemptAt(attempts: seq<Attempt>, k: nat): Attempt {
    if k < |attempts| then attempts[k] else Attempt(true, 0)
  }

  function SpawnAll(s: State, config: Config, serials: seq<string>, attempts: seq<Attempt>): State {
    if serials == [] then s else
    var k := |serials| - 1;
    SpawnOne(SpawnAll(s, config, serials[..k], attempts), config, serials[k], AttemptAt(attempts, k))
  }

  /** What a turn does once the tracker has answered. */
  function Process(s: State, config: Config, t: Turn): State {
    var s1 := Look(s, t.now);
    SpawnAll(s1.(onceArmed := s1.onceArmed || Arms(s1, config, t.now)), config,
             Candidates(s1, config, t.now), t.attempts)
  }

  function Take(s: State, config: Config, t: Turn): State {
    if !s.running then s else
    var s1 := ReapAll(s, t.ended);
    if config.once && s1.onceArmed && s1.registry == map[] then s1.(running := false)
    else match t.poll
    case Update(devices) => Process(s1.(devices := devices), config, t)
    case TimedOut => Process(s1, config, t)
    case Lost => s1
  }

  function Run(config: Config, turns: seq<Turn>): State {
    if turns == [] then START else Take(Run(config, turns[..|turns| - 1]), config, turns[|turns| - 1])
  }

  lemma RunOneMore(config: Config, turns: seq<Turn>, t: Turn)
    ensures Run(config, turns + [t]) == Take(Run(config, turns), config, t)
  {
    assert (turns + [t])[..|turns|] == turns;
  }

  /** Whether a turn gets as far as looking at the devices, and what they then are. */
  function Looks(s: State, config: Config, t: Turn): Option<seq<Device>> {
    var s1 := ReapAll(s, t.ended);
    if !s.running || (config.once && s1.onceArmed && s1.registry == map[]) || t.poll.Lost? then None
    else Some(if t.poll.Update? then t.poll.devices else s1.devices)
  }

  lemma TakeCases(s: State, config: Config, t: Turn)
    ensures var s1 := ReapAll(s, t.ended);
            match Looks(s, config, t)
            case Some(devices) => Take(s, config, t) == Process(s1.(devices := devices), config, t)
            case None => Take(s, config, t) == s || Take(s, config, t) == s1
                         || Take(s, config, t) == s1.(running := false)
  {
    var s1 := ReapAll(s, t.ended);
    assert s1.(devices := s1.devices) == s1;
  }
}
