/** A run of the reconciler (crates/daemon/src/main.rs) in which a tablet gets no output name. */
module RefusedTablet {
  import opened Wrappers
  import opened Sequences
  import opened Allocators
  import opened Reconciler

  function Three(x: string, y: string, z: string): seq<Device> {
    [Device(x, true), Device(y, true), Device(z, true)]
  }

  /** Three tablets seen ready at time 0, and a look at them when the debounce is over. */
  function ThreeSeen(x: string, y: string, z: string): seq<Turn> {
    [Turn([], Update(Three(x, y, z)), 0, []), Turn([], TimedOut, SPAWN_DEBOUNCE, [])]
  }

  lemma ReadyAre(x: string, y: string, z: string)
    ensures Ready(Three(x, y, z)) == {x, y, z}
  {
    var ds := Three(x, y, z);
    assert ds[0] in ds && ds[1] in ds && ds[2] in ds;
  }

  lemma ChosenOfThree(s: State, config: Config, now: nat, x: string, y: string, z: string)
    requires !config.once
    ensures Chosen(s, config, now, Three(x, y, z)) ==
            (if Due(s, now, Device(x, true)) then [x] else []) + (if Due(s, now, Device(y, true)) then [y] else [])
            + (if Due(s, now, Device(z, true)) then [z] else [])
  {
    var ds := Three(x, y, z);
    assert ds[..2] == [ds[0], ds[1]] && ds[..2][..1] == [ds[0]] && [ds[0]][..0] == [];
    assert Chosen(s, config, now, [ds[0]]) == if Due(s, now, ds[0]) then [x] else [];
  }

  /** Seen once, the three are ready and no more. */
  function SeenOnce(x: string, y: string, z: string): State {
    State(map[], map[], map[x := 0, y := 0, z := 0], false, Three(x, y, z), true, [],
          [Sighting(0, {x, y, z})])
  }

  lemma FirstLook(config: Config, x: string, y: string, z: string)
    requires !config.once
    ensures Run(config, ThreeSeen(x, y, z)[..1]) == SeenOnce(x, y, z)
  {
    var t := ThreeSeen(x, y, z)[0];
    assert ThreeSeen(x, y, z)[..1] == [] + [t];
    RunOneMore(config, [], t);
    ReadyAre(x, y, z);
    var s := START.(devices := Three(x, y, z));
    var s1 := Look(s, 0);
    assert s1 == SeenOnce(x, y, z);
    ChosenOfThree(s1, config, 0, x, y, z);
  }

  lemma SpawnOfThree(s: State, config: Config, x: string, y: string, z: string)
    ensures var a := Attempt(true, 0);
            SpawnAll(s, config, [x, y, z], []) ==
            SpawnOne(SpawnOne(SpawnOne(s, config, x, a), config, y, a), config, z, a)
  {
    assert [x, y, z][..2] == [x, y] && [x, y][..1] == [x] && [x][..0] == [];
    assert SpawnAll(s, config, [x], []) == SpawnOne(s, config, x, Attempt(true, 0));
  }

  /** The second look finds the same three. */
  function SeenTwice(x: string, y: string, z: string): State {
    SeenOnce(x, y, z).(sightings := [Sighting(0, {x, y, z}), Sighting(SPAWN_DEBOUNCE, {x, y, z})])
  }

  lemma SecondLook(x: string, y: string, z: string)
    ensures Look(SeenOnce(x, y, z), SPAWN_DEBOUNCE) == SeenTwice(x, y, z)
  {
    ReadyAre(x, y, z);
    var s := Look(SeenOnce(x, y, z), SPAWN_DEBOUNCE);
    assert s.seenReadyAt == map[x := 0, y := 0, z := 0];
    assert s.registry == map[];
  }

  lemma AllAreDue(config: Config, x: string, y: string, z: string)
    requires !config.once
    ensures Candidates(SeenTwice(x, y, z), config, SPAWN_DEBOUNCE) == [x, y, z]
  {
    ChosenOfThree(SeenTwice(x, y, z), config, SPAWN_DEBOUNCE, x, y, z);
  }

  lemma SecondTurn(config: Config, x: string, y: string, z: string)
    requires !config.once
    ensures var a := Attempt(true, 0);
            Take(SeenOnce(x, y, z), config, ThreeSeen(x, y, z)[1]) ==
            SpawnOne(SpawnOne(SpawnOne(SeenTwice(x, y, z), config, x, a), config, y, a), config, z, a)
  {
    SecondLook(x, y, z);
    AllAreDue(config, x, y, z);
    SpawnOfThree(SeenTwice(x, y, z), config, x, y, z);
    assert SeenTwice(x, y, z).(onceArmed := false) == SeenTwice(x, y, z);
  }

  lemma FirstGetsBase(s: State, config: Config, x: string)
    requires s.registry == map[]
    ensures var session := Session(config.port, config.name, false);
            SpawnOne(s, config, x, Attempt(true, 0)) ==
            s.(registry := map[x := session], log := s.log + [Started(x, config.port, config.name)])
  {
    var session := Session(config.port, config.name, false);
    assert s.registry[x := session] == map[x := session];
  }

  lemma SecondGetsSuffix(s: State, config: Config, x: string, y: string)
    requires !config.explicit && config.port < 0xFFFF && x != y
    requires s.registry == map[x := Session(config.port, config.name, false)]
    ensures var short := config.name + "-" + SerialSuffix(y, 4);
            SpawnOne(s, config, y, Attempt(true, 0)) ==
            s.(registry := TwoSessions(config, x, y, short), log := s.log + [Started(y, config.port + 1, short)])
  {
    assert x in s.registry;
    var short := config.name + "-" + SerialSuffix(y, 4);
    assert |short| > |config.name|;
    assert Taken(s.registry, config.name) && !Taken(s.registry, short);
    assert Held(s.registry, config.port) && !Held(s.registry, config.port + 1);
    assert FreePort(s.registry, config.port, 0) == Some(config.port + 1);
  }

  /** Whatever session's own serial does to it, the third has no name left. */
  lemma ThirdIsRefused(s: State, config: Config, x: string, y: string, z: string)
    requires !config.explicit && config.port < 0xFFFF && x != y && x != z && y != z
    requires SerialSuffix(y, 4) == z == SerialSuffix(z, 4)
    requires s.registry == TwoSessions(config, x, y, config.name + "-" + z)
    ensures SpawnOne(s, config, z, Attempt(true, 0)) == Fail(s, z, 0)
  {
    OwnSuffixRefused(config, x, y, z);
  }

  /** The first two are started, and the third is refused. */
  lemma ThirdOfThree(config: Config, x: string, y: string, z: string)
    requires !config.explicit && !config.once && config.port < 0xFFFF && x != y && x != z && y != z
    requires SerialSuffix(y, 4) == z == SerialSuffix(z, 4)
    ensures var s, short := Run(config, ThreeSeen(x, y, z)), config.name + "-" + z;
            && s.log == [Started(x, config.port, config.name), Started(y, config.port + 1, short), Failed(z, 0)]
            && s.registry == TwoSessions(config, x, y, short) && z in s.cooldowns
  {
    hide Take, SpawnAll, FreePort, SerialSuffix, ResolveOutputName;
    var turns := ThreeSeen(x, y, z);
    assert turns == turns[..1] + [turns[1]];
    FirstLook(config, x, y, z);
    RunOneMore(config, turns[..1], turns[1]);
    SecondTurn(config, x, y, z);
    var s := SeenTwice(x, y, z);
    FirstGetsBase(s, config, x);
    var s1 := SpawnOne(s, config, x, Attempt(true, 0));
    SecondGetsSuffix(s1, config, x, y);
    ThirdIsRefused(SpawnOne(s1, config, y, Attempt(true, 0)), config, x, y, z);
  }

  /**
   For every plain serial a run of two turns: three tablets are plugged in together, the two whose serials clean up to
   the third's are started, and the third, though a port is free, fails for want of a name.
   */
  lemma PlainSerialFails(config: Config, serial: string) returns (turns: seq<Turn>, x: string, y: string)
    requires !config.explicit && !config.once && config.port < 0xFFFF && IsPlain(serial)
    ensures var s, short := Run(config, turns), config.name + "-" + serial;
            && s.log == [Started(x, config.port, config.name), Started(y, config.port + 1, short), Failed(serial, 0)]
            && s.registry == TwoSessions(config, x, y, short) && serial !in s.registry && serial in s.cooldowns
  {
    hide Run, ThreeSeen, IsPlain, Alphanumerics, LowerAll;
    x := "-" + serial;
    y := "-" + x;
    turns := ThreeSeen(x, y, serial);
    PlainIsOwnSuffix(serial);
    DashIgnored(serial);
    DashIgnored(x);
    ThirdOfThree(config, x, y, serial);
  }
}
