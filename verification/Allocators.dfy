/**
 The daemon's two allocators (crates/daemon/src/main.rs): the host-side port and the output name of a new session,
 both chosen against the sessions now registered.
 */
module Allocators {
  import opened Bytes
  import opened Wrappers
  import opened Sequences

  const PORT_RANGE := 100

  /** A registered session; `stop` is the flag its thread watches. */
  datatype Session = Session(port: u16, name: string, stop: bool)
  type Registry = map<string, Session>

  /** `name` is used as given when `explicit`; otherwise it is the base of the naming scheme. */
  datatype Config = Config(port: u16, name: string, explicit: bool, once: bool)

  predicate Held(registry: Registry, port: int) {
    exists s :: s in registry && registry[s].port == port
  }

  predicate Taken(registry: Registry, name: string) {
    exists s :: s in registry && registry[s].name == name
  }

  /** One past the last port the daemon may use. */
  function Top(base: u16): (top: int)
    ensures base < top <= base + 100 && top <= 0x1_0000
  {
    if base + 100 <= 0x1_0000 then base + 100 else 0x1_0000
  }

  /** The lowest port from `base + offset` on that no session holds. */
  function FreePort(registry: Registry, base: u16, offset: nat): (r: Option<u16>)
    requires offset <= PORT_RANGE
    ensures r.Some? ==> base + offset <= r.value < Top(base) && !Held(registry, r.value)
    ensures r.Some? ==> forall q: int :: base + offset <= q < r.value ==> Held(registry, q)
    ensures r.None? ==> forall q: int :: base + offset <= q < Top(base) ==> Held(registry, q)
    decreases PORT_RANGE - offset
  {
    if offset == PORT_RANGE || base + offset > 0xFFFF then None
    else if !Held(registry, base + offset) then Some(base + offset)
    else FreePort(registry, base, offset + 1)
  }

  /** The search as the daemon runs it; `None` is either of its two errors. */
  method AllocatePort(registry: Registry, base: u16) returns (port: Option<u16>)
    ensures port == FreePort(registry, base, 0)
  {
    for offset := 0 to PORT_RANGE
      invariant FreePort(registry, base, offset) == FreePort(registry, base, 0)
    {
      if base + offset > 0xFFFF {
        return None;
      }
      if !Held(registry, base + offset) {
        return Some(base + offset);
      }
    }
    port := None;
  }

  predicate IsAlphanumeric(c: char) {
    '0' <= c <= '9' || 'A' <= c <= 'Z' || 'a' <= c <= 'z'
  }

  function Lower(c: char): char {
    if 'A' <= c <= 'Z' then (c as int + 32) as char else c
  }

  function LowerAll(s: string): (r: string)
    ensures |r| == |s|
  {
    seq(|s|, i requires 0 <= i < |s| => Lower(s[i]))
  }

  function Alphanumerics(s: string): string {
    if s == "" then "" else
    Alphanumerics(s[..|s| - 1]) + if IsAlphanumeric(s[|s| - 1]) then [s[|s| - 1]] else ""
  }

  /** The last `n` alphanumerics of a serial, lowercased. */
  function SerialSuffix(serial: string, n: nat): (r: string)
    ensures |r| <= n
  {
    var cleaned := Alphanumerics(serial);
    LowerAll(if |cleaned| <= n then cleaned else cleaned[|cleaned| - n..])
  }

  /** The names a session for `serial` may get, in order of preference. */
  function NamesFor(config: Config, serial: string): seq<string> {
    if config.explicit then [config.name]
    else [config.name, config.name + "-" + SerialSuffix(serial, 4), config.name + "-" + serial]
  }

  function ResolveOutputName(config: Config, serial: string, registry: Registry): Option<string> {
    if config.explicit then
      if Taken(registry, config.name) then None else Some(config.name)
    else if !Taken(registry, config.name) then Some(config.name)
    else
      var short := config.name + "-" + SerialSuffix(serial, 4);
      if !Taken(registry, short) then Some(short)
      else
        var long := config.name + "-" + serial;
        if !Taken(registry, long) then Some(long) else None
  }

  /** The name given is the first free one on the list; there is none exactly when every one is taken. */
  lemma NameIsFirstFree(config: Config, serial: string, registry: Registry)
    ensures var names := NamesFor(config, serial);
            match ResolveOutputName(config, serial, registry)
            case Some(name) =>
              exists k :: 0 <= k < |names| && names[k] == name && !Taken(registry, name)
                          && forall j :: 0 <= j < k ==> Taken(registry, names[j])
            case None => forall k :: 0 <= k < |names| ==> Taken(registry, names[k])
  {
    var names := NamesFor(config, serial);
    var r := ResolveOutputName(config, serial, registry);
    if r.Some? {
      var k := if r.value == names[0] then 0 else if r.value == names[1] then 1 else 2;
      assert names[k] == r.value;
    }
  }

  /** What every registry of a run looks like. */
  ghost predicate Safe(config: Config, registry: Registry) {
    && (forall s :: s in registry ==>
          config.port <= registry[s].port < Top(config.port) && registry[s].name in NamesFor(config, s))
    && (forall s, t :: s in registry && t in registry && s != t ==>
          registry[s].port != registry[t].port && registry[s].name != registry[t].name)
  }

  /** Registering a session with the port and the name just allocated. */
  lemma AllocationIsSafe(config: Config, registry: Registry, serial: string)
    requires Safe(config, registry) && serial !in registry
    ensures var port, name := FreePort(registry, config.port, 0), ResolveOutputName(config, serial, registry);
            port.Some? && name.Some? ==> Safe(config, registry[serial := Session(port.value, name.value, false)])
  {
    NameIsFirstFree(config, serial, registry);
  }

  function PortsOf(registry: Registry): set<int> {
    set s | s in registry :: registry[s].port
  }

  ghost predicate PortsDiffer(registry: Registry) {
    forall s, t :: s in registry && t in registry && s != t ==> registry[s].port != registry[t].port
  }

  lemma PortsWithout(registry: Registry, s: string)
    requires PortsDiffer(registry) && s in registry
    ensures PortsOf(registry) == PortsOf(registry - {s}) + {registry[s].port}
    ensures registry[s].port !in PortsOf(registry - {s})
  {
    forall p | p in PortsOf(registry) ensures p in PortsOf(registry - {s}) + {registry[s].port} {
      var t :| t in registry && registry[t].port == p;
      assert t != s ==> t in registry - {s};
    }
  }

  lemma {:induction false} PortsDistinct(registry: Registry)
    requires PortsDiffer(registry)
    ensures |PortsOf(registry)| == |registry|
    decreases |registry|
  {
    if registry == map[] {
      assert PortsOf(registry) == {};
    } else {
      var s :| s in registry;
      PortsDistinct(registry - {s});
      PortsWithout(registry, s);
    }
  }

  function Range(lo: int, hi: int): (r: set<int>)
    requires lo <= hi
    ensures |r| == hi - lo && forall q :: q in r <==> lo <= q < hi
    decreases hi - lo
  {
    if lo == hi then {} else Range(lo, hi - 1) + {hi - 1}
  }

  lemma SubsetSize(a: set<int>, b: set<int>)
    requires a <= b
    ensures |a| <= |b|
  {
    assert b == a + (b - a);
  }

  /** Allocation fails exactly when as many sessions run as there are ports: 100, or fewer near the top of the range. */
  lemma PortsRunOut(config: Config, registry: Registry)
    requires Safe(config, registry)
    ensures FreePort(registry, config.port, 0) == None <==> |registry| == Top(config.port) - config.port
    ensures |registry| <= Top(config.port) - config.port
  {
    var base, top := config.port, Top(config.port);
    var all := Range(base, top);
    PortsDistinct(registry);
    SubsetSize(PortsOf(registry), all);
    var free := FreePort(registry, base, 0);
    if free == None {
      forall q | q in all ensures q in PortsOf(registry) {
        assert Held(registry, q);
      }
      SubsetSize(all, PortsOf(registry));
    } else {
      SubsetSize(PortsOf(registry), all - {free.value});
    }
  }

  // ------------------------------------------------------------ when a name is refused

  lemma {:induction false} AlphanumericsAre(s: string)
    ensures forall i :: 0 <= i < |Alphanumerics(s)| ==> IsAlphanumeric(Alphanumerics(s)[i])
  {
    if s != "" {
      AlphanumericsAre(s[..|s| - 1]);
    }
  }

  lemma {:induction false} NothingToClean(s: string)
    requires forall i :: 0 <= i < |s| ==> IsAlphanumeric(s[i])
    ensures Alphanumerics(s) == s
  {
    if s != "" {
      NothingToClean(s[..|s| - 1]);
      SplitBack(s);
    }
  }

  lemma {:induction false} CleanConcat(a: string, b: string)
    ensures Alphanumerics(a + b) == Alphanumerics(a) + Alphanumerics(b)
  {
    if b == "" {
      NothingAdded(a);
      NothingAdded(Alphanumerics(a));
    } else {
      BackOfConcat(a, b);
      CleanConcat(a, b[..|b| - 1]);
      var c := b[|b| - 1];
      Regroup(Alphanumerics(a), Alphanumerics(b[..|b| - 1]), if IsAlphanumeric(c) then [c] else "");
    }
  }

  lemma CleanOne(c: char)
    ensures Alphanumerics([c]) == if IsAlphanumeric(c) then [c] else ""
  {
    assert [c][..0] == "";
  }

  /** A character that is no letter and no digit does not count, wherever it stands. */
  lemma SeparatorIgnored(front: string, c: char, back: string, n: nat)
    requires !IsAlphanumeric(c)
    ensures SerialSuffix(front + [c] + back, n) == SerialSuffix(front + back, n)
  {
    hide Alphanumerics, LowerAll;
    CleanConcat(front + [c], back);
    CleanConcat(front, [c]);
    CleanConcat(front, back);
    CleanOne(c);
    NothingAdded(Alphanumerics(front));
  }

  lemma CutLast(a: string, b: string)
    ensures (if |a + b| <= |b| then a + b else (a + b)[|a + b| - |b|..]) == b
  {
  }

  lemma SuffixIsKept(front: string, kept: string, n: nat)
    requires forall i :: 0 <= i < |kept| ==> IsAlphanumeric(kept[i])
    requires |kept| == n || (front == "" && |kept| < n)
    ensures SerialSuffix(front + kept, n) == LowerAll(kept)
  {
    hide Alphanumerics, LowerAll;
    CleanConcat(front, kept);
    NothingToClean(kept);
    if |kept| == n {
      CutLast(Alphanumerics(front), kept);
    } else {
      NothingAdded(kept);
    }
  }

  lemma LowerIs(c: char)
    requires IsAlphanumeric(c)
    ensures Lower(c) == if 'A' <= c <= 'Z' then 'a' + (c - 'A') else c
  {
  }

  /** Of what counts it is the last `n` that make the suffix, with capitals lowered; or all, if there are no more. */
  lemma SuffixIsLast(front: string, kept: string, n: nat)
    requires forall i :: 0 <= i < |kept| ==> '0' <= kept[i] <= '9' || 'A' <= kept[i] <= 'Z' || 'a' <= kept[i] <= 'z'
    requires |kept| == n || (front == "" && |kept| < n)
    ensures var suffix := SerialSuffix(front + kept, n);
            && |suffix| == |kept|
            && forall i :: 0 <= i < |kept| ==>
                 suffix[i] == if 'A' <= kept[i] <= 'Z' then 'a' + (kept[i] - 'A') else kept[i]
  {
    hide Alphanumerics, Lower;
    SuffixIsKept(front, kept, n);
    forall i | 0 <= i < |kept|
      ensures Lower(kept[i]) == if 'A' <= kept[i] <= 'Z' then 'a' + (kept[i] - 'A') else kept[i]
    {
      LowerIs(kept[i]);
    }
  }

  lemma DashIgnored(s: string)
    ensures Alphanumerics("-" + s) == Alphanumerics(s)
  {
    CleanConcat("-", s);
    CleanOne('-');
    NothingAdded(Alphanumerics(s));
  }

  /** A suffix of at most four characters is its own suffix. */
  lemma SuffixIsItsOwn(serial: string)
    ensures var suffix := SerialSuffix(serial, 4); SerialSuffix(suffix, 4) == suffix
  {
    var suffix := SerialSuffix(serial, 4);
    AlphanumericsAre(serial);
    assert forall i :: 0 <= i < |suffix| ==> IsAlphanumeric(suffix[i]) && Lower(suffix[i]) == suffix[i];
    NothingToClean(suffix);
    assert LowerAll(suffix) == suffix;
  }

  lemma PrefixCancels(p: string, a: string, b: string)
    ensures p + a == p + b ==> a == b
  {
    if p + a == p + b {
      assert a == (p + a)[|p|..] == (p + b)[|p|..] == b;
    }
  }

  /** The full-serial name of a serial that is not its own suffix is on no other serial's list. */
  lemma LongNameIsItsOwn(config: Config, serial: string, t: string)
    requires !config.explicit && serial != SerialSuffix(serial, 4) && t != serial
    ensures config.name + "-" + serial !in NamesFor(config, t)
  {
    SuffixIsItsOwn(t);
    PrefixCancels(config.name + "-", serial, SerialSuffix(t, 4));
    PrefixCancels(config.name + "-", serial, t);
  }

  lemma LongNameIsFree(config: Config, registry: Registry, serial: string)
    requires Safe(config, registry) && !config.explicit && serial !in registry && serial != SerialSuffix(serial, 4)
    ensures ResolveOutputName(config, serial, registry).Some?
  {
    forall t | t in registry ensures registry[t].name != config.name + "-" + serial {
      LongNameIsItsOwn(config, serial, t);
    }
  }

  /** At the very top of the port range one session runs at most, and one session cannot hold two names. */
  lemma LastPortRunsOne(config: Config, registry: Registry, serial: string)
    requires Safe(config, registry) && !config.explicit && config.port == 0xFFFF
    ensures ResolveOutputName(config, serial, registry).Some?
  {
    var short := config.name + "-" + SerialSuffix(serial, 4);
    assert |short| > |config.name|;
    forall s, t | s in registry && t in registry ensures s == t {
      assert registry[s].port == 0xFFFF == registry[t].port;
    }
  }

  lemma SafeGrows(config: Config, registry: Registry, serial: string, session: Session)
    requires Safe(config, registry) && serial !in registry
    requires config.port <= session.port < Top(config.port) && session.name in NamesFor(config, serial)
    requires !Held(registry, session.port) && !Taken(registry, session.name)
    ensures Safe(config, registry[serial := session])
  {
  }

  function TwoSessions(config: Config, x: string, y: string, short: string): Registry
    requires config.port < 0xFFFF
  {
    map[x := Session(config.port, config.name, false)][y := Session(config.port + 1, short, false)]
  }

  lemma TwoAreSafe(config: Config, x: string, y: string, short: string)
    requires config.port < 0xFFFF && x != y && short != config.name
    requires config.name in NamesFor(config, x) && short in NamesFor(config, y)
    ensures Safe(config, TwoSessions(config, x, y, short))
  {
    var first := Session(config.port, config.name, false);
    var none: Registry := map[];
    SafeGrows(config, none, x, first);
    var one := none[x := first];
    assert one == map[x := first];
    SafeGrows(config, one, y, Session(config.port + 1, short, false));
  }

  lemma BothTaken(config: Config, x: string, y: string, short: string)
    requires config.port < 0xFFFF && x != y
    ensures var registry := TwoSessions(config, x, y, short);
            Taken(registry, config.name) && Taken(registry, short)
  {
    var registry := TwoSessions(config, x, y, short);
    assert x in registry && y in registry;
  }

  /** A serial that is its own suffix is refused when another one with that suffix holds the suffixed name. */
  lemma OwnSuffixRefused(config: Config, x: string, y: string, serial: string)
    requires !config.explicit && config.port < 0xFFFF && x != y && x != serial && y != serial
    requires SerialSuffix(y, 4) == serial == SerialSuffix(serial, 4)
    ensures var registry := TwoSessions(config, x, y, config.name + "-" + serial);
            Safe(config, registry) && serial !in registry && ResolveOutputName(config, serial, registry) == None
  {
    var short := config.name + "-" + serial;
    assert |short| > |config.name|;
    assert NamesFor(config, x)[0] == config.name && NamesFor(config, y)[1] == short;
    TwoAreSafe(config, x, y, short);
    BothTaken(config, x, y, short);
  }

  /** At most four characters, each a lowercase letter or a digit. */
  predicate IsPlain(serial: string) {
    |serial| <= 4 && forall i :: 0 <= i < |serial| ==> IsAlphanumeric(serial[i]) && Lower(serial[i]) == serial[i]
  }

  lemma PlainIsOwnSuffix(serial: string)
    ensures IsPlain(serial) <==> serial == SerialSuffix(serial, 4)
  {
    AlphanumericsAre(serial);
    if IsPlain(serial) {
      NothingToClean(serial);
      assert LowerAll(serial) == serial;
    }
  }

  ghost predicate NeverRefused(config: Config, serial: string) {
    forall registry :: Safe(config, registry) && serial !in registry ==>
      ResolveOutputName(config, serial, registry).Some?
  }

  /** Two sessions that leave a plain serial without a name: their own serials clean up to the same suffix. */
  lemma PlainSerialRefused(config: Config, serial: string) returns (registry: Registry)
    requires !config.explicit && config.port < 0xFFFF && IsPlain(serial)
    ensures Safe(config, registry) && serial !in registry && ResolveOutputName(config, serial, registry) == None
  {
    var x := "-" + serial;
    var y := "-" + x;
    PlainIsOwnSuffix(serial);
    DashIgnored(serial);
    DashIgnored(x);
    OwnSuffixRefused(config, x, y, serial);
    registry := TwoSessions(config, x, y, config.name + "-" + serial);
  }

  /**
   Without a name of the user's own, a serial is sure of a name whatever sessions run if and only if it is not plain, or
   the port range is a single port.
   */
  lemma NeverRefusedIff(config: Config, serial: string)
    requires !config.explicit
    ensures NeverRefused(config, serial) <==> !IsPlain(serial) || config.port == 0xFFFF
  {
    PlainIsOwnSuffix(serial);
    if !IsPlain(serial) {
      forall registry | Safe(config, registry) && serial !in registry
        ensures ResolveOutputName(config, serial, registry).Some?
      {
        LongNameIsFree(config, registry, serial);
      }
    } else if config.port == 0xFFFF {
      forall registry | Safe(config, registry) && serial !in registry
        ensures ResolveOutputName(config, serial, registry).Some?
      {
        LastPortRunsOne(config, registry, serial);
      }
    } else {
      var registry := PlainSerialRefused(config, serial);
    }
  }
}
