/**
 Associating a touchscreen with an output in KWin's `kcminputrc` (crates/daemon/src/input.rs): the check whether the
 file already says so, and the rewrite that makes it.
 */
module KwinConfig {
  import opened Sequences

  const LF: char := '\n'
  const CR: char := '\r'

  predicate IsWhitespace(c: char) {
    || '\t' <= c <= '\r' || c == ' ' || c == '\U{85}' || c == '\U{A0}' || c == '\U{1680}'
    || '\U{2000}' <= c <= '\U{200A}' || c == '\U{2028}' || c == '\U{2029}' || c == '\U{202F}'
    || c == '\U{205F}' || c == '\U{3000}'
  }

  function TrimEnd(s: string): (r: string)
    ensures r <= s && (r != "" ==> !IsWhitespace(r[|r| - 1]))
    ensures s != "" && !IsWhitespace(s[|s| - 1]) ==> r == s
  {
    if s != "" && IsWhitespace(s[|s| - 1]) then TrimEnd(s[..|s| - 1]) else s
  }

  function TrimStart(s: string): (r: string)
    ensures s != "" && !IsWhitespace(s[0]) ==> r == s
  {
    if s != "" && IsWhitespace(s[0]) then TrimStart(s[1..]) else s
  }

  function Trim(s: string): string {
    TrimStart(TrimEnd(s))
  }

  predicate AllWhitespace(s: string) {
    forall i :: 0 <= i < |s| ==> IsWhitespace(s[i])
  }

  /** Trimming the end takes white space and nothing else, and all of it. */
  lemma {:induction false} TrimEndIs(s: string)
    ensures var r := TrimEnd(s);
            r <= s && AllWhitespace(s[|r|..]) && (r != "" ==> !IsWhitespace(r[|r| - 1]))
  {
    if s != "" && IsWhitespace(s[|s| - 1]) {
      var init := s[..|s| - 1];
      hide IsWhitespace;
      TrimEndIs(init);
      var n := |TrimEnd(init)|;
      assert s[n..] == init[n..] + [s[|s| - 1]];
    }
  }

  /** So does trimming both ends. */
  lemma TrimIs(s: string) returns (lo: nat, hi: nat)
    ensures lo <= hi <= |s| && Trim(s) == s[lo..hi] && AllWhitespace(s[..lo]) && AllWhitespace(s[hi..])
    ensures lo < hi ==> !IsWhitespace(s[lo]) && !IsWhitespace(s[hi - 1])
  {
    hide TrimEnd, TrimStart, IsWhitespace;
    TrimEndIs(s);
    hi := |TrimEnd(s)|;
    lo := TrimStartIs(TrimEnd(s));
    assert TrimEnd(s) == s[..hi];
    assert s[..hi][lo..] == s[lo..hi] && s[..hi][..lo] == s[..lo];
  }

  lemma {:induction false} TrimStartIs(s: string) returns (n: nat)
    ensures n <= |s| && TrimStart(s) == s[n..] && AllWhitespace(s[..n]) && (n < |s| ==> !IsWhitespace(s[n]))
  {
    n := 0;
    if s != "" && IsWhitespace(s[0]) {
      n := TrimStartIs(s[1..]);
      assert s[..n + 1] == [s[0]] + s[1..][..n];
      n := n + 1;
    }
  }

  predicate Contains(s: string, part: string) {
    exists i :: 0 <= i <= |s| && part <= s[i..]
  }

  function FirstLf(text: string): (n: nat)
    ensures n <= |text| && LF !in text[..n] && (n < |text| ==> text[n] == LF)
  {
    if text == "" || text[0] == LF then 0 else
      var n := 1 + FirstLf(text[1..]);
      assert text[..n] == [text[0]] + text[1..][..n - 1];
      n
  }

  /** A carriage return before the line feed belongs to the line ending. */
  function StripCr(line: string): string {
    if line != "" && line[|line| - 1] == CR then line[..|line| - 1] else line
  }

  function StripAll(lines: seq<string>): (r: seq<string>)
    ensures |r| == |lines|
  {
    seq(|lines|, i requires 0 <= i < |lines| => StripCr(lines[i]))
  }

  /** The lines of a text: each ends at a line feed, or at the end of a text that does not end in one. */
  function Lines(text: string): (lines: seq<string>)
    ensures forall i :: 0 <= i < |lines| ==> LF !in lines[i]
  {
    if text == "" then [] else
    var n := FirstLf(text);
    if n == |text| then
      assert text[..n] == text;
      [text]
    else [StripCr(text[..n])] + Lines(text[n + 1..])
  }

  function Unlines(lines: seq<string>): string {
    if lines == [] then "" else Unlines(lines[..|lines| - 1]) + lines[|lines| - 1] + [LF]
  }

  predicate OneLiners(lines: seq<string>) {
    forall i :: 0 <= i < |lines| ==> LF !in lines[i]
  }

  function Section(device: string): string {
    "[Libinput][19794][19524][" + device + "]"
  }

  function Desired(output: string): string {
    "output=Virtual-" + output
  }

  predicate IsHeader(line: string) {
    "[" <= TrimEnd(line)
  }

  /** Whether a line that follows these would lie in the device's section. */
  predicate InTarget(lines: seq<string>, section: string) {
    if lines == [] then false else
    var last := lines[|lines| - 1];
    if IsHeader(last) then TrimEnd(last) == section else InTarget(lines[..|lines| - 1], section)
  }

  /** The lines outside the device's section; a header belongs to the section it opens. */
  function Kept(lines: seq<string>, section: string): seq<string> {
    if lines == [] then [] else
    Kept(lines[..|lines| - 1], section) + if InTarget(lines, section) then [] else [lines[|lines| - 1]]
  }

  function Rewrite(text: string, section: string, desired: string): string {
    Unlines(Kept(Lines(text), section) + ["", section, desired])
  }

  /** Whether the value is set before the next line that opens a section. */
  predicate BodySets(lines: seq<string>, desired: string) {
    lines != [] && !("[" <= Trim(lines[0])) && (Trim(lines[0]) == desired || BodySets(lines[1..], desired))
  }

  /** The header the check looks for may go on after the device's section name. */
  predicate Opens(line: string, section: string) {
    section <= TrimEnd(line)
  }

  /** Whether the first such header is followed by the value. */
  predicate FirstSets(lines: seq<string>, section: string, desired: string) {
    lines != [] &&
    if Opens(lines[0], section) then BodySets(lines[1..], desired) else FirstSets(lines[1..], section, desired)
  }

  predicate AlreadyAssociated(text: string, section: string, desired: string) {
    Contains(text, section) && FirstSets(Lines(text), section, desired)
  }

  function Associate(text: string, section: string, desired: string): string {
    if AlreadyAssociated(text, section, desired) then text else Rewrite(text, section, desired)
  }

  lemma KeptOneMore(lines: seq<string>, i: nat, section: string)
    requires i < |lines|
    ensures Kept(lines[..i + 1], section) ==
            if InTarget(lines[..i + 1], section) then Kept(lines[..i], section)
            else Kept(lines[..i], section) + [lines[i]]
  {
    assert lines[..i + 1][..i] == lines[..i];
  }

  lemma UnlinesOneMore(lines: seq<string>, line: string)
    ensures Unlines(lines + [line]) == Unlines(lines) + line + [LF]
  {
    BackOfSnoc(lines, line);
  }

  lemma BlockIs(before: string, section: string, desired: string)
    ensures var all := before + ([LF] + section + [LF] + desired + [LF]);
            before + "" + [LF] + section + [LF] + desired + [LF] == all && Contains(all, section)
  {
    var all := before + ([LF] + section + [LF] + desired + [LF]);
    assert section <= all[|before| + 1..];
  }

  lemma UnlinesEnd(lines: seq<string>, section: string, desired: string)
    ensures Unlines(lines + ["", section, desired]) == Unlines(lines) + ([LF] + section + [LF] + desired + [LF])
    ensures Contains(Unlines(lines + ["", section, desired]), section)
  {
    UnlinesOneMore(lines, "");
    UnlinesOneMore(lines + [""], section);
    UnlinesOneMore(lines + [""] + [section], desired);
    assert lines + [""] + [section] + [desired] == lines + ["", section, desired];
    BlockIs(Unlines(lines), section, desired);
  }

  /** The rewrite as the daemon runs it. */
  method RewriteFile(existing: string, section: string, desired: string) returns (content: string)
    ensures content == Rewrite(existing, section, desired)
  {
    content := "";
    var inTargetSection := false;
    var lines := Lines(existing);
    for i := 0 to |lines|
      invariant inTargetSection == InTarget(lines[..i], section)
      invariant content == Unlines(Kept(lines[..i], section))
    {
      var line := lines[i];
      ghost var upTo := lines[..i + 1];
      assert upTo[..i] == lines[..i] && upTo[i] == line;
      var trimmed := TrimEnd(line);
      if "[" <= trimmed {
        inTargetSection := trimmed == section;
      }
      KeptOneMore(lines, i, section);
      if !inTargetSection {
        UnlinesOneMore(Kept(lines[..i], section), line);
        content := content + line;
        content := content + [LF];
      }
    }
    assert lines[..|lines|] == lines;
    if content != "" && content[|content| - 1] != LF {
      content := content + [LF];
    }
    UnlinesEnd(Kept(lines, section), section, desired);
    content := content + ([LF] + section + [LF] + desired + [LF]);
  }

  lemma {:induction false} LfAt(line: string, rest: string)
    requires LF !in line
    ensures FirstLf(line + [LF] + rest) == |line|
  {
    if line != "" {
      assert (line + [LF] + rest)[1..] == line[1..] + [LF] + rest;
      LfAt(line[1..], rest);
    }
  }

  lemma OneMoreLine(line: string, rest: string)
    requires LF !in line
    ensures Lines(line + [LF] + rest) == [StripCr(line)] + Lines(rest)
  {
    LfAt(line, rest);
    var text := line + [LF] + rest;
    assert text[..|line|] == line && text[|line| + 1..] == rest;
  }

  /** A line ends at a line feed, with one carriage return before it if there is one; the last may end at neither. */
  lemma LinesAre(line: string, rest: string)
    requires LF !in line
    ensures Lines(line + [CR] + [LF] + rest) == [line] + Lines(rest)
    ensures (line == "" || line[|line| - 1] != CR) ==> Lines(line + [LF] + rest) == [line] + Lines(rest)
    ensures Lines(line) == if line == "" then [] else [line]
  {
    OneMoreLine(line + [CR], rest);
    OneMoreLine(line, rest);
  }

  lemma UnlinesLast(lines: seq<string>, rest: string)
    requires lines != []
    ensures var n := |lines| - 1; Unlines(lines) + rest == Unlines(lines[..n]) + (lines[n] + [LF] + rest)
  {
    var before, last := Unlines(lines[..|lines| - 1]), lines[|lines| - 1];
    Regroup(before, last, [LF]);
    Regroup(before, last + [LF], rest);
  }

  lemma StripLast(lines: seq<string>)
    requires lines != []
    ensures var n := |lines| - 1; StripAll(lines) == StripAll(lines[..n]) + [StripCr(lines[n])]
  {
  }

  lemma {:induction false} LinesOfUnlines(lines: seq<string>, rest: string)
    requires OneLiners(lines)
    ensures Lines(Unlines(lines) + rest) == StripAll(lines) + Lines(rest)
  {
    if lines == [] {
      assert Unlines(lines) + rest == rest;
    } else {
      var init, last := lines[..|lines| - 1], lines[|lines| - 1];
      LinesOfUnlines(init, last + [LF] + rest);
      OneMoreLine(last, rest);
      UnlinesLast(lines, rest);
      StripLast(lines);
      Regroup(StripAll(init), [StripCr(last)], Lines(rest));
    }
  }

  lemma {:induction false} KeptAre(lines: seq<string>, section: string)
    requires OneLiners(lines) && "[" <= section
    ensures var kept := Kept(lines, section);
            OneLiners(kept) && |kept| <= |lines| && forall i :: 0 <= i < |kept| ==> TrimEnd(kept[i]) != section
  {
    if lines != [] {
      KeptAre(lines[..|lines| - 1], section);
    }
  }

  /** Line `h` is the nearest header at or before line `i`. */
  predicate OpensFor(lines: seq<string>, i: nat, h: nat) {
    h <= i < |lines| && IsHeader(lines[h]) && forall j :: h < j <= i ==> !IsHeader(lines[j])
  }

  /** Line `i` is in no section, or in one whose header is not the device's. */
  ghost predicate IsForeign(lines: seq<string>, section: string, i: nat) {
    i < |lines| && forall h: nat :: OpensFor(lines, i, h) ==> TrimEnd(lines[h]) != section
  }

  lemma {:induction false} InTargetIs(lines: seq<string>, section: string, i: nat)
    requires i < |lines|
    ensures InTarget(lines[..i + 1], section) <==> !IsForeign(lines, section, i)
  {
    assert lines[..i + 1][..i] == lines[..i];
    if IsHeader(lines[i]) {
      assert OpensFor(lines, i, i);
      assert forall h: nat :: OpensFor(lines, i, h) ==> h == i;
    } else if i > 0 {
      InTargetIs(lines, section, i - 1);
      assert forall h: nat :: OpensFor(lines, i, h) <==> OpensFor(lines, i - 1, h);
    } else {
      assert forall h: nat :: OpensFor(lines, 0, h) ==> h == 0;
    }
  }

  /** `at` lists, in order, exactly the foreign lines among the first `n`. */
  ghost predicate ListsForeign(lines: seq<string>, section: string, n: nat, at: seq<nat>) {
    && (forall k, l :: 0 <= k < l < |at| ==> at[k] < at[l])
    && (forall i: nat :: i in at <==> i < n && IsForeign(lines, section, i))
  }

  lemma OneMoreForeign(lines: seq<string>, section: string, n: nat, at: seq<nat>)
    requires n < |lines| && ListsForeign(lines, section, n, at)
    ensures ListsForeign(lines, section, n + 1, if IsForeign(lines, section, n) then at + [n] else at)
  {
    hide IsForeign;
    assert forall k :: 0 <= k < |at| ==> at[k] in at;
  }

  function LinesAt(lines: seq<string>, at: seq<nat>): seq<string>
    requires forall k :: 0 <= k < |at| ==> at[k] < |lines|
  {
    seq(|at|, k requires 0 <= k < |at| => lines[at[k]])
  }

  lemma OneMoreLineAt(lines: seq<string>, at: seq<nat>, n: nat)
    requires n < |lines| && forall k :: 0 <= k < |at| ==> at[k] < |lines|
    ensures LinesAt(lines, at + [n]) == LinesAt(lines, at) + [lines[n]]
  {
  }

  lemma NoneUpTo(lines: seq<string>, section: string)
    ensures ListsForeign(lines, section, 0, []) && Kept(lines[..0], section) == LinesAt(lines, [])
  {
  }

  lemma {:induction false} KeptUpTo(lines: seq<string>, section: string, n: nat) returns (at: seq<nat>)
    requires n <= |lines|
    ensures ListsForeign(lines, section, n, at) && (forall k :: 0 <= k < |at| ==> at[k] < |lines|)
    ensures Kept(lines[..n], section) == LinesAt(lines, at)
  {
    hide IsForeign, InTarget, Kept, LinesAt, ListsForeign;
    at := [];
    NoneUpTo(lines, section);
    if n > 0 {
      at := KeptUpTo(lines, section, n - 1);
      KeptOneMore(lines, n - 1, section);
      InTargetIs(lines, section, n - 1);
      OneMoreForeign(lines, section, n - 1, at);
      if IsForeign(lines, section, n - 1) {
        OneMoreLineAt(lines, at, n - 1);
        at := at + [n - 1];
      }
    }
  }

  /**
   What is kept, by position: in order, exactly the lines whose nearest header above or on them, if there is one, is not
   the device's; so its section ends where any other begins.
   */
  lemma KeptByPosition(lines: seq<string>, section: string) returns (at: seq<nat>)
    ensures ListsForeign(lines, section, |lines|, at) && (forall k :: 0 <= k < |at| ==> at[k] < |lines|)
    ensures Kept(lines, section) == LinesAt(lines, at)
  {
    at := KeptUpTo(lines, section, |lines|);
    assert lines[..|lines|] == lines;
  }

  lemma {:induction false} TargetOfTail(a: seq<string>, b: seq<string>, section: string)
    requires b != [] && IsHeader(b[0])
    ensures InTarget(a + b, section) == InTarget(b, section)
  {
    BackOfConcat(a, b);
    if |b| > 1 {
      assert b[..|b| - 1][0] == b[0];
      TargetOfTail(a, b[..|b| - 1], section);
    }
  }

  /** From a header on, what is kept does not depend on what came before. */
  lemma {:induction false} KeptFromHeader(a: seq<string>, b: seq<string>, section: string)
    requires b != [] ==> IsHeader(b[0])
    ensures Kept(a + b, section) == Kept(a, section) + Kept(b, section)
  {
    if b == [] {
      NothingAdded(a);
      NothingAdded(Kept(a, section));
    } else {
      var init := b[..|b| - 1];
      BackOfConcat(a, b);
      TargetOfTail(a, b, section);
      KeptFromHeader(a, init, section);
      Regroup(Kept(a, section), Kept(init, section), [b[|b| - 1]]);
      NothingAdded(Kept(a, section) + Kept(init, section));
      NothingAdded(Kept(init, section));
    }
  }

  /** The value stands at `v`, below the header at `h` and above any other. */
  predicate SetsAt(lines: seq<string>, desired: string, h: int, v: int) {
    h < v < |lines| && 0 <= v && Trim(lines[v]) == desired
    && forall j :: h < j <= v && 0 <= j ==> !("[" <= Trim(lines[j]))
  }

  lemma {:induction false} BodySetsIs(lines: seq<string>, desired: string)
    ensures BodySets(lines, desired) <==> exists v :: SetsAt(lines, desired, -1, v)
  {
    if lines != [] {
      BodySetsIs(lines[1..], desired);
      if v :| SetsAt(lines[1..], desired, -1, v) && !("[" <= Trim(lines[0])) {
        forall j | 0 <= j <= v + 1 ensures !("[" <= Trim(lines[j])) {
          assert j > 0 ==> lines[j] == lines[1..][j - 1];
        }
        assert SetsAt(lines, desired, -1, v + 1);
      }
      if v :| SetsAt(lines, desired, -1, v) {
        if v > 0 {
          assert forall j :: 0 <= j <= v - 1 ==> lines[1..][j] == lines[j + 1];
          assert SetsAt(lines[1..], desired, -1, v - 1);
        }
      }
      if BodySets(lines, desired) && Trim(lines[0]) == desired {
        assert SetsAt(lines, desired, -1, 0);
      }
    }
  }

  /** Line `h` is the first to begin like the device's header, and the value stands below it. */
  ghost predicate SetBelow(lines: seq<string>, section: string, desired: string, h: nat) {
    h < |lines| && section <= TrimEnd(lines[h]) && (forall j :: 0 <= j < h ==> !(section <= TrimEnd(lines[j])))
    && exists v :: SetsAt(lines, desired, h, v)
  }

  lemma SetsBelowFirst(lines: seq<string>, desired: string, h: nat)
    requires h < |lines|
    ensures BodySets(lines[h + 1..], desired) <==> exists v :: SetsAt(lines, desired, h, v)
  {
    var rest := lines[h + 1..];
    BodySetsIs(rest, desired);
    if v :| SetsAt(rest, desired, -1, v) {
      forall j | h < j <= v + h + 1 ensures !("[" <= Trim(lines[j])) {
        assert lines[j] == rest[j - h - 1];
      }
      assert SetsAt(lines, desired, h, v + h + 1);
    }
    if v :| SetsAt(lines, desired, h, v) {
      forall j | 0 <= j <= v - h - 1 ensures !("[" <= Trim(rest[j])) {
        assert rest[j] == lines[j + h + 1];
      }
      assert SetsAt(rest, desired, -1, v - h - 1);
    }
  }

  lemma {:induction false} CheckFrom(lines: seq<string>, section: string, desired: string, from: nat)
    requires from <= |lines| && forall j :: 0 <= j < from ==> !(section <= TrimEnd(lines[j]))
    ensures FirstSets(lines[from..], section, desired) <==> exists h: nat :: SetBelow(lines, section, desired, h)
    decreases |lines| - from
  {
    if from < |lines| {
      assert lines[from..][0] == lines[from] && lines[from..][1..] == lines[from + 1..];
      if Opens(lines[from], section) {
        SetsBelowFirst(lines, desired, from);
        assert forall h: nat :: SetBelow(lines, section, desired, h) ==> h == from;
        assert SetBelow(lines, section, desired, from) <==> BodySets(lines[from + 1..], desired);
      } else {
        CheckFrom(lines, section, desired, from + 1);
      }
    }
  }

  lemma FirstLine(text: string)
    requires Lines(text) != []
    ensures var n := FirstLf(text);
            && Lines(text)[0] <= text
            && if n == |text| then |Lines(text)| == 1 else Lines(text)[1..] == Lines(text[n + 1..])
  {
    hide Lines, FirstLf, StripCr;
    var n := FirstLf(text);
    LinesBegin(text);
    if n < |text| {
      StripIsPrefix(text[..n]);
      FrontOfCons(StripCr(text[..n]), Lines(text[n + 1..]));
    }
  }

  lemma LinesBegin(text: string)
    ensures var n := FirstLf(text);
            Lines(text) == if text == "" then [] else if n == |text| then [text]
                           else [StripCr(text[..n])] + Lines(text[n + 1..])
  {
    hide FirstLf, StripCr;
  }

  lemma StripIsPrefix(line: string)
    ensures StripCr(line) <= line
  {
  }

  lemma ContainsLater(text: string, from: nat, part: string)
    requires from <= |text| && Contains(text[from..], part)
    ensures Contains(text, part)
  {
    var k :| 0 <= k <= |text[from..]| && part <= text[from..][k..];
    assert text[from + k..] == text[from..][k..];
  }

  /** What a line begins with is in the text. */
  lemma {:induction false} BeginningIsIn(text: string, i: nat, part: string)
    requires i < |Lines(text)| && part <= Lines(text)[i]
    ensures Contains(text, part)
    decreases |text|
  {
    hide Lines, FirstLf;
    FirstLine(text);
    if i == 0 {
      assert text[0..] == text;
    } else {
      var n := FirstLf(text);
      assert Lines(text)[i] == Lines(text[n + 1..])[i - 1];
      BeginningIsIn(text[n + 1..], i - 1, part);
      ContainsLater(text, n + 1, part);
    }
  }

  /**
   The check, by position: the value stands below the first line that begins like the header, and above the next one.
   That the header is in the text at all need not be looked for.
   */
  lemma CheckByPosition(text: string, section: string, desired: string)
    ensures AlreadyAssociated(text, section, desired) <==> exists h: nat :: SetBelow(Lines(text), section, desired, h)
  {
    var lines := Lines(text);
    assert lines[0..] == lines;
    CheckFrom(lines, section, desired, 0);
    if h: nat :| SetBelow(lines, section, desired, h) {
      BeginningIsIn(text, h, section);
    }
  }

  predicate EndsInCr(line: string) {
    line != "" && line[|line| - 1] == CR
  }

  lemma StripNothing(lines: seq<string>)
    ensures StripAll(lines) == lines <==> forall i :: 0 <= i < |lines| ==> !EndsInCr(lines[i])
  {
    if StripAll(lines) == lines {
      forall i | 0 <= i < |lines| ensures !EndsInCr(lines[i]) {
        assert StripAll(lines)[i] == lines[i];
      }
    }
  }

  /**
   The rewritten file has the lines outside the device's section, in order, then an empty one, the section and the
   value; and those lines are as they were if and only if none ended in a carriage return of its own, which it loses.
   */
  lemma LinesOfRewrite(text: string, device: string, output: string)
    requires LF !in device && LF !in output
    ensures var section, desired := Section(device), Desired(output);
            var kept, lines := Kept(Lines(text), section), Lines(Rewrite(text, section, desired));
            && lines == StripAll(kept) +
                 ["", "[Libinput][19794][19524][" + device + "]", StripCr("output=Virtual-" + output)]
            && (lines[..|kept|] == kept <==> forall i :: 0 <= i < |kept| ==> !EndsInCr(kept[i]))
  {
    var section, desired := Section(device), Desired(output);
    var kept := Kept(Lines(text), section);
    KeptAre(Lines(text), section);
    assert StripCr(section) == section;
    LinesOfBlock(kept, section, desired);
    StripNothing(kept);
    CutWithin(StripAll(kept), ["", section, StripCr(desired)], |kept|);
    assert StripAll(kept)[..|kept|] == StripAll(kept);
  }

  lemma StripConcat(a: seq<string>, b: seq<string>)
    ensures StripAll(a + b) == StripAll(a) + StripAll(b)
  {
  }

  lemma StripBlock(section: string, desired: string)
    ensures StripAll(["", section, desired]) == ["", StripCr(section), StripCr(desired)]
  {
  }

  lemma LinesOfBlock(kept: seq<string>, section: string, desired: string)
    requires OneLiners(kept) && LF !in section && LF !in desired
    ensures Lines(Unlines(kept + ["", section, desired])) == StripAll(kept) + ["", StripCr(section), StripCr(desired)]
  {
    var all := kept + ["", section, desired];
    assert OneLiners(all);
    LinesOfUnlines(all, "");
    NothingAdded(Unlines(all));
    NothingAdded(StripAll(all));
    StripConcat(kept, ["", section, desired]);
    StripBlock(section, desired);
  }

  lemma StripKeepsTrim(line: string)
    ensures TrimEnd(StripCr(line)) == TrimEnd(line) && Trim(StripCr(line)) == Trim(line)
  {
  }

  lemma {:induction false} BodySetsBefore(lines: seq<string>, section: string, value: string, desired: string)
    requires "[" <= Trim(section) && desired != ""
    ensures BodySets(StripAll(lines) + ["", section, value], desired) <==> BodySets(lines, desired)
  {
    var all := StripAll(lines) + ["", section, value];
    if lines == [] {
      assert all[1..][0] == section;
    } else {
      StripKeepsTrim(lines[0]);
      assert all[1..] == StripAll(lines[1..]) + ["", section, value];
      BodySetsBefore(lines[1..], section, value, desired);
    }
  }

  predicate SomeOpens(lines: seq<string>, section: string) {
    exists i :: 0 <= i < |lines| && Opens(lines[i], section)
  }

  lemma {:induction false} FirstSetsBefore(lines: seq<string>, section: string, value: string, desired: string)
    requires "[" <= Trim(section) && desired != ""
    ensures var tail := ["", section, value];
            FirstSets(StripAll(lines) + tail, section, desired) <==>
            if SomeOpens(lines, section) then FirstSets(lines, section, desired) else FirstSets(tail, section, desired)
  {
    var tail := ["", section, value];
    var all := StripAll(lines) + tail;
    if lines == [] {
      assert all == tail;
    } else {
      StripKeepsTrim(lines[0]);
      assert all[0] == StripCr(lines[0]) && all[1..] == StripAll(lines[1..]) + tail;
      if Opens(lines[0], section) {
        BodySetsBefore(lines[1..], section, value, desired);
      } else {
        FirstSetsBefore(lines[1..], section, value, desired);
        if SomeOpens(lines, section) {
          var i :| 0 <= i < |lines| && Opens(lines[i], section);
          assert lines[1..][i - 1] == lines[i];
        }
      }
    }
  }

  predicate EndsInSpace(s: string) {
    s != "" && IsWhitespace(s[|s| - 1])
  }

  lemma ValueIsRead(device: string, output: string)
    ensures var section, desired := Section(device), Desired(output);
            && "[" <= Trim(section)
            && (FirstSets(["", section, StripCr(desired)], section, desired) <==> !EndsInSpace(output))
  {
    var section, desired := Section(device), Desired(output);
    var tail := ["", section, StripCr(desired)];
    assert TrimEnd(section) == section == Trim(section);
    StripKeepsTrim(desired);
    TrimOfDesired(output);
    assert tail[1..] == [section, StripCr(desired)] && tail[1..][1..] == [StripCr(desired)];
    assert Opens(tail[1..][0], section);
    assert !Opens("", section);
    BodyOfOne(StripCr(desired), desired);
  }

  lemma BodyOfOne(line: string, desired: string)
    ensures BodySets([line], desired) <==> !("[" <= Trim(line)) && Trim(line) == desired
  {
    assert [line][1..] == [];
  }

  lemma TrimOfDesired(output: string)
    ensures var desired := Desired(output);
            (Trim(desired) == desired <==> !EndsInSpace(output)) && Trim(desired) != "" && Trim(desired)[0] == 'o'
  {
    var desired := Desired(output);
    KeepsFirst(desired);
    assert desired[|desired| - 1] == if output == "" then '-' else output[|output| - 1];
  }

  lemma {:induction false} KeepsFirst(s: string)
    requires s != "" && !IsWhitespace(s[0])
    ensures TrimEnd(s) != "" && TrimEnd(s)[0] == s[0] && Trim(s) == TrimEnd(s)
  {
    if IsWhitespace(s[|s| - 1]) {
      KeepsFirst(s[..|s| - 1]);
    }
  }

  /**
   After the rewrite the check finds the association if and only if either some line outside the section begins like
   its header and the value stands below the first such line, or none does and the output's name does not end in white
   space.
   */
  lemma RewriteTakesHold(text: string, device: string, output: string)
    requires LF !in device && LF !in output
    ensures var section, desired := Section(device), Desired(output);
            var kept := Kept(Lines(text), section);
            AlreadyAssociated(Rewrite(text, section, desired), section, desired) <==>
            if SomeOpens(kept, section) then FirstSets(kept, section, desired) else !EndsInSpace(output)
  {
    var section, desired := Section(device), Desired(output);
    var kept := Kept(Lines(text), section);
    LinesOfRewrite(text, device, output);
    ValueIsRead(device, output);
    FirstSetsBefore(kept, section, StripCr(desired), desired);
    UnlinesEnd(kept, section, desired);
  }

  lemma {:induction false} KeepsAll(lines: seq<string>, section: string)
    requires forall i :: 0 <= i < |lines| ==> TrimEnd(lines[i]) != section
    ensures Kept(lines, section) == lines && !InTarget(lines, section)
  {
    if lines != [] {
      KeepsAll(lines[..|lines| - 1], section);
      SplitBack(lines);
    }
  }

  lemma DropsOwnBlock(lines: seq<string>, section: string, value: string)
    requires forall i :: 0 <= i < |lines| ==> TrimEnd(lines[i]) != section
    requires "[" <= section && TrimEnd(section) == section && !IsHeader(value)
    ensures Kept(lines + ["", section, value], section) == lines + [""]
  {
    var blank := lines + [""];
    KeepsAll(blank, section);
    var header := blank + [section];
    assert header[..|blank|] == blank;
    var all := header + [value];
    assert all[..|header|] == header;
    assert all == lines + ["", section, value];
  }

  /** Rewriting a rewritten file drops the old block but keeps the empty line before it. */
  lemma KeptOfRewrite(text: string, device: string, output: string)
    requires LF !in device && LF !in output
    ensures var section, desired := Section(device), Desired(output);
            Kept(Lines(Rewrite(text, section, desired)), section) == StripAll(Kept(Lines(text), section)) + [""]
  {
    var section, desired := Section(device), Desired(output);
    var kept := Kept(Lines(text), section);
    KeptAre(Lines(text), section);
    LinesOfRewrite(text, device, output);
    var stripped := StripAll(kept);
    forall i | 0 <= i < |stripped| ensures TrimEnd(stripped[i]) != section {
      StripKeepsTrim(kept[i]);
    }
    StripKeepsTrim(desired);
    KeepsFirst(desired);
    DropsOwnBlock(stripped, section, StripCr(desired));
  }

  lemma {:induction false} BodyThenBlank(lines: seq<string>, desired: string)
    requires desired != ""
    ensures BodySets(StripAll(lines) + [""], desired) <==> BodySets(lines, desired)
  {
    var all := StripAll(lines) + [""];
    if lines == [] {
      assert all == [""] && all[1..] == [];
    } else {
      StripKeepsTrim(lines[0]);
      assert all[1..] == StripAll(lines[1..]) + [""];
      BodyThenBlank(lines[1..], desired);
    }
  }

  lemma {:induction false} FirstThenBlank(lines: seq<string>, section: string, desired: string)
    requires section != "" && desired != ""
    ensures FirstSets(StripAll(lines) + [""], section, desired) <==> FirstSets(lines, section, desired)
  {
    var all := StripAll(lines) + [""];
    if lines == [] {
      assert all == [""] && all[1..] == [];
    } else {
      StripKeepsTrim(lines[0]);
      assert all[0] == StripCr(lines[0]) && all[1..] == StripAll(lines[1..]) + [""];
      if Opens(lines[0], section) {
        BodyThenBlank(lines[1..], desired);
      } else {
        FirstThenBlank(lines[1..], section, desired);
      }
    }
  }

  lemma OpensThenBlank(lines: seq<string>, section: string)
    requires section != ""
    ensures SomeOpens(StripAll(lines) + [""], section) <==> SomeOpens(lines, section)
  {
    var all := StripAll(lines) + [""];
    forall i | 0 <= i < |lines| ensures Opens(all[i], section) <==> Opens(lines[i], section) {
      StripKeepsTrim(lines[i]);
    }
    if SomeOpens(lines, section) {
      var i :| 0 <= i < |lines| && Opens(lines[i], section);
      assert Opens(all[i], section);
    }
  }

  /** A rewrite that did not take hold never will: the next one meets the same lines. */
  lemma RewriteTwice(text: string, device: string, output: string)
    requires LF !in device && LF !in output
    ensures var section, desired := Section(device), Desired(output);
            var once := Rewrite(text, section, desired);
            var twice := Rewrite(once, section, desired);
            && |Lines(twice)| == |Lines(once)| + 1
            && (AlreadyAssociated(twice, section, desired) <==> AlreadyAssociated(once, section, desired))
  {
    var section, desired := Section(device), Desired(output);
    var once := Rewrite(text, section, desired);
    var kept := Kept(Lines(text), section);
    LinesOfRewrite(text, device, output);
    LinesOfRewrite(once, device, output);
    KeptOfRewrite(text, device, output);
    RewriteTakesHold(text, device, output);
    RewriteTakesHold(once, device, output);
    OpensThenBlank(kept, section);
    FirstThenBlank(kept, section, desired);
  }

  /** The file after `n` starts of the daemon. */
  function AfterStarts(text: string, section: string, desired: string, n: nat): string {
    if n == 0 then text else Associate(AfterStarts(text, section, desired, n - 1), section, desired)
  }

  lemma {:induction false} NeverSettles(text: string, device: string, output: string, n: nat)
    requires LF !in device && LF !in output
    requires !AlreadyAssociated(Associate(text, Section(device), Desired(output)), Section(device), Desired(output))
    ensures var section, desired := Section(device), Desired(output);
            var once, last := Associate(text, section, desired), AfterStarts(text, section, desired, n + 1);
            && last == Rewrite(AfterStarts(text, section, desired, n), section, desired)
            && !AlreadyAssociated(last, section, desired)
            && |Lines(last)| == |Lines(once)| + n
  {
    if n > 0 {
      NeverSettles(text, device, output, n - 1);
      RewriteTwice(AfterStarts(text, Section(device), Desired(output), n - 1), device, output);
    }
  }

  lemma {:induction false} StaysSettled(text: string, section: string, desired: string, n: nat)
    requires AlreadyAssociated(Associate(text, section, desired), section, desired)
    ensures AfterStarts(text, section, desired, n + 1) == Associate(text, section, desired)
  {
    if n > 0 {
      StaysSettled(text, section, desired, n - 1);
    }
  }

  /**
   The file is settled by the first start of the daemon if that made the check true: no later start changes it. If it
   did not, every start rewrites the file, and leaves it one line longer.
   */
  lemma AssociateSettles(text: string, device: string, output: string, n: nat)
    requires LF !in device && LF !in output
    ensures var section, desired := Section(device), Desired(output);
            var once, last := Associate(text, section, desired), AfterStarts(text, section, desired, n + 1);
            && (AlreadyAssociated(once, section, desired) ==> last == once)
            && (!AlreadyAssociated(once, section, desired) ==> |Lines(last)| == |Lines(once)| + n)
            && (Associate(once, section, desired) == once <==> AlreadyAssociated(once, section, desired))
  {
    var section, desired := Section(device), Desired(output);
    if AlreadyAssociated(Associate(text, section, desired), section, desired) {
      StaysSettled(text, section, desired, n);
    } else {
      NeverSettles(text, device, output, n);
      NeverSettles(text, device, output, 0);
      NeverSettles(text, device, output, 1);
    }
  }

  /** One file rewritten at every start, whatever the names: a line that goes on after the device's header. */
  lemma LongerHeaderNeverSettles(device: string, output: string)
    requires LF !in device && LF !in output
    ensures var section, desired := Section(device), Desired(output);
            !AlreadyAssociated(Associate(section + "x", section, desired), section, desired)
  {
    var section, desired := Section(device), Desired(output);
    var text := section + "x";
    assert LF !in text;
    assert Lines(text) == [text];
    assert TrimEnd(text) == text && Opens(text, section);
    KeepsAll([text], section);
    assert [text][1..] == [];
    assert !FirstSets([text], section, desired);
    assert SomeOpens([text], section) by {
      assert Opens([text][0], section);
    }
    RewriteTakesHold(text, device, output);
  }

  /** Another, the empty one: for an output whose name ends in white space. */
  lemma TrailingSpaceNeverSettles(device: string, output: string)
    requires LF !in device && LF !in output && EndsInSpace(output)
    ensures var section, desired := Section(device), Desired(output);
            !AlreadyAssociated(Associate("", section, desired), section, desired)
  {
    RewriteTakesHold("", device, output);
  }
}
