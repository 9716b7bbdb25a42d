/**
 Printing a string as a Lua literal (crates/daemon/src/output.rs), and reading one by the rules for short literal
 strings in section 3.1 of the Lua 5.4 Reference Manual.
 */
module LuaString {
  import opened Sequences
  import opened Wrappers

  const QUOTE: char := '\"'
  const BACKSLASH: char := '\\'

  function Escape(c: char): string {
    if c == BACKSLASH then [BACKSLASH, BACKSLASH]
    else if c == QUOTE then [BACKSLASH, QUOTE]
    else if c == '\n' then [BACKSLASH, 'n']
    else if c == '\r' then [BACKSLASH, 'r']
    else if c == '\t' then [BACKSLASH, 't']
    else [c]
  }

  function EscapeAll(s: string): string {
    if s == "" then "" else Escape(s[0]) + EscapeAll(s[1..])
  }

  method Print(value: string) returns (escaped: string)
    ensures escaped == [QUOTE] + EscapeAll(value) + [QUOTE]
  {
    escaped := [QUOTE];
    ghost var whole := [QUOTE] + EscapeAll(value);
    for i := 0 to |value|
      invariant escaped + EscapeAll(value[i..]) == whole
    {
      var c := value[i];
      assert value[i..][0] == c && value[i..][1..] == value[i + 1..];
      assert escaped + EscapeAll(value[i..]) == escaped + Escape(c) + EscapeAll(value[i + 1..]);
      if c == BACKSLASH {
        escaped := escaped + [BACKSLASH, BACKSLASH];
      } else if c == QUOTE {
        escaped := escaped + [BACKSLASH, QUOTE];
      } else if c == '\n' {
        escaped := escaped + [BACKSLASH, 'n'];
      } else if c == '\r' {
        escaped := escaped + [BACKSLASH, 'r'];
      } else if c == '\t' {
        escaped := escaped + [BACKSLASH, 't'];
      } else {
        escaped := escaped + [c];
      }
    }
    escaped := escaped + [QUOTE];
  }

  predicate IsDigit(c: char) {
    '0' <= c <= '9'
  }

  function HexValue(c: char): Option<nat> {
    if '0' <= c <= '9' then Some(c as nat - '0' as nat)
    else if 'a' <= c <= 'f' then Some(c as nat - 'a' as nat + 10)
    else if 'A' <= c <= 'F' then Some(c as nat - 'A' as nat + 10)
    else None
  }

  predicate IsSpace(c: char) {
    c == ' ' || '\t' <= c <= '\r'
  }

  function SkipSpaces(t: string): (rest: string)
    ensures |rest| <= |t|
  {
    if t != "" && IsSpace(t[0]) then SkipSpaces(t[1..]) else t
  }

  /** The length of the run of at most `most` decimal digits at the front. */
  function Digits(t: string, most: nat): (n: nat)
    ensures n <= |t| && n <= most
  {
    if most == 0 || t == "" || !IsDigit(t[0]) then 0 else 1 + Digits(t[1..], most - 1)
  }

  function Decimal(t: string): nat
    requires forall i :: 0 <= i < |t| ==> IsDigit(t[i])
  {
    if t == "" then 0 else
    assert IsDigit(t[|t| - 1]);
    Decimal(t[..|t| - 1]) * 10 + (t[|t| - 1] as nat - '0' as nat)
  }

  lemma DigitsAre(t: string, most: nat)
    ensures forall i :: 0 <= i < Digits(t, most) ==> IsDigit(t[i])
  {
    if !(most == 0 || t == "" || !IsDigit(t[0])) {
      DigitsAre(t[1..], most - 1);
      forall i | 0 <= i < Digits(t, most) ensures IsDigit(t[i]) {
        if i > 0 {
          assert t[i] == t[1..][i - 1];
        }
      }
    }
  }

  /** A code point written in hexadecimal up to the closing brace. */
  function Hexadecimal(t: string, sofar: nat): (r: Option<(nat, string)>)
    ensures r.Some? ==> |r.value.1| < |t|
  {
    if t == "" then None
    else if t[0] == '}' then Some((sofar, t[1..]))
    else match HexValue(t[0])
         case Some(v) => Hexadecimal(t[1..], sofar * 16 + v)
         case None => None
  }

  predicate IsCodePoint(x: nat) {
    x < 0xD800 || 0xE000 <= x < 0x11_0000
  }

  /** What an escape sequence stands for, given what follows its backslash, and what follows the sequence. */
  function ReadEscape(t: string): (r: Option<(string, string)>)
    ensures r.Some? ==> |r.value.1| <= |t|
  {
    if t == "" then None
    else if t[0] == 'a' then Some((['\U{7}'], t[1..]))
    else if t[0] == 'b' then Some((['\U{8}'], t[1..]))
    else if t[0] == 'f' then Some((['\U{C}'], t[1..]))
    else if t[0] == 'n' then Some((['\n'], t[1..]))
    else if t[0] == 'r' then Some((['\r'], t[1..]))
    else if t[0] == 't' then Some((['\t'], t[1..]))
    else if t[0] == 'v' then Some((['\U{B}'], t[1..]))
    else if t[0] == BACKSLASH || t[0] == QUOTE || t[0] == '\'' then Some(([t[0]], t[1..]))
    else if t[0] == '\n' || t[0] == '\r' then
      // A line break, of one or of two different characters, stands for a newline.
      var pair := |t| > 1 && (t[1] == '\n' || t[1] == '\r') && t[1] != t[0];
      Some((['\n'], if pair then t[2..] else t[1..]))
    else if t[0] == 'z' then Some(("", SkipSpaces(t[1..])))
    else if t[0] == 'x' then
      if |t| < 3 || HexValue(t[1]) == None || HexValue(t[2]) == None then None
      else
        var code := HexValue(t[1]).value * 16 + HexValue(t[2]).value;
        if IsCodePoint(code) then Some(([code as char], t[3..])) else None
    else if IsDigit(t[0]) then
      var n := Digits(t, 3);
      DigitsAre(t, 3);
      var code := Decimal(t[..n]);
      if code < 256 then Some(([code as char], t[n..])) else None
    else if t[0] == 'u' && |t| > 2 && t[1] == '{' && HexValue(t[2]).Some? then
      match Hexadecimal(t[2..], 0)
      case Some((code, rest)) => if IsCodePoint(code) then Some(([code as char], rest)) else None
      case None => None
    else None
  }

  /** The string a literal denotes from after its opening quote on, and the text after its closing quote. */
  function ReadBody(t: string): (r: Option<(string, string)>)
    decreases |t|
  {
    if t == "" || t[0] == '\n' || t[0] == '\r' then None
    else if t[0] == QUOTE then Some(("", t[1..]))
    else if t[0] == BACKSLASH then
      match ReadEscape(t[1..])
      case None => None
      case Some((head, rest)) => Prepend(head, ReadBody(rest))
    else Prepend([t[0]], ReadBody(t[1..]))
  }

  function Prepend(head: string, r: Option<(string, string)>): Option<(string, string)> {
    match r
    case None => None
    case Some((s, rest)) => Some((head + s, rest))
  }

  /** A literal in double quotes at the front of a text. */
  function Read(t: string): Option<(string, string)> {
    if t == "" || t[0] != QUOTE then None else ReadBody(t[1..])
  }

  lemma ReadOne(c: char, tail: string)
    ensures ReadBody(Escape(c) + tail) == Prepend([c], ReadBody(tail))
  {
    var t := Escape(c) + tail;
    if |Escape(c)| == 1 {
      assert t[1..] == tail;
    } else {
      assert t[1..][0] == Escape(c)[1] && t[1..][1..] == tail;
    }
  }

  lemma {:induction false} ReadAll(s: string, tail: string)
    ensures ReadBody(EscapeAll(s) + [QUOTE] + tail) == Some((s, tail))
  {
    if s == "" {
      NothingAdded([QUOTE]);
      FrontOfConcat([QUOTE], tail);
      NothingAdded(tail);
    } else {
      var after := EscapeAll(s[1..]);
      Regroup(Escape(s[0]), after, [QUOTE]);
      Regroup(Escape(s[0]), after + [QUOTE], tail);
      ReadOne(s[0], after + [QUOTE] + tail);
      ReadAll(s[1..], tail);
      assert s == [s[0]] + s[1..];
    }
  }

  /** Whatever text follows it, the literal printed for a string is read back as that string and ends where it ended. */
  lemma PrintedReadsBack(s: string, tail: string)
    ensures Read([QUOTE] + EscapeAll(s) + [QUOTE] + tail) == Some((s, tail))
  {
    var body := EscapeAll(s) + [QUOTE];
    Regroup([QUOTE], EscapeAll(s), [QUOTE]);
    Regroup([QUOTE], body, tail);
    FrontOfConcat([QUOTE], body + tail);
    NothingAdded(body + tail);
    ReadAll(s, tail);
  }
}
