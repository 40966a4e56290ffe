/** The parts of Python's `str` that the scraper relies on, over
    `string` = `seq<char>` (one `char` per Unicode code point, as in
    Python's `len`). */
module PyStr {
  import opened PyBase

  /** Python's `str.isspace()` for a single character. */
  predicate IsSpace(c: char) {
    || c == ' '
    || ('\t' <= c <= '\r')                 // \t \n \v \f \r
    || ('\U{1C}' <= c <= '\U{1F}')         // file, group, record, unit separators
    || c == '\U{85}' || c == '\U{A0}' || c == '\U{1680}'
    || ('\U{2000}' <= c <= '\U{200A}')
    || c == '\U{2028}' || c == '\U{2029}' || c == '\U{202F}'
    || c == '\U{205F}' || c == '\U{3000}'
  }

  /** Every character of `s` is whitespace (vacuously so for ""). */
  predicate AllSpace(s: string) {
    forall i :: 0 <= i < |s| ==> IsSpace(s[i])
  }

  /** `s.lstrip()`. */
  function LStrip(s: string): (r: string)
    ensures |r| <= |s| && r == s[|s| - |r|..]
    ensures AllSpace(s[..|s| - |r|])
    ensures r != [] ==> !IsSpace(r[0])
  {
    if s != [] && IsSpace(s[0]) then
      var r := LStrip(s[1..]);
      assert s[..|s| - |r|] == [s[0]] + s[1..][..|s| - 1 - |r|];
      r
    else s
  }

  /** `s.rstrip()`. */
  function RStrip(s: string): (r: string)
    ensures |r| <= |s| && r == s[..|r|]
    ensures AllSpace(s[|r|..])
    ensures r != [] ==> !IsSpace(r[|r| - 1])
  {
    if s != [] && IsSpace(s[|s| - 1]) then
      var r := RStrip(s[..|s| - 1]);
      assert s[|r|..] == s[..|s| - 1][|r|..] + [s[|s| - 1]];
      r
    else s
  }

  /** `s.strip()`: the text between the leading and trailing whitespace. */
  function Strip(s: string): string {
    RStrip(LStrip(s))
  }

  /** `not s.strip()` holds exactly when the string is whitespace only. */
  lemma StripEmptyIff(s: string)
    ensures Strip(s) == "" <==> AllSpace(s)
  {
    var l := LStrip(s);
    if Strip(s) == "" {
      assert l[|Strip(s)|..] == l;
      assert l == [];  // a non-empty lstripped string starts with a non-space
      assert s[..|s|] == s;
    } else {
      assert l != [] && !IsSpace(l[0]);
      assert s[|s| - |l|] == l[0];
    }
  }

  /** `p` occurs in `s` starting at index `i`. */
  predicate OccursAt(s: string, p: string, i: int) {
    0 <= i && i + |p| <= |s| && s[i..i + |p|] == p
  }

  /** Python's `p in s`. */
  predicate Contains(s: string, p: string) {
    exists i :: 0 <= i <= |s| && OccursAt(s, p, i)
  }

  /** The first occurrence of `p` in `s` at or after index `i`. */
  function FindFrom(s: string, p: string, i: nat): (r: Option<nat>)
    requires i <= |s|
    ensures r.Some? ==> i <= r.value && OccursAt(s, p, r.value)
    ensures r.Some? ==> forall j :: i <= j < r.value ==> !OccursAt(s, p, j)
    ensures r.None? ==> forall j :: i <= j ==> !OccursAt(s, p, j)
    decreases |s| - i
  {
    if i + |p| > |s| then None
    else if OccursAt(s, p, i) then Some(i)
    else FindFrom(s, p, i + 1)
  }

  /** `s.find(p)`, with `None` for Python's -1. */
  function Find(s: string, p: string): (r: Option<nat>)
    ensures r.Some? ==> OccursAt(s, p, r.value)
    ensures r.None? ==> forall j :: 0 <= j ==> !OccursAt(s, p, j)
    ensures r.Some? ==> forall j :: 0 <= j < r.value ==> !OccursAt(s, p, j)
  {
    FindFrom(s, p, 0)
  }

  /** `Find` fails exactly when `p in s` is false. */
  lemma FindContains(s: string, p: string)
    ensures Find(s, p).Some? <==> Contains(s, p)
  {
  }

  /** `s.split(sep)` for a non-empty separator (Python raises
      `ValueError` for an empty one; callers model that). */
  function Split(s: string, sep: string): (r: seq<string>)
    requires sep != ""
    ensures |r| >= 1
    decreases |s|
  {
    match Find(s, sep)
    case None => [s]
    case Some(k) => [s[..k]] + Split(s[k + |sep|..], sep)
  }

  /** The first piece of a split is everything before the first
      occurrence of the separator, or the whole string without one. */
  lemma SplitHead(s: string, sep: string)
    requires sep != ""
    ensures Find(s, sep).None? ==> Split(s, sep)[0] == s
    ensures Find(s, sep).Some? ==> Split(s, sep)[0] == s[..Find(s, sep).value]
  {
  }

  /** `sep.join(parts)`. */
  function Join(sep: string, parts: seq<string>): string {
    if |parts| == 0 then ""
    else if |parts| == 1 then parts[0]
    else parts[0] + sep + Join(sep, parts[1..])
  }

  /** Joining the pieces of a split with the same separator gives the
      string back. */
  lemma {:induction false} JoinSplit(s: string, sep: string)
    requires sep != ""
    ensures Join(sep, Split(s, sep)) == s
    decreases |s|
  {
    match Find(s, sep)
    case None =>
    case Some(k) =>
      var rest := s[k + |sep|..];
      var ps := Split(rest, sep);
      assert Split(s, sep) == [s[..k]] + ps;
      assert ([s[..k]] + ps)[1..] == ps;
      assert Join(sep, [s[..k]] + ps) == s[..k] + sep + Join(sep, ps);
      JoinSplit(rest, sep);
      assert s[k..k + |sep|] == sep;
      assert s == s[..k] + s[k..k + |sep|] + rest;
  }

  /** Splitting a join gives the parts back, provided the separator's
      first character occurs nowhere else: neither in a part nor later
      in the separator (true of ", " for comma-free parts). */
  lemma {:induction false} SplitJoin(parts: seq<string>, sep: string)
    requires sep != "" && |parts| >= 1
    requires sep[0] !in sep[1..]
    requires forall k :: 0 <= k < |parts| ==> sep[0] !in parts[k]
    ensures Split(Join(sep, parts), sep) == parts
    decreases |parts|
  {
    var s := Join(sep, parts);
    if |parts| == 1 {
      assert s == parts[0];
      assert !Contains(s, sep);
    } else {
      var a := parts[0];
      var rest := Join(sep, parts[1..]);
      assert s == a + sep + rest;
      assert OccursAt(s, sep, |a|) by { assert s[|a|..|a| + |sep|] == sep; }
      assert forall j :: 0 <= j < |a| ==> !OccursAt(s, sep, j);
      assert Find(s, sep) == Some(|a|) by {
        var f := Find(s, sep);
        assert f.Some?;
        assert !(f.value < |a|) && !(|a| < f.value);
      }
      assert s[..|a|] == a;
      assert s[|a| + |sep|..] == rest;
      SplitJoin(parts[1..], sep);
    }
  }

  /** The last element of a non-empty sequence. */
  function Last<T>(s: seq<T>): T
    requires |s| > 0
  {
    s[|s| - 1]
  }

  /** An occurrence in a suffix is an occurrence in the whole string. */
  lemma OccursInSuffix(s: string, p: string, off: nat, j: int)
    requires off <= |s| && OccursAt(s[off..], p, j)
    ensures OccursAt(s, p, off + j)
  {
    assert s[off..][j..j + |p|] == s[off + j..off + j + |p|];
  }

  /** One step of `Split`: the piece before the first separator, then
      the split of what follows it. */
  lemma SplitStep(s: string, sep: string, k: nat)
    requires sep != "" && Find(s, sep) == Some(k)
    ensures Last(Split(s, sep)) == Last(Split(s[k + |sep|..], sep))
  {
    var ps := Split(s[k + |sep|..], sep);
    assert Split(s, sep) == [s[..k]] + ps;
  }

  /** Without a separator, `Split` gives back the whole string. */
  lemma SplitNone(s: string, sep: string)
    requires sep != "" && Find(s, sep).None?
    ensures Split(s, sep) == [s]
  {
  }

  /** `r` is a suffix of `s`. */
  predicate IsSuffix(r: string, s: string) {
    |r| <= |s| && s[|s| - |r|..] == r
  }

  /** `s.split(sep)[-1]` is a suffix of `s`. */
  lemma {:induction false} LastPieceIsSuffix(s: string, sep: string)
    requires sep != ""
    ensures IsSuffix(Last(Split(s, sep)), s)
    decreases |s|
  {
    var f := Find(s, sep);
    if f.None? {
      SplitNone(s, sep);
      assert s[0..] == s;
    } else {
      var k := f.value;
      assert k + |sep| <= |s|;
      var rest := s[k + |sep|..];
      SplitStep(s, sep, k);
      assert |rest| < |s|;
      LastPieceIsSuffix(rest, sep);
      SuffixOfSuffix(s, k + |sep|, Last(Split(rest, sep)));
    }
  }

  /** `piece`, a suffix of `s`, is all of `s` or starts right after an
      occurrence of `sep`. */
  predicate FollowsSep(s: string, sep: string, piece: string) {
    |piece| <= |s| && (|piece| == |s| || OccursAt(s, sep, |s| - |piece| - |sep|))
  }

  /** `s.split(sep)[-1]` is all of `s` or starts right after an
      occurrence of `sep`. */
  lemma {:induction false} LastPieceAfterSep(s: string, sep: string)
    requires sep != ""
    ensures FollowsSep(s, sep, Last(Split(s, sep)))
    decreases |s|
  {
    if Find(s, sep).None? {
      SplitNone(s, sep);
      assert |Last(Split(s, sep))| == |s|;
    } else {
      var k := Find(s, sep).value;
      var rest := s[k + |sep|..];
      SplitStep(s, sep, k);
      LastPieceAfterSep(rest, sep);
      AfterSepStep(s, sep, k, rest, Last(Split(s, sep)), Last(Split(rest, sep)));
    }
  }

  /** The step of `LastPieceAfterSep`: the piece `last` ending `s` is the
      piece `r` ending the text after the occurrence at `k`; if `r`
      follows an occurrence in that text or is all of it, `last` follows
      an occurrence in `s`. */
  lemma AfterSepStep(s: string, sep: string, k: nat, rest: string, last: string, r: string)
    requires OccursAt(s, sep, k) && rest == s[k + |sep|..] && last == r
    requires FollowsSep(rest, sep, r)
    ensures FollowsSep(s, sep, last)
  {
    if |r| < |rest| {
      OccursInSuffix(s, sep, k + |sep|, |rest| - |r| - |sep|);
    }
  }

  /** `s.split(sep)[-1]` holds no occurrence of `sep`. */
  lemma {:induction false} LastPieceFree(s: string, sep: string)
    requires sep != ""
    ensures Find(Last(Split(s, sep)), sep).None?
    decreases |s|
  {
    var f := Find(s, sep);
    if f.None? {
      SplitNone(s, sep);
    } else {
      var k := f.value;
      assert k + |sep| <= |s|;
      var rest := s[k + |sep|..];
      SplitStep(s, sep, k);
      assert |rest| < |s|;
      LastPieceFree(rest, sep);
    }
  }

  /** A suffix of a suffix of `s` is a suffix of `s`. */
  lemma SuffixOfSuffix(s: string, off: nat, r: string)
    requires off <= |s| && IsSuffix(r, s[off..])
    ensures IsSuffix(r, s)
  {
    assert s[off..][|s| - off - |r|..] == s[|s| - |r|..];
  }

  /** `str(n)` for a natural number: its decimal digits. */
  function NatToStr(n: nat): (r: string)
    ensures |r| >= 1 && IsDecimal(r)
  {
    if n < 10 then [Digit(n)] else NatToStr(n / 10) + [Digit(n % 10)]
  }

  function Digit(d: nat): (c: char)
    requires d < 10
  {
    ('0' as int + d) as char
  }

  predicate IsDecimal(s: string) {
    forall i :: 0 <= i < |s| ==> '0' <= s[i] <= '9'
  }

  /** The number a string of decimal digits denotes (the inverse of
      `NatToStr`). */
  function DigitsValue(s: string): nat
    requires IsDecimal(s)
  {
    if s == [] then 0
    else 10 * DigitsValue(s[..|s| - 1]) + ((s[|s| - 1] as int) - ('0' as int))
  }

  lemma {:induction false} NatToStrRoundTrip(n: nat)
    ensures DigitsValue(NatToStr(n)) == n
  {
    if n >= 10 {
      NatToStrRoundTrip(n / 10);
      var r := NatToStr(n);
      assert r[..|r| - 1] == NatToStr(n / 10);
    }
  }

  /** `str(i)` for any integer: a minus sign for negatives, then the
      decimal digits of the magnitude. */
  function IntToStr(i: int): (r: string)
    ensures |r| >= 1 && (i < 0 <==> r[0] == '-')
    ensures IsDecimal(if i < 0 then r[1..] else r)
    ensures DigitsValue(if i < 0 then r[1..] else r) == if i < 0 then -i else i
  {
    var m: nat := if i < 0 then -i else i;
    var d := NatToStr(m);
    NatToStrRoundTrip(m);
    if i < 0 then
      assert ("-" + d)[1..] == d;
      "-" + d
    else d
  }

  function Spaces(n: nat): (r: string)
    ensures |r| == n && forall i :: 0 <= i < n ==> r[i] == ' '
  {
    seq(n, _ => ' ')
  }

  /** `s.ljust(width)`: `s` padded on the right with spaces. */
  function LJust(s: string, width: int): (r: string)
    ensures |r| == Max(|s|, width)
    ensures r[..|s|] == s
    ensures forall i :: |s| <= i < |r| ==> r[i] == ' '
  {
    if |s| >= width then s else s + Spaces(width - |s|)
  }

  /** `s.rjust(width)`: `s` padded on the left with spaces. */
  function RJust(s: string, width: int): (r: string)
    ensures |r| == Max(|s|, width)
    ensures r[|r| - |s|..] == s
    ensures forall i :: 0 <= i < |r| - |s| ==> r[i] == ' '
  {
    if |s| >= width then s else Spaces(width - |s|) + s
  }

  /** `c.lower()` for the ASCII letters. */
  function LowerChar(c: char): char {
    if 'A' <= c <= 'Z' then (c as int + 32) as char else c
  }

  /** `s.lower()`, as far as ASCII goes. */
  function Lower(s: string): (r: string)
    ensures |r| == |s|
    ensures forall i :: 0 <= i < |s| ==> r[i] == LowerChar(s[i])
  {
    seq(|s|, i requires 0 <= i < |s| => LowerChar(s[i]))
  }

  /** Lowering is idempotent, so lowered words are their own key. */
  lemma LowerIdempotent(s: string)
    ensures Lower(Lower(s)) == Lower(s)
  {
  }
}
