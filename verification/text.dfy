/** String helpers with the semantics of the Python `str` methods the scripts
    use: `startswith`, `in`, `split`, `strip`, `lower` and `str(int)`. */
module Text {

  /** `p` is a prefix of `s` (Python `s.startswith(p)`). */
  predicate IsPrefix(p: string, s: string) {
    |p| <= |s| && s[..|p|] == p
  }

  /** `sub` occurs somewhere in `s` (Python `sub in s`). */
  predicate Contains(s: string, sub: string)
    decreases |s|
  {
    IsPrefix(sub, s) || (|s| > 0 && Contains(s[1..], sub))
  }

  /** Position of the leftmost occurrence of `sub` in `s`, or `|s|` when there is none. */
  function IndexOf(s: string, sub: string): (k: nat)
    requires |sub| > 0
    ensures k <= |s|
    ensures k < |s| <==> Contains(s, sub)
    ensures k < |s| ==> IsPrefix(sub, s[k..])
    ensures forall j :: 0 <= j < k ==> !IsPrefix(sub, s[j..])
    decreases |s|
  {
    if |s| == 0 then 0
    else if IsPrefix(sub, s) then 0
    else
      var k := IndexOf(s[1..], sub);
      assert forall j :: 1 <= j <= k ==> s[j..] == s[1..][j - 1..];
      1 + k
  }

  /** Glue `parts` back together with `sep` between neighbours (Python `sep.join(parts)`). */
  function Join(parts: seq<string>, sep: string): string
    requires |parts| > 0
  {
    if |parts| == 1 then parts[0] else parts[0] + sep + Join(parts[1..], sep)
  }

  lemma JoinConsHead(c: char, rest: seq<string>, sep: string)
    requires |rest| > 0
    ensures Join([[c] + rest[0]] + rest[1..], sep) == [c] + Join(rest, sep)
  {
    var parts := [[c] + rest[0]] + rest[1..];
    assert parts[1..] == rest[1..];
  }

  lemma PrefixOfPrefix(p: string, s: string, m: nat)
    requires m <= |s|
    ensures IsPrefix(p, s[..m]) ==> IsPrefix(p, s)
  {
    if IsPrefix(p, s[..m]) {
      assert s[..m][..|p|] == s[..|p|];
    }
  }

  /** The text before the leftmost separator never contains the separator. */
  lemma {:induction false} BeforeFirstIsFree(s: string, sep: string)
    requires |sep| > 0
    ensures !Contains(s[..IndexOf(s, sep)], sep)
    decreases |s|
  {
    if |s| == 0 || IsPrefix(sep, s) {
      assert s[..IndexOf(s, sep)] == [];
    } else {
      var m := IndexOf(s, sep);
      var t := s[1..][..IndexOf(s[1..], sep)];
      BeforeFirstIsFree(s[1..], sep);
      assert s[..m] == [s[0]] + t;
      PrefixOfPrefix(sep, s, m);
      assert ([s[0]] + t)[1..] == t;
    }
  }

  /** One step of `Split` past a character that does not start a separator. */
  lemma SplitConsStep(s: string, sep: string, rest: seq<string>)
    requires |sep| > 0 && |s| > 0 && !IsPrefix(sep, s)
    requires |rest| > 0 && Join(rest, sep) == s[1..]
    requires forall i :: 0 <= i < |rest| ==> !Contains(rest[i], sep)
    requires |rest| > 1 <==> Contains(s[1..], sep)
    requires rest[0] == s[1..][..IndexOf(s[1..], sep)]
    ensures var parts := [[s[0]] + rest[0]] + rest[1..];
      && Join(parts, sep) == s
      && (forall i :: 0 <= i < |parts| ==> !Contains(parts[i], sep))
      && (|parts| > 1 <==> Contains(s, sep))
      && parts[0] == s[..IndexOf(s, sep)]
  {
    var parts := [[s[0]] + rest[0]] + rest[1..];
    JoinConsHead(s[0], rest, sep);
    assert [s[0]] + s[1..] == s;
    ConsFirstPart(s, sep, rest[0]);
    ContainsPastHead(s, sep);
    TailPartsFree(parts, rest, sep);
  }

  lemma ContainsPastHead(s: string, sep: string)
    requires |s| > 0 && !IsPrefix(sep, s)
    ensures Contains(s, sep) == Contains(s[1..], sep)
  {
  }

  lemma TailPartsFree(parts: seq<string>, rest: seq<string>, sep: string)
    requires |rest| > 0 && |parts| == |rest| && parts[1..] == rest[1..]
    requires !Contains(parts[0], sep)
    requires forall i :: 0 <= i < |rest| ==> !Contains(rest[i], sep)
    ensures forall i :: 0 <= i < |parts| ==> !Contains(parts[i], sep)
  {
    forall i | 1 <= i < |parts|
      ensures !Contains(parts[i], sep)
    {
      assert parts[i] == parts[1..][i - 1] == rest[i];
    }
  }

  lemma ConsFirstPart(s: string, sep: string, r0: string)
    requires |sep| > 0 && |s| > 0 && !IsPrefix(sep, s)
    requires r0 == s[1..][..IndexOf(s[1..], sep)]
    ensures [s[0]] + r0 == s[..IndexOf(s, sep)]
    ensures !Contains([s[0]] + r0, sep)
  {
    assert IndexOf(s, sep) == 1 + IndexOf(s[1..], sep);
    BeforeFirstIsFree(s, sep);
  }

  /** One step of `Split` past a separator at the front. */
  lemma SplitSepStep(s: string, sep: string, rest: seq<string>)
    requires |sep| > 0 && IsPrefix(sep, s)
    requires |rest| > 0 && Join(rest, sep) == s[|sep|..]
    requires forall i :: 0 <= i < |rest| ==> !Contains(rest[i], sep)
    ensures var parts := [""] + rest;
      && Join(parts, sep) == s
      && (forall i :: 0 <= i < |parts| ==> !Contains(parts[i], sep))
      && (|parts| > 1 <==> Contains(s, sep))
      && parts[0] == s[..IndexOf(s, sep)]
  {
    var parts := [""] + rest;
    assert s == sep + s[|sep|..];
    assert parts[1..] == rest;
    forall i | 0 <= i < |parts|
      ensures !Contains(parts[i], sep)
    {
      if i > 0 {
        assert parts[i] == rest[i - 1];
      }
    }
  }

  /** Python `s.split(sep)`: the pieces between successive leftmost,
      non-overlapping occurrences of `sep`. */
  function Split(s: string, sep: string): (parts: seq<string>)
    requires |sep| > 0
    ensures |parts| > 0
    ensures Join(parts, sep) == s
    ensures forall i :: 0 <= i < |parts| ==> !Contains(parts[i], sep)
    ensures |parts| > 1 <==> Contains(s, sep)
    ensures parts[0] == s[..IndexOf(s, sep)]
    decreases |s|
  {
    if |s| == 0 then [""]
    else if IsPrefix(sep, s) then
      var rest := Split(s[|sep|..], sep);
      SplitSepStep(s, sep, rest);
      [""] + rest
    else
      var rest := Split(s[1..], sep);
      SplitConsStep(s, sep, rest);
      [[s[0]] + rest[0]] + rest[1..]
  }

  /** When `sep` occurs, the first piece of `split` ends at its leftmost occurrence and the
      remaining pieces are the split of the text after it. */
  lemma {:induction false} SplitAtFirst(s: string, sep: string)
    requires |sep| > 0 && Contains(s, sep)
    ensures var k := IndexOf(s, sep);
      && k + |sep| <= |s|
      && Split(s, sep) == [s[..k]] + Split(s[k + |sep|..], sep)
    decreases |s|
  {
    if !IsPrefix(sep, s) {
      assert |s| > 0 && Contains(s[1..], sep);
      var k' := IndexOf(s[1..], sep);
      var rest := Split(s[1..], sep);
      assert Split(s, sep) == [[s[0]] + rest[0]] + rest[1..];
      assert IndexOf(s, sep) == 1 + k';
      SplitAtFirst(s[1..], sep);
      assert rest[0] == s[1..][..k'] && rest[1..] == Split(s[1..][k' + |sep|..], sep);
      ShiftSlices(s, k', |sep|);
    }
  }

  lemma ShiftSlices(s: string, k: nat, n: nat)
    requires 0 < |s| && k + n <= |s| - 1
    ensures [s[0]] + s[1..][..k] == s[..1 + k]
    ensures s[1..][k + n..] == s[1 + k + n..]
  {
  }

  /** Cutting `s` at `m` and then searching for a single character finds the earlier of its
      first occurrence and the cut. */
  lemma IndexOfCharInPrefix(s: string, c: char, m: nat)
    requires m <= |s|
    ensures IndexOf(s[..m], [c]) == if IndexOf(s, [c]) < m then IndexOf(s, [c]) else m
  {
    var k := IndexOf(s[..m], [c]);
    var k' := IndexOf(s, [c]);
    forall j | 0 <= j < m
      ensures IsPrefix([c], s[..m][j..]) <==> IsPrefix([c], s[j..])
    {
      assert s[..m][j..][..1] == [s[j]];
      assert s[j..][..1] == [s[j]];
    }
    if k' < m {
      assert IsPrefix([c], s[..m][k'..]);
    }
    if k < m {
      assert IsPrefix([c], s[k..]);
    }
  }

  /** A string shorter than `sub` cannot contain it. */
  lemma {:induction false} ShorterNeverContains(s: string, sub: string)
    requires |s| < |sub|
    ensures !Contains(s, sub)
    decreases |s|
  {
    if |s| > 0 {
      ShorterNeverContains(s[1..], sub);
    }
  }

  /** The characters Python's `str.isspace` accepts, which is what `str.strip()` removes. */
  const Whitespace: set<char> := {'\U{9}', '\U{A}', '\U{B}', '\U{C}', '\U{D}', '\U{1C}', '\U{1D}', '\U{1E}', '\U{1F}', ' ', '\U{85}', '\U{A0}', '\U{1680}', '\U{2000}', '\U{2001}', '\U{2002}', '\U{2003}', '\U{2004}', '\U{2005}', '\U{2006}', '\U{2007}', '\U{2008}', '\U{2009}', '\U{200A}', '\U{2028}', '\U{2029}', '\U{202F}', '\U{205F}', '\U{3000}'}

  predicate IsSpace(c: char) {
    c in Whitespace
  }

  /** Number of whitespace characters at the front of `s`. */
  function LeadingSpaces(s: string): (n: nat)
    ensures n <= |s|
    ensures forall i :: 0 <= i < n ==> IsSpace(s[i])
    ensures n < |s| ==> !IsSpace(s[n])
    decreases |s|
  {
    if |s| > 0 && IsSpace(s[0]) then
      var n := LeadingSpaces(s[1..]);
      assert forall i :: 1 <= i <= n ==> s[i] == s[1..][i - 1];
      1 + n
    else 0
  }

  /** Length of `s` without its trailing whitespace. */
  function EndOfText(s: string): (e: nat)
    ensures e <= |s|
    ensures forall i :: e <= i < |s| ==> IsSpace(s[i])
    ensures e > 0 ==> !IsSpace(s[e - 1])
    decreases |s|
  {
    if |s| > 0 && IsSpace(s[|s| - 1]) then EndOfText(s[..|s| - 1]) else |s|
  }

  /** Neither end of `s` is whitespace. */
  predicate IsStripped(s: string) {
    |s| == 0 || (!IsSpace(s[0]) && !IsSpace(s[|s| - 1]))
  }

  /** Python `s.strip()`: `s` without its leading and trailing whitespace. */
  function Strip(s: string): (r: string)
    ensures IsStripped(r)
    ensures var a := LeadingSpaces(s);
      && a + |r| <= |s|
      && r == s[a..a + |r|]
      && (forall i :: a + |r| <= i < |s| ==> IsSpace(s[i]))
  {
    var a := LeadingSpaces(s);
    var e := EndOfText(s);
    if e <= a then "" else s[a..e]
  }

  lemma StripKeepsStripped(s: string)
    requires IsStripped(s)
    ensures Strip(s) == s
  {
  }

  /** Stripping twice is stripping once. */
  lemma StripIdempotent(s: string)
    ensures Strip(Strip(s)) == Strip(s)
  {
    StripKeepsStripped(Strip(s));
  }

  /** Leading whitespace in front of a non-space character is exactly what `strip` drops first. */
  lemma StripSkipsIndent(w: string, c: char, t: string)
    requires forall i :: 0 <= i < |w| ==> IsSpace(w[i])
    requires !IsSpace(c)
    ensures |Strip(w + [c] + t)| > 0 && Strip(w + [c] + t)[0] == c
  {
    var s := w + [c] + t;
    assert s[|w|] == c;
    assert LeadingSpaces(s) == |w|;
  }

  /** ASCII lower-casing of one character. */
  function LowerChar(c: char): char {
    if 'A' <= c <= 'Z' then (c as int + 32) as char else c
  }

  /** Lower-cases the ASCII letters of `s` (pandas `str.lower` on ASCII text). */
  function Lower(s: string): (r: string)
    ensures |r| == |s|
    ensures forall i :: 0 <= i < |r| ==> !('A' <= r[i] <= 'Z')
    ensures forall i :: 0 <= i < |r| ==> LowerChar(r[i]) == LowerChar(s[i])
  {
    seq(|s|, i requires 0 <= i < |s| => LowerChar(s[i]))
  }

  lemma LowerIdempotent(s: string)
    ensures Lower(Lower(s)) == Lower(s)
  {
  }

  function DigitChar(d: nat): (c: char)
    requires d < 10
    ensures '0' <= c <= '9' && c as int - '0' as int == d
  {
    (d + '0' as int) as char
  }

  /** Python `str(n)` for a non-negative integer. */
  function NatToString(n: nat): (s: string)
    ensures |s| > 0
    ensures forall i :: 0 <= i < |s| ==> '0' <= s[i] <= '9'
    decreases n
  {
    if n < 10 then [DigitChar(n)] else NatToString(n / 10) + [DigitChar(n % 10)]
  }

  /** Python `str(i)` for any integer. */
  function IntToString(i: int): string {
    if i < 0 then "-" + NatToString(-i) else NatToString(i)
  }

  /** The number a string of decimal digits denotes (Python `int(s)` on digits). */
  function DigitsValue(s: string): nat
    requires forall i :: 0 <= i < |s| ==> '0' <= s[i] <= '9'
  {
    if |s| == 0 then 0 else DigitsValue(s[..|s| - 1]) * 10 + (s[|s| - 1] as int - '0' as int)
  }

  /** `int(str(n)) == n`: the decimal rendering loses nothing. */
  lemma {:induction false} NatToStringRoundTrip(n: nat)
    ensures DigitsValue(NatToString(n)) == n
    decreases n
  {
    if n >= 10 {
      NatToStringRoundTrip(n / 10);
      var s := NatToString(n);
      assert s[..|s| - 1] == NatToString(n / 10);
    }
  }

  /** `b` occurs in any string that has it as an infix. */
  lemma {:induction false} ContainsInfix(a: string, b: string, c: string)
    ensures Contains(a + b + c, b)
    decreases |a|
  {
    if |a| == 0 {
      assert (a + b + c)[..|b|] == b;
    } else {
      ContainsInfix(a[1..], b, c);
      assert (a + b + c)[1..] == a[1..] + b + c;
    }
  }
}
