/**
 * The string operations of Python's `str` that the modelled code relies on:
 * `split`, `join`, `strip`, `lstrip`, `lower`, `isdigit`, `isspace`,
 * and the decimal rendering of integers in f-strings.
 * Strings are sequences of code points.
 */
module Text {
  import opened Wrappers

  /** Python's `str.isspace()` for one code point (also the set `\s` matches in `re`). */
  predicate IsSpace(c: char)
  {
    c == ' ' || ('\t' <= c <= '\r') || ('\U{1c}' <= c <= '\U{1f}') ||
    c == '\U{85}' || c == '\U{a0}' || c == '\U{1680}' || ('\U{2000}' <= c <= '\U{200a}') ||
    c == '\U{2028}' || c == '\U{2029}' || c == '\U{202f}' || c == '\U{205f}' || c == '\U{3000}'
  }

  /** The ASCII digits 0-9 (`str.isdigit()` and `\d` restricted to ASCII). */
  predicate IsDigit(c: char)
  {
    '0' <= c <= '9'
  }

  predicate AllDigits(s: string)
  {
    forall i :: 0 <= i < |s| ==> IsDigit(s[i])
  }

  /** No leading and no trailing whitespace. */
  predicate Trimmed(s: string)
  {
    s == [] || (!IsSpace(s[0]) && !IsSpace(s[|s| - 1]))
  }

  /** The number of leading whitespace characters of `s`. */
  function LeadSpace(s: string): (n: nat)
    ensures n <= |s|
    ensures forall i :: 0 <= i < n ==> IsSpace(s[i])
    ensures n == |s| || !IsSpace(s[n])
  {
    if s != [] && IsSpace(s[0]) then 1 + LeadSpace(s[1..]) else 0
  }

  /** The number of trailing whitespace characters of `s`. */
  function TrailSpace(s: string): (n: nat)
    ensures n <= |s|
    ensures forall i :: |s| - n <= i < |s| ==> IsSpace(s[i])
    ensures n == |s| || !IsSpace(s[|s| - n - 1])
  {
    if s != [] && IsSpace(s[|s| - 1]) then 1 + TrailSpace(s[..|s| - 1]) else 0
  }

  /** Python's `s.lstrip()`. */
  function LStrip(s: string): string
  {
    s[LeadSpace(s)..]
  }

  /** Python's `s.rstrip()`. */
  function RStrip(s: string): string
  {
    s[..|s| - TrailSpace(s)]
  }

  /** Python's `s.strip()`: the middle of `s` between leading and trailing whitespace. */
  function Strip(s: string): (r: string)
    ensures Trimmed(r)
    ensures LeadSpace(s) + |r| <= |s| && r == s[LeadSpace(s)..LeadSpace(s) + |r|]
    ensures forall i :: 0 <= i < LeadSpace(s) ==> IsSpace(s[i])
    ensures forall i :: LeadSpace(s) + |r| <= i < |s| ==> IsSpace(s[i])
  {
    RStrip(LStrip(s))
  }

  predicate AllSpace(s: string)
  {
    forall i :: 0 <= i < |s| ==> IsSpace(s[i])
  }

  /** A string without surrounding whitespace is its own `strip()`. */
  lemma StripTrimmed(s: string)
    requires Trimmed(s)
    ensures Strip(s) == s
  {
  }

  /** A string of whitespace strips to nothing, and only such a string does. */
  lemma StripEmpty(s: string)
    ensures Strip(s) == "" <==> AllSpace(s)
  {
  }

  /** The number of leading characters of `s` that belong to `chars`. */
  function LeadIn(s: string, chars: set<char>): (n: nat)
    ensures n <= |s|
    ensures forall i :: 0 <= i < n ==> s[i] in chars
    ensures n == |s| || s[n] !in chars
  {
    if s != [] && s[0] in chars then 1 + LeadIn(s[1..], chars) else 0
  }

  /** Python's `s.lstrip(chars)`. */
  function LStripChars(s: string, chars: set<char>): string
  {
    s[LeadIn(s, chars)..]
  }

  /** `lstrip(chars)` goes through a prefix made of `chars` and on into what follows. */
  lemma {:induction false} LStripCharsPrefix(p: string, s: string, chars: set<char>)
    requires forall i :: 0 <= i < |p| ==> p[i] in chars
    ensures LeadIn(p + s, chars) == |p| + LeadIn(s, chars)
    ensures LStripChars(p + s, chars) == LStripChars(s, chars)
  {
    if p != [] {
      assert (p + s)[0] == p[0] && (p + s)[1..] == p[1..] + s;
      LStripCharsPrefix(p[1..], s, chars);
    } else {
      assert p + s == s;
    }
  }

  /** The position of the first `c` in `s`. */
  function FirstIndex(s: string, c: char): (i: nat)
    requires c in s
    ensures i < |s| && s[i] == c && c !in s[..i]
  {
    if s[0] == c then 0 else FirstIndex(s[1..], c) + 1
  }

  /** The first `c` of `t` is at `p` when `t[p]` is a `c` and none comes before it. */
  lemma FirstAt(t: string, c: char, p: nat)
    requires p < |t| && t[p] == c && c !in t[..p]
    ensures c in t && FirstIndex(t, c) == p
  {
    assert t[p] in t;
  }

  /** Python's `s.split(c)` for a one-character separator: never empty, the pieces hold no `c`. */
  function Split(s: string, c: char): (parts: seq<string>)
    ensures |parts| >= 1
    ensures forall i :: 0 <= i < |parts| ==> c !in parts[i]
    decreases |s|
  {
    if c !in s then [s]
    else
      var i := FirstIndex(s, c);
      [s[..i]] + Split(s[i + 1..], c)
  }

  /** `sep` occurs in `s` starting at position `j`. */
  predicate OccursAt(s: string, sep: string, j: nat)
  {
    j + |sep| <= |s| && s[j..j + |sep|] == sep
  }

  /** Without `sep` at the front, an occurrence in `s` is one in `s[1..]`, one place later. */
  lemma OccursShift(s: string, sep: string)
    requires s != [] && sep != [] && !OccursAt(s, sep, 0)
    ensures forall j: nat :: OccursAt(s, sep, j) <==> j >= 1 && OccursAt(s[1..], sep, j - 1)
  {
    forall j: nat
      ensures OccursAt(s, sep, j) <==> j >= 1 && OccursAt(s[1..], sep, j - 1)
    {
      if 1 <= j && j + |sep| <= |s| {
        SliceOfTail(s, j, j + |sep|);
      }
    }
  }

  lemma SliceOfTail(s: string, a: nat, b: nat)
    requires 1 <= a <= b <= |s|
    ensures s[1..][a - 1..b - 1] == s[a..b]
  {
    assert |s[1..][a - 1..b - 1]| == b - a;
    forall k | 0 <= k < b - a
      ensures s[1..][a - 1..b - 1][k] == s[a..b][k]
    {
    }
  }

  /** The position of the first occurrence of `sep` in `s`, if any. */
  function FindSub(s: string, sep: string): (r: Option<nat>)
    requires sep != []
    ensures r.Some? ==> OccursAt(s, sep, r.value) && forall j: nat :: j < r.value ==> !OccursAt(s, sep, j)
    ensures r.None? ==> forall j: nat :: !OccursAt(s, sep, j)
  {
    if |s| < |sep| then None
    else if s[..|sep|] == sep then
      assert s[0..|sep|] == s[..|sep|];
      Some(0)
    else
      assert s[0..|sep|] == s[..|sep|];
      OccursShift(s, sep);
      match FindSub(s[1..], sep)
      case None => None
      case Some(i) => Some(i + 1)
  }

  /** Python's `s.split(sep)` for a non-empty separator: the pieces between the occurrences, left to right. */
  function SplitOn(s: string, sep: string): (parts: seq<string>)
    requires sep != []
    ensures |parts| >= 1
    decreases |s|
  {
    match FindSub(s, sep)
    case None => [s]
    case Some(i) => [s[..i]] + SplitOn(s[i + |sep|..], sep)
  }

  /** An occurrence of `sep` starts with its first character. */
  lemma OccursHead(s: string, sep: string, j: nat)
    requires sep != [] && OccursAt(s, sep, j)
    ensures s[j] == sep[0]
  {
    assert s[j..j + |sep|][0] == s[j];
  }

  /** A string without the separator's first character is a single piece. */
  lemma SplitOnFree(s: string, sep: string)
    requires sep != [] && sep[0] !in s
    ensures SplitOn(s, sep) == [s]
  {
    match FindSub(s, sep)
    case None =>
    case Some(i) =>
      OccursHead(s, sep, i);
  }

  /**
   * Joining pieces with `sep` and splitting on `sep` gives back the pieces, when no piece
   * holds the separator's first character.
   */
  lemma {:induction false} SplitOnJoin(parts: seq<string>, sep: string)
    requires sep != [] && |parts| >= 1
    requires forall i :: 0 <= i < |parts| ==> sep[0] !in parts[i]
    ensures SplitOn(Join(parts, sep), sep) == parts
    decreases |parts|
  {
    if |parts| == 1 {
      SplitOnFree(parts[0], sep);
    } else {
      var p := parts[0];
      var rest := Join(parts[1..], sep);
      var s := Join(parts, sep);
      assert s == p + sep + rest;
      FindAfterFree(p, sep, rest);
      assert s[..|p|] == p;
      assert s[|p| + |sep|..] == rest;
      SplitOnJoin(parts[1..], sep);
    }
  }

  /** In `p + sep + rest`, with the separator's first character absent from `p`, `sep` is first found right after `p`. */
  lemma FindAfterFree(p: string, sep: string, rest: string)
    requires sep != [] && sep[0] !in p
    ensures FindSub(p + sep + rest, sep) == Some(|p|)
  {
    var s := p + sep + rest;
    assert s[|p|..|p| + |sep|] == sep;
    assert OccursAt(s, sep, |p|);
    forall j: nat | j < |p|
      ensures !OccursAt(s, sep, j)
    {
      if OccursAt(s, sep, j) {
        OccursHead(s, sep, j);
      }
    }
  }

  /** Python's `sep.join(parts)`. */
  function Join(parts: seq<string>, sep: string): string
  {
    if |parts| == 0 then ""
    else if |parts| == 1 then parts[0]
    else parts[0] + sep + Join(parts[1..], sep)
  }

  /** Concatenation of a sequence of strings (`"".join(parts)`). */
  function Concat(parts: seq<string>): string
  {
    if parts == [] then "" else parts[0] + Concat(parts[1..])
  }

  lemma ConcatAppend(parts: seq<string>, last: string)
    ensures Concat(parts + [last]) == Concat(parts) + last
  {
    if parts != [] {
      assert (parts + [last])[1..] == parts[1..] + [last];
      ConcatAppend(parts[1..], last);
    }
  }

  /** `s.split(c)[0]`: everything before the first `c`, or all of `s`. */
  function BeforeFirst(s: string, c: char): (r: string)
    ensures c !in r
    ensures r == if c in s then s[..FirstIndex(s, c)] else s
  {
    Split(s, c)[0]
  }

  /** `s.split(c)[-1]`: everything after the last `c`, or all of `s`. */
  function AfterLast(s: string, c: char): (r: string)
    ensures c !in r
    decreases |s|
  {
    if c in s then AfterLast(s[FirstIndex(s, c) + 1..], c) else s
  }

  /** `AfterLast` is the last piece `split` gives. */
  lemma {:induction false} AfterLastIsLastPiece(s: string, c: char)
    ensures var parts := Split(s, c);
      AfterLast(s, c) == parts[|parts| - 1]
    decreases |s|
  {
    if c in s {
      var i := FirstIndex(s, c);
      var rest := Split(s[i + 1..], c);
      AfterLastIsLastPiece(s[i + 1..], c);
      assert AfterLast(s, c) == rest[|rest| - 1];
      SplitCons(s, c);
      LastOfCons(s[..i], rest);
    }
  }

  lemma LastOfCons(head: string, rest: seq<string>)
    requires |rest| >= 1
    ensures ([head] + rest)[|rest|] == rest[|rest| - 1]
  {
  }

  lemma JoinCons(head: string, rest: seq<string>, sep: string)
    requires |rest| >= 1
    ensures Join([head] + rest, sep) == head + sep + Join(rest, sep)
  {
    assert ([head] + rest)[1..] == rest;
  }

  lemma SplitCons(s: string, c: char)
    requires c in s
    ensures Split(s, c) == [s[..FirstIndex(s, c)]] + Split(s[FirstIndex(s, c) + 1..], c)
  {
  }

  /** Splitting on `c` and joining with `c` gives back the string. */
  lemma {:induction false} JoinSplit(s: string, c: char)
    ensures Join(Split(s, c), [c]) == s
    decreases |s|
  {
    if c in s {
      var i := FirstIndex(s, c);
      var tail := s[i + 1..];
      JoinSplit(tail, c);
      SplitCons(s, c);
      JoinCons(s[..i], Split(tail, c), [c]);
      assert s == s[..i] + [c] + tail;
    }
  }

  /** Joining pieces free of `c` with `c` and splitting on `c` gives back the pieces. */
  lemma {:induction false} SplitJoin(parts: seq<string>, c: char)
    requires |parts| >= 1
    requires forall i :: 0 <= i < |parts| ==> c !in parts[i]
    ensures Split(Join(parts, [c]), c) == parts
  {
    if |parts| > 1 {
      var p := parts[0];
      var rest := Join(parts[1..], [c]);
      var s := Join(parts, [c]);
      assert s == p + ([c] + rest);
      FirstIndexAfterFree(p, [c] + rest, c);
      assert FirstIndex(s, c) == |p|;
      assert s[..|p|] == p;
      assert s[|p| + 1..] == rest;
      SplitJoin(parts[1..], c);
      assert Split(s, c) == [p] + parts[1..];
    }
  }

  lemma {:induction false} FirstIndexAfterFree(p: string, t: string, c: char)
    requires c !in p && c in t
    ensures c in p + t && FirstIndex(p + t, c) == |p| + FirstIndex(t, c)
  {
    assert (p + t)[|p| + FirstIndex(t, c)] == c;
    if p != [] {
      assert (p + t)[1..] == p[1..] + t;
      FirstIndexAfterFree(p[1..], t, c);
    }
  }

  /** ASCII lower-casing of one code point. */
  function LowerChar(c: char): char
  {
    if 'A' <= c <= 'Z' then (c as int - 'A' as int + 'a' as int) as char else c
  }

  /** Python's `s.lower()`, restricted to ASCII letters. */
  function Lower(s: string): (r: string)
    ensures |r| == |s| && forall i :: 0 <= i < |s| ==> r[i] == LowerChar(s[i])
  {
    seq(|s|, i requires 0 <= i < |s| => LowerChar(s[i]))
  }

  /** Lower-casing commutes with taking the pieces around position `k`. */
  lemma LowerSlices(s: string, k: nat)
    requires k < |s|
    ensures Lower(s)[..k] == Lower(s[..k]) && Lower(s)[k + 1..] == Lower(s[k + 1..])
  {
  }

  /** One decimal digit. */
  function DigitChar(d: nat): char
    requires d < 10
  {
    ('0' as int + d) as char
  }

  /** `str(n)` for a natural number: its decimal digits, without leading zeros. */
  function NatToString(n: nat): (r: string)
    ensures |r| >= 1 && AllDigits(r)
    ensures |r| > 1 ==> r[0] != '0'
  {
    if n < 10 then [DigitChar(n)] else NatToString(n / 10) + [DigitChar(n % 10)]
  }

  lemma {:induction false} JoinFree(parts: seq<string>, sep: string, d: char)
    requires forall i :: 0 <= i < |parts| ==> d !in parts[i]
    requires d !in sep
    ensures d !in Join(parts, sep)
  {
    if |parts| > 1 {
      JoinFree(parts[1..], sep, d);
    }
  }
}
