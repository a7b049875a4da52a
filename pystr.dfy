/** The Python 2 string operations the modelled code relies on, with the
    properties of them that the other modules use.  Characters are compared
    by code point, as Python 2 compares byte strings. */
module PyStr {
  import opened Wrappers

  // ---------------------------------------------------------------------
  // str.replace
  // ---------------------------------------------------------------------

  /** `s.replace(p, r)`: scan left to right and replace every occurrence of
      `p` that does not overlap an earlier replaced one. */
  function Replace(s: string, p: string, r: string): string
    requires |p| > 0
    decreases |s|
  {
    if |s| < |p| then s
    else if s[..|p|] == p then r + Replace(s[|p|..], p, r)
    else [s[0]] + Replace(s[1..], p, r)
  }

  /** Replacing a single character by a single character works position by
      position and keeps the length. */
  lemma {:induction false} ReplaceCharAt(s: string, c: char, d: char)
    ensures |Replace(s, [c], [d])| == |s|
    ensures forall i :: 0 <= i < |s| ==>
      Replace(s, [c], [d])[i] == (if s[i] == c then d else s[i])
  {
    if |s| > 0 {
      ReplaceCharAt(s[1..], c, d);
      assert s[..1] == [s[0]];
      var rest := Replace(s[1..], [c], [d]);
      assert Replace(s, [c], [d]) == [if s[0] == c then d else s[0]] + rest;
    }
  }

  /** A string in which the first character of the pattern never occurs is
      left unchanged. */
  lemma {:induction false} ReplaceAbsent(s: string, p: string, r: string)
    requires |p| > 0
    requires p[0] !in s
    ensures Replace(s, p, r) == s
  {
    if |s| >= |p| {
      assert s[..|p|][0] == s[0];
      assert s[1..] + [] == s[1..];
      ReplaceAbsent(s[1..], p, r);
      assert [s[0]] + s[1..] == s;
    }
  }

  /** A prefix in which the first character of the pattern never occurs
      passes through unchanged. */
  lemma {:induction false} ReplaceFreePrefix(a: string, b: string, p: string, r: string)
    requires |p| > 0
    requires p[0] !in a
    ensures Replace(a + b, p, r) == a + Replace(b, p, r)
  {
    if |a| > 0 {
      var s := a + b;
      assert s[0] == a[0];
      assert s[1..] == a[1..] + b;
      ReplaceSkipFirst(s, p, r);
      ReplaceFreePrefix(a[1..], b, p, r);
      assert [a[0]] + a[1..] == a;
    } else {
      assert a + b == b;
    }
  }

  /** A string shorter than the pattern is left unchanged. */
  lemma ReplaceAbsentShort(s: string, p: string, r: string)
    requires |p| > 0 && |s| < |p|
    ensures Replace(s, p, r) == s
  {
  }

  /** An occurrence at the very start is replaced, and the scan resumes
      after it. */
  lemma ReplaceAtStart(p: string, t: string, r: string)
    requires |p| > 0
    ensures Replace(p + t, p, r) == r + Replace(t, p, r)
  {
    assert (p + t)[..|p|] == p;
    assert (p + t)[|p|..] == t;
  }

  /** A single occurrence at the very end, after text that cannot start
      the pattern, is the only replacement. */
  lemma ReplaceAtEnd(a: string, p: string, r: string)
    requires |p| > 0 && p[0] !in a
    ensures Replace(a + p, p, r) == a + r
  {
    assert a + p == a + (p + "");
    ReplaceFreePrefix(a, p + "", p, r);
    ReplaceAtStart(p, "", r);
    assert Replace("", p, r) == "";
  }

  /** A string whose first character cannot start the pattern keeps that
      character and the scan resumes at the next one. */
  lemma ReplaceSkipFirst(s: string, p: string, r: string)
    requires |p| > 0 && |s| > 0 && s[0] != p[0]
    ensures Replace(s, p, r) == [s[0]] + Replace(s[1..], p, r)
  {
    if |s| < |p| {
      ReplaceAbsentShort(s[1..], p, r);
      assert [s[0]] + s[1..] == s;
    } else {
      assert s[..|p|][0] == s[0];
    }
  }

  /** For a two-character pattern, a string whose first character starts the
      pattern but whose second does not continue it keeps its first
      character. */
  lemma ReplaceSkipFirst2(s: string, p: string, r: string)
    requires |p| == 2 && |s| > 0 && (|s| == 1 || s[1] != p[1])
    ensures Replace(s, p, r) == [s[0]] + Replace(s[1..], p, r)
  {
    if |s| < |p| {
      assert Replace(s[1..], p, r) == s[1..];
      assert [s[0]] + s[1..] == s;
    } else {
      assert s[..|p|][1] == s[1];
    }
  }

  /** Replacing a one-character pattern distributes over concatenation. */
  lemma {:induction false} ReplaceCharConcat(a: string, b: string, c: char, r: string)
    ensures Replace(a + b, [c], r) == Replace(a, [c], r) + Replace(b, [c], r)
  {
    if |a| > 0 {
      var s := a + b;
      assert s[..1] == [a[0]] && a[..1] == [a[0]];
      assert s[1..] == a[1..] + b;
      assert s[1..] == a[1..] + b;
      ReplaceCharConcat(a[1..], b, c, r);
    } else {
      assert a + b == b;
    }
  }

  /** Replacing a character by text without it leaves none of it. */
  lemma {:induction false} ReplaceCharGone(s: string, c: char, r: string)
    requires c !in r
    ensures c !in Replace(s, [c], r)
  {
    if |s| > 0 {
      assert s[..1] == [s[0]];
      ReplaceCharGone(s[1..], c, r);
    }
  }

  /** `string.punctuation`. */
  const Punctuation: string := "!\"#$%&'()*+,-./:;<=>?@[\\]^_`{|}~"

  /** `for c in cs: s = s.replace(c, r)`. */
  function ReplaceEach(s: string, cs: string, r: string): string
    decreases |cs|
  {
    if |cs| == 0 then s else Replace(ReplaceEach(s, cs[..|cs| - 1], r), [cs[|cs| - 1]], r)
  }

  /** Replacing each of a set of characters by one character works position
      by position. */
  lemma {:induction false} ReplaceEachAt(s: string, cs: string, d: char)
    ensures |ReplaceEach(s, cs, [d])| == |s|
    ensures forall i :: 0 <= i < |s| ==> ReplaceEach(s, cs, [d])[i] == (if s[i] in cs then d else s[i])
    decreases |cs|
  {
    if |cs| > 0 {
      var init := cs[..|cs| - 1];
      ReplaceEachAt(s, init, d);
      var t := ReplaceEach(s, init, [d]);
      ReplaceCharAt(t, cs[|cs| - 1], d);
      assert cs == init + [cs[|cs| - 1]];
    }
  }

  /** Each character of `cs` in turn replaced by `r`. */
  method ReplaceChars(s0: string, cs: string, r: string) returns (s: string)
    ensures s == ReplaceEach(s0, cs, r)
  {
    s := s0;
    var i := 0;
    while i < |cs|
      invariant 0 <= i <= |cs|
      invariant s == ReplaceEach(s0, cs[..i], r)
    {
      assert cs[..i + 1][..i] == cs[..i];
      s := Replace(s, [cs[i]], r);
      i := i + 1;
    }
    assert cs[..i] == cs;
  }

  /** The characters of `s` that are not in `cs`, in order. */
  function Without(s: string, cs: string): string
  {
    if |s| == 0 then "" else (if s[0] in cs then "" else [s[0]]) + Without(s[1..], cs)
  }

  /** What is left: exactly the characters of `s` outside `cs`. */
  lemma {:induction false} WithoutChars(s: string, cs: string)
    ensures forall c :: c in Without(s, cs) <==> c in s && c !in cs
  {
    if |s| > 0 {
      WithoutChars(s[1..], cs);
      assert s == [s[0]] + s[1..];
    }
  }

  /** Deleting is distributive: `Without` of a concatenation. */
  lemma {:induction false} WithoutConcat(a: string, b: string, cs: string)
    ensures Without(a + b, cs) == Without(a, cs) + Without(b, cs)
  {
    if |a| > 0 {
      assert (a + b)[1..] == a[1..] + b;
      WithoutConcat(a[1..], b, cs);
    } else {
      assert a + b == b;
    }
  }

  /** Replacing one character by nothing deletes it. */
  lemma {:induction false} ReplaceDeletes(s: string, c: char)
    ensures Replace(s, [c], "") == Without(s, [c])
  {
    if |s| > 0 {
      assert s[..1] == [s[0]];
      ReplaceDeletes(s[1..], c);
    }
  }

  /** Deleting `cs` and then `c` deletes `cs + [c]`. */
  lemma {:induction false} WithoutTwice(s: string, cs: string, c: char)
    ensures Without(Without(s, cs), [c]) == Without(s, cs + [c])
  {
    if |s| > 0 {
      WithoutTwice(s[1..], cs, c);
      var head := if s[0] in cs then "" else [s[0]];
      WithoutConcat(head, Without(s[1..], cs), [c]);
      if s[0] !in cs {
        assert Without(head, [c]) == (if s[0] == c then "" else [s[0]]) + Without(head[1..], [c]);
      }
    }
  }

  /** Replacing each character of `cs` by nothing deletes them all. */
  lemma {:induction false} ReplaceEachDeletes(s: string, cs: string)
    ensures ReplaceEach(s, cs, "") == Without(s, cs)
    decreases |cs|
  {
    if |cs| > 0 {
      var init := cs[..|cs| - 1];
      ReplaceEachDeletes(s, init);
      ReplaceDeletes(Without(s, init), cs[|cs| - 1]);
      WithoutTwice(s, init, cs[|cs| - 1]);
      assert init + [cs[|cs| - 1]] == cs;
    } else {
      WithoutNone(s, cs);
    }
  }

  /** A string with none of the characters keeps them all. */
  lemma {:induction false} WithoutKeeps(s: string, cs: string)
    requires forall i :: 0 <= i < |s| ==> s[i] !in cs
    ensures Without(s, cs) == s
  {
    if |s| > 0 {
      WithoutKeeps(s[1..], cs);
      assert s == [s[0]] + s[1..];
    }
  }

  /** A string made only of the characters loses them all. */
  lemma {:induction false} WithoutAll(s: string, cs: string)
    requires forall i :: 0 <= i < |s| ==> s[i] in cs
    ensures Without(s, cs) == ""
  {
    if |s| > 0 {
      WithoutAll(s[1..], cs);
    }
  }

  /** Deleting nothing keeps the string. */
  lemma {:induction false} WithoutNone(s: string, cs: string)
    requires |cs| == 0
    ensures Without(s, cs) == s
  {
    if |s| > 0 {
      WithoutNone(s[1..], cs);
      assert s == [s[0]] + s[1..];
    }
  }

  // ---------------------------------------------------------------------
  // Case conversion (ASCII letters only)
  // ---------------------------------------------------------------------

  function LowerChar(c: char): char {
    if 'A' <= c <= 'Z' then (c as int + 32) as char else c
  }

  function UpperChar(c: char): char {
    if 'a' <= c <= 'z' then (c as int - 32) as char else c
  }

  /** `s.lower()`. */
  function Lower(s: string): (r: string)
    ensures |r| == |s|
    ensures forall i :: 0 <= i < |s| ==> r[i] == LowerChar(s[i])
  {
    seq(|s|, i requires 0 <= i < |s| => LowerChar(s[i]))
  }

  /** `s.upper()`. */
  function Upper(s: string): (r: string)
    ensures |r| == |s|
    ensures forall i :: 0 <= i < |s| ==> r[i] == UpperChar(s[i])
  {
    seq(|s|, i requires 0 <= i < |s| => UpperChar(s[i]))
  }

  /** Lower-casing distributes over concatenation. */
  lemma LowerConcat(a: string, b: string)
    ensures Lower(a + b) == Lower(a) + Lower(b)
  {
  }

  /** Lower-casing is idempotent. */
  lemma LowerIdempotent(s: string)
    ensures Lower(Lower(s)) == Lower(s)
  {
  }

  /** `s.capitalize()`: first character upper case, the rest lower case. */
  function Capitalize(s: string): (r: string)
    ensures |r| == |s|
    ensures |s| > 0 ==> r[0] == UpperChar(s[0])
    ensures forall i :: 0 < i < |s| ==> r[i] == LowerChar(s[i])
  {
    if |s| == 0 then "" else [UpperChar(s[0])] + Lower(s[1..])
  }

  // ---------------------------------------------------------------------
  // Prefixes, suffixes and slicing in Python's forgiving style
  // ---------------------------------------------------------------------

  predicate StartsWith(s: string, p: string) {
    |p| <= |s| && s[..|p|] == p
  }

  predicate EndsWith(s: string, p: string) {
    |p| <= |s| && s[|s| - |p|..] == p
  }

  /** `s[:n]` for n >= 0: Python clamps an index past the end. */
  function Take(s: string, n: nat): (r: string)
    ensures |r| == if n <= |s| then n else |s|
    ensures r <= s
  {
    if n <= |s| then s[..n] else s
  }

  /** `s[n:]` for n >= 0, clamped like `Take`. */
  function DropPrefix(s: string, n: nat): (r: string)
    ensures |r| == if n <= |s| then |s| - n else 0
    ensures Take(s, n) + r == s
  {
    if n <= |s| then s[n..] else ""
  }

  /** `s[:-n]` for n > 0: drop the last n characters (nothing is left when
      n >= len(s)). */
  function DropSuffix(s: string, n: nat): (r: string)
    ensures |r| == if n <= |s| then |s| - n else 0
    ensures r <= s
  {
    if n <= |s| then s[..|s| - n] else ""
  }

  // ---------------------------------------------------------------------
  // Whitespace, strip() and split()
  // ---------------------------------------------------------------------

  /** The characters Python 2's `str.strip()` and `str.split()` treat as
      whitespace. */
  predicate IsSpace(c: char) {
    c == ' ' || c == '\t' || c == '\n' || c == '\r' || c as int == 11 || c as int == 12
  }

  function LStripBy(s: string, cs: char -> bool): (r: string)
    ensures |r| <= |s| && r == s[|s| - |r|..]
    ensures |r| > 0 ==> !cs(r[0])
    ensures forall i :: 0 <= i < |s| - |r| ==> cs(s[i])
    decreases |s|
  {
    if |s| > 0 && cs(s[0]) then
      var t := LStripBy(s[1..], cs);
      assert s[1..][|s| - 1 - |t|..] == s[|s| - |t|..];
      assert forall i :: 1 <= i < |s| - |t| ==> s[i] == s[1..][i - 1];
      t
    else s
  }

  function RStripBy(s: string, cs: char -> bool): (r: string)
    ensures |r| <= |s| && r == s[..|r|]
    ensures |r| > 0 ==> !cs(r[|r| - 1])
    ensures forall i :: |r| <= i < |s| ==> cs(s[i])
    decreases |s|
  {
    if |s| > 0 && cs(s[|s| - 1]) then RStripBy(s[..|s| - 1], cs) else s
  }

  /** `s.strip(chars)`, the chars given as a predicate. */
  function StripBy(s: string, cs: char -> bool): string {
    RStripBy(LStripBy(s, cs), cs)
  }

  /** `s.strip()`. */
  function Strip(s: string): string {
    StripBy(s, IsSpace)
  }

  /** The length of the longest prefix of `s` with no whitespace. */
  function WordLen(s: string): (n: nat)
    ensures n <= |s|
    ensures forall i :: 0 <= i < n ==> !IsSpace(s[i])
    ensures n < |s| ==> IsSpace(s[n])
  {
    if |s| == 0 || IsSpace(s[0]) then 0 else 1 + WordLen(s[1..])
  }

  /** A non-empty string without whitespace. */
  predicate IsWord(w: string) {
    |w| > 0 && forall i :: 0 <= i < |w| ==> !IsSpace(w[i])
  }

  /** `s.split()`: the maximal runs of non-whitespace characters. */
  function SplitWs(s: string): (ws: seq<string>)
    ensures forall k :: 0 <= k < |ws| ==> IsWord(ws[k])
    decreases |s|
  {
    if |s| == 0 then []
    else if IsSpace(s[0]) then SplitWs(s[1..])
    else
      var n := WordLen(s);
      [s[..n]] + SplitWs(s[n..])
  }

  /** `sep.join(parts)`. */
  function Join(sep: string, parts: seq<string>): string {
    if |parts| == 0 then ""
    else if |parts| == 1 then parts[0]
    else parts[0] + sep + Join(sep, parts[1..])
  }

  /** Joining parts with no whitespace by a single space leaves a string
      whose only whitespace character is the space. */
  lemma {:induction false} JoinSpacesOnly(parts: seq<string>)
    requires forall k :: 0 <= k < |parts| ==> IsWord(parts[k])
    ensures forall i :: 0 <= i < |Join(" ", parts)| && IsSpace(Join(" ", parts)[i]) ==>
      Join(" ", parts)[i] == ' '
  {
    if |parts| > 1 {
      JoinSpacesOnly(parts[1..]);
      var j := Join(" ", parts);
      var a := parts[0];
      var rest := Join(" ", parts[1..]);
      assert j == a + " " + rest;
      forall i | 0 <= i < |j| ensures IsSpace(j[i]) ==> j[i] == ' ' {
        if i < |a| {
          assert j[i] == a[i];
        } else if i > |a| {
          assert j[i] == rest[i - |a| - 1];
        }
      }
    }
  }

  /** The words of `s.split()` are made of characters of `s`: a property
      every character of `s` has, every character of every word has. */
  lemma {:induction false} SplitWsChars(s: string, q: char -> bool)
    requires forall i :: 0 <= i < |s| ==> q(s[i])
    ensures forall k, i :: 0 <= k < |SplitWs(s)| && 0 <= i < |SplitWs(s)[k]| ==> q(SplitWs(s)[k][i])
    decreases |s|
  {
    if |s| > 0 {
      if IsSpace(s[0]) {
        assert forall i :: 0 <= i < |s| - 1 ==> s[1..][i] == s[i + 1];
        SplitWsChars(s[1..], q);
      } else {
        var n := WordLen(s);
        var rest := s[n..];
        assert forall i :: 0 <= i < |rest| ==> rest[i] == s[n + i];
        SplitWsChars(rest, q);
        var ws := SplitWs(s);
        assert ws == [s[..n]] + SplitWs(rest);
        forall k, i | 0 <= k < |ws| && 0 <= i < |ws[k]| ensures q(ws[k][i]) {
          if k == 0 {
            assert ws[k][i] == s[i];
          } else {
            assert ws[k] == SplitWs(rest)[k - 1];
          }
        }
      }
    }
  }

  /** Every character of `" ".join(parts)` is a space or a character of one
      of the parts. */
  lemma {:induction false} JoinChars(parts: seq<string>, q: char -> bool)
    requires forall k, i :: 0 <= k < |parts| && 0 <= i < |parts[k]| ==> q(parts[k][i])
    ensures forall i :: 0 <= i < |Join(" ", parts)| ==> q(Join(" ", parts)[i]) || Join(" ", parts)[i] == ' '
  {
    if |parts| == 1 {
      assert Join(" ", parts) == parts[0];
    } else if |parts| > 1 {
      assert forall k :: 1 <= k < |parts| ==> parts[1..][k - 1] == parts[k];
      JoinChars(parts[1..], q);
      var j := Join(" ", parts);
      var a := parts[0];
      var rest := Join(" ", parts[1..]);
      assert j == a + " " + rest;
      forall i | 0 <= i < |j| ensures q(j[i]) || j[i] == ' ' {
        if i < |a| {
          assert j[i] == a[i];
        } else if i > |a| {
          assert j[i] == rest[i - |a| - 1];
        }
      }
    }
  }

  // ---------------------------------------------------------------------
  // find() and split(sep)
  // ---------------------------------------------------------------------

  /** `p` occurs in `s` starting at index `j`. */
  predicate MatchAt(s: string, p: string, j: int) {
    0 <= j && j + |p| <= |s| && s[j..j + |p|] == p
  }

  /** A slice of `s` is the slice one place earlier of `s[1..]`. */
  lemma SliceShift(s: string, j: int, n: nat)
    requires 1 <= j && j + n <= |s|
    ensures s[j..j + n] == s[1..][j - 1..j - 1 + n]
  {
    var x, y := s[j..j + n], s[1..][j - 1..j - 1 + n];
    forall k | 0 <= k < n ensures x[k] == y[k] {
      assert x[k] == s[j + k];
    }
    assert x == y;
  }

  /** `s.find(p)` for a non-empty pattern: the first index where `p` occurs. */
  function Find(s: string, p: string): (r: Option<nat>)
    requires |p| > 0
    ensures r.Some? ==> MatchAt(s, p, r.value)
    ensures r.Some? ==> forall j :: 0 <= j < r.value ==> !MatchAt(s, p, j)
    ensures r.None? ==> forall j :: !MatchAt(s, p, j)
    decreases |s|
  {
    if |s| < |p| then None
    else if s[..|p|] == p then Some(0)
    else
      var f := Find(s[1..], p);
      assert forall j :: 1 <= j ==> (MatchAt(s, p, j) <==> MatchAt(s[1..], p, j - 1)) by {
        forall j | 1 <= j ensures MatchAt(s, p, j) <==> MatchAt(s[1..], p, j - 1) {
          if j + |p| <= |s| {
            SliceShift(s, j, |p|);
          }
        }
      }
      assert !MatchAt(s, p, 0) by { assert s[0..|p|] == s[..|p|]; }
      match f
      case None => None
      case Some(i) => Some(i + 1)
  }

  /** Searching for one character: found exactly when it occurs, and then
      at its first occurrence. */
  lemma FindChar(s: string, c: char)
    ensures Find(s, [c]).Some? <==> c in s
    ensures Find(s, [c]).Some? ==>
      Find(s, [c]).value < |s| && s[Find(s, [c]).value] == c && c !in s[..Find(s, [c]).value]
  {
    forall j | 0 <= j < |s| ensures MatchAt(s, [c], j) <==> s[j] == c {
      assert s[j..j + 1] == [s[j]];
    }
    var f := Find(s, [c]);
    if f.Some? {
      var i := f.value;
      forall j | 0 <= j < i ensures s[..i][j] != c {
        assert !MatchAt(s, [c], j);
      }
    }
  }

  /** `p in s` for a non-empty pattern. */
  predicate Contains(s: string, p: string)
    requires |p| > 0
  {
    Find(s, p).Some?
  }

  /** `s.split(sep)` for a non-empty separator: the pieces between the
      non-overlapping occurrences of `sep`, scanning left to right; there is
      always at least one piece. */
  function SplitOn(s: string, sep: string): (parts: seq<string>)
    requires |sep| > 0
    ensures |parts| > 0
    decreases |s|
  {
    match Find(s, sep)
    case None => [s]
    case Some(i) => [s[..i]] + SplitOn(s[i + |sep|..], sep)
  }

  /** Joining the pieces of a split with the separator gives back the
      string. */
  lemma {:induction false} JoinSplitOn(s: string, sep: string)
    requires |sep| > 0
    ensures Join(sep, SplitOn(s, sep)) == s
    decreases |s|
  {
    var f := Find(s, sep);
    if f.Some? {
      var i := f.value;
      var rest := s[i + |sep|..];
      JoinSplitOn(rest, sep);
      var tail := SplitOn(rest, sep);
      var parts := SplitOn(s, sep);
      assert parts == [s[..i]] + tail;
      JoinCons(sep, s[..i], tail);
      assert s == s[..i] + s[i..i + |sep|] + rest;
    }
  }

  lemma JoinCons(sep: string, x: string, parts: seq<string>)
    requires |parts| > 0
    ensures Join(sep, [x] + parts) == x + sep + Join(sep, parts)
  {
    assert ([x] + parts)[1..] == parts;
  }

  // ---------------------------------------------------------------------
  // Integers and their decimal text ('%d', str() and int())
  // ---------------------------------------------------------------------

  predicate IsDigit(c: char) {
    '0' <= c <= '9'
  }

  function DigitChar(d: nat): (c: char)
    requires d < 10
    ensures IsDigit(c) && c as int - '0' as int == d
  {
    ('0' as int + d) as char
  }

  /** Decimal digits of a natural number, as `'%d'` prints it. */
  function NatToStr(n: nat): (s: string)
    ensures |s| > 0
    ensures forall i :: 0 <= i < |s| ==> IsDigit(s[i])
  {
    if n < 10 then [DigitChar(n)] else NatToStr(n / 10) + [DigitChar(n % 10)]
  }

  /** `'%d' % i` and `str(i)`. */
  function IntToStr(i: int): (s: string)
    ensures |s| > 0 && (s[0] == '-' || IsDigit(s[0]))
  {
    if i < 0 then "-" + NatToStr(-i) else NatToStr(i)
  }

  /** The value of a string read as decimal digits. */
  function DigitsValue(s: string): int
  {
    if |s| == 0 then 0
    else 10 * DigitsValue(s[..|s| - 1]) + (s[|s| - 1] as int - '0' as int)
  }

  /** The length of the run of digits `s` starts with. */
  function DigitRun(s: string): (n: nat)
    ensures n <= |s|
  {
    if |s| > 0 && IsDigit(s[0]) then 1 + DigitRun(s[1..]) else 0
  }

  /** Every character of `s` is whitespace. */
  predicate AllSpace(s: string)
  {
    |s| == 0 || (IsSpace(s[0]) && AllSpace(s[1..]))
  }

  /** One or more digits followed by nothing but whitespace. */
  function ParseDigits(s: string): Option<int>
  {
    var n := DigitRun(s);
    if n > 0 && AllSpace(s[n..]) then Some(DigitsValue(s[..n])) else None
  }

  /** The digits after a sign: Python 2's `PyOS_strtol` hands the text
      after the sign to `PyOS_strtoul`, which skips whitespace of its own
      before the digits, so `int("- 3") == -3`. */
  function ParseUnsigned(s: string): (r: Option<int>)
  {
    if |s| > 0 && IsSpace(s[0]) then ParseUnsigned(s[1..]) else ParseDigits(s)
  }

  /** `int(s)` for a str: surrounding whitespace allowed, then an optional
      sign, whitespace again when there is a sign, and one or more decimal
      digits; anything else raises ValueError (None here). */
  function ParseInt(s: string): (r: Option<int>)
  {
    if |s| == 0 then None
    else if IsSpace(s[0]) then ParseInt(s[1..])
    else if s[0] == '-' || s[0] == '+' then
      match ParseUnsigned(s[1..])
      case None => None
      case Some(v) => Some(if s[0] == '-' then -v else v)
    else ParseDigits(s)
  }

  /** Whitespace between the sign and the digits is skipped: a sign, any
      run of whitespace and the decimal text of `n` read as `n` or `-n`. */
  lemma SignSpaceParses(sign: char, w: string, n: nat)
    requires sign == '-' || sign == '+'
    requires forall i :: 0 <= i < |w| ==> IsSpace(w[i])
    ensures ParseInt([sign] + (w + NatToStr(n))) == Some(if sign == '-' then -(n as int) else n as int)
  {
    UnsignedAfterSpace(w, n);
    SignedText(sign, w + NatToStr(n), n);
  }

  lemma SignedText(sign: char, t: string, v: int)
    requires sign == '-' || sign == '+'
    requires ParseUnsigned(t) == Some(v)
    ensures ParseInt([sign] + t) == Some(if sign == '-' then -v else v)
  {
    assert ([sign] + t)[1..] == t;
  }

  lemma {:induction false} UnsignedAfterSpace(w: string, n: nat)
    requires forall i :: 0 <= i < |w| ==> IsSpace(w[i])
    ensures ParseUnsigned(w + NatToStr(n)) == Some(n)
  {
    if |w| == 0 {
      assert w + NatToStr(n) == NatToStr(n);
      ParseDigitsOfNat(n);
    } else {
      assert (w + NatToStr(n))[1..] == w[1..] + NatToStr(n);
      UnsignedAfterSpace(w[1..], n);
    }
  }

  /** `int("- 3") == -3` and `int("+ 7") == 7`. */
  lemma SignThenSpace()
    ensures ParseInt("- 3") == Some(-3)
    ensures ParseInt("+ 7") == Some(7)
  {
    SignSpaceParses('-', " ", 3);
    assert ['-'] + (" " + NatToStr(3)) == "- 3";
    SignSpaceParses('+', " ", 7);
    assert ['+'] + (" " + NatToStr(7)) == "+ 7";
  }

  /** A string made only of digits is one run of digits. */
  lemma {:induction false} DigitRunAll(s: string)
    requires forall i :: 0 <= i < |s| ==> IsDigit(s[i])
    ensures DigitRun(s) == |s|
  {
    if |s| > 0 {
      assert forall i :: 0 <= i < |s| - 1 ==> s[1..][i] == s[i + 1];
      DigitRunAll(s[1..]);
    }
  }

  /** The decimal text of a natural number is read back as that number. */
  lemma ParseDigitsOfNat(n: nat)
    ensures ParseDigits(NatToStr(n)) == Some(n)
  {
    var d := NatToStr(n);
    DigitRunAll(d);
    assert d[|d|..] == [] && d[..|d|] == d;
    DigitsValueOfNat(n);
  }

  lemma {:induction false} DigitsValueOfNat(n: nat)
    ensures DigitsValue(NatToStr(n)) == n
  {
    if n >= 10 {
      DigitsValueOfNat(n / 10);
      var s := NatToStr(n);
      assert s[..|s| - 1] == NatToStr(n / 10);
    }
  }

  /** `int(str(i)) == i`: the decimal text of an integer parses back to it. */
  lemma IntToStrParses(i: int)
    ensures ParseInt(IntToStr(i)) == Some(i)
  {
    var s := IntToStr(i);
    if i < 0 {
      var d := NatToStr(-i);
      assert s == "-" + d && s[1..] == d;
      ParseDigitsOfNat(-i);
      assert ParseUnsigned(d) == ParseDigits(d);
    } else {
      ParseDigitsOfNat(i);
    }
  }

  // ---------------------------------------------------------------------
  // SQL LIKE
  // ---------------------------------------------------------------------

  /** SQL `s LIKE p` with `%` matching any run of characters and `_` any
      single character (no escape character). */
  predicate Like(s: string, p: string)
    decreases |s| + |p|
  {
    if |p| == 0 then |s| == 0
    else if p[0] == '%' then Like(s, p[1..]) || (|s| > 0 && Like(s[1..], p))
    else |s| > 0 && (p[0] == '_' || p[0] == s[0]) && Like(s[1..], p[1..])
  }

  /** A pattern without wildcards. */
  predicate Literal(p: string) {
    forall i :: 0 <= i < |p| ==> p[i] != '%' && p[i] != '_'
  }

  /** `p` occurs in `t` at some position. */
  ghost predicate Occurs(p: string, t: string) {
    exists i :: MatchAt(t, p, i)
  }

  lemma {:induction false} LikeAnyTail(s: string)
    ensures Like(s, "%")
    decreases |s|
  {
    if |s| > 0 {
      LikeAnyTail(s[1..]);
    }
  }

  /** `s LIKE q%` for a literal q holds exactly when q is a prefix of s. */
  lemma {:induction false} LikePrefix(s: string, q: string)
    requires Literal(q)
    ensures Like(s, q + "%") <==> q <= s
    decreases |q|
  {
    if |q| == 0 {
      assert q + "%" == "%";
      LikeAnyTail(s);
    } else {
      assert (q + "%")[0] == q[0];
      assert (q + "%")[1..] == q[1..] + "%";
      if |s| > 0 {
        LikePrefix(s[1..], q[1..]);
        assert q <= s <==> (q[0] == s[0] && q[1..] <= s[1..]);
      }
    }
  }

  /** `s LIKE %q%` for a literal q holds exactly when q occurs in s: a
      LIKE pattern wrapped in `%` is a substring search. */
  lemma {:induction false} LikeContains(s: string, q: string)
    requires Literal(q)
    ensures Like(s, "%" + q + "%") <==> Occurs(q, s)
    decreases |s|
  {
    var p := "%" + q + "%";
    assert p[0] == '%';
    assert p[1..] == q + "%";
    LikePrefix(s, q);
    if |s| == 0 {
      if Occurs(q, s) {
        var i :| MatchAt(s, q, i);
        assert q == s[0..|q|];
      }
      if q == [] {
        assert MatchAt(s, q, 0);
      }
    } else {
      LikeContains(s[1..], q);
      OccursStep(s, q);
    }
  }

  /** `q` occurs in a non-empty `s` when it starts it or occurs in its
      tail. */
  lemma OccursStep(s: string, q: string)
    requires |s| > 0
    ensures Occurs(q, s) <==> q <= s || Occurs(q, s[1..])
  {
    if Occurs(q, s) {
      var i :| MatchAt(s, q, i);
      if i == 0 {
        assert s[..|q|] == q;
      } else {
        SliceShift(s, i, |q|);
        assert MatchAt(s[1..], q, i - 1);
      }
    }
    if Occurs(q, s[1..]) {
      var i :| MatchAt(s[1..], q, i);
      SliceShift(s, i + 1, |q|);
      assert MatchAt(s, q, i + 1);
    }
    if q <= s {
      assert s[0..|q|] == q;
      assert MatchAt(s, q, 0);
    }
  }

  // ---------------------------------------------------------------------
  // Ordering and sorting of strings (Python 2 str comparison)
  // ---------------------------------------------------------------------

  /** `a <= b` for Python 2 strings: lexicographic by character code. */
  predicate StrLe(a: string, b: string) {
    if |a| == 0 then true
    else if |b| == 0 then false
    else if a[0] != b[0] then a[0] < b[0]
    else StrLe(a[1..], b[1..])
  }

  lemma {:induction false} StrLeTotal(a: string, b: string)
    ensures StrLe(a, b) || StrLe(b, a)
  {
    if |a| > 0 && |b| > 0 && a[0] == b[0] {
      StrLeTotal(a[1..], b[1..]);
    }
  }

  lemma {:induction false} StrLeAntisym(a: string, b: string)
    requires StrLe(a, b) && StrLe(b, a)
    ensures a == b
  {
    if |a| > 0 && |b| > 0 {
      StrLeAntisym(a[1..], b[1..]);
      assert a == [a[0]] + a[1..] && b == [b[0]] + b[1..];
    }
  }

  lemma {:induction false} StrLeTrans(a: string, b: string, c: string)
    requires StrLe(a, b) && StrLe(b, c)
    ensures StrLe(a, c)
  {
    if |a| > 0 && |b| > 0 && |c| > 0 && a[0] == b[0] && b[0] == c[0] {
      StrLeTrans(a[1..], b[1..], c[1..]);
    }
  }

  lemma StrLeRefl(a: string)
    ensures StrLe(a, a)
  {
    if |a| > 0 {
      StrLeReflTail(a);
    }
  }

  lemma {:induction false} StrLeReflTail(a: string)
    ensures StrLe(a, a)
  {
    if |a| > 0 {
      StrLeReflTail(a[1..]);
    }
  }

  predicate SortedStrs(s: seq<string>) {
    forall i, j :: 0 <= i < j < |s| ==> StrLe(s[i], s[j])
  }

  /** Insert `x` into a sorted list before the first element it precedes. */
  function InsertStr(x: string, s: seq<string>): (r: seq<string>)
    requires SortedStrs(s)
    ensures SortedStrs(r)
    ensures multiset(r) == multiset(s) + multiset{x}
  {
    if |s| == 0 then [x]
    else if StrLe(x, s[0]) then
      assert forall j :: 0 <= j < |s| ==> StrLe(x, s[j]) by {
        forall j | 0 <= j < |s| ensures StrLe(x, s[j]) {
          if j > 0 { StrLeTrans(x, s[0], s[j]); }
        }
      }
      [x] + s
    else
      StrLeTotal(x, s[0]);
      var t := InsertStr(x, s[1..]);
      assert s == [s[0]] + s[1..];
      assert multiset(t) == multiset(s[1..]) + multiset{x};
      var r := [s[0]] + t;
      assert forall j :: 0 <= j < |t| ==> StrLe(s[0], t[j]) by {
        forall j | 0 <= j < |t| ensures StrLe(s[0], t[j]) {
          assert t[j] in multiset(t);
          assert t[j] == x || t[j] in multiset(s[1..]);
          if t[j] != x {
            var k :| 0 <= k < |s[1..]| && s[1..][k] == t[j];
            assert s[k + 1] == t[j];
          }
        }
      }
      r
  }

  /** `sorted(s)` for a list of strings. */
  function SortStrs(s: seq<string>): (r: seq<string>)
    ensures SortedStrs(r)
    ensures multiset(r) == multiset(s)
  {
    if |s| == 0 then []
    else
      assert s == [s[0]] + s[1..];
      InsertStr(s[0], SortStrs(s[1..]))
  }

  /** Two sorted lists with the same elements are equal: sorting does not
      depend on the input order. */
  lemma SortedTail(a: seq<string>)
    requires |a| > 0 && SortedStrs(a)
    ensures SortedStrs(a[1..])
  {
    assert forall i :: 0 <= i < |a| - 1 ==> a[1..][i] == a[i + 1];
  }

  /** The head of a sorted list is at most any of its elements. */
  lemma SortedHeadLe(a: seq<string>, j: int)
    requires SortedStrs(a) && 0 <= j < |a|
    ensures StrLe(a[0], a[j])
  {
    if j == 0 { StrLeRefl(a[0]); }
  }

  /** Two sorted lists with the same elements start alike. */
  lemma SortedHeads(a: seq<string>, b: seq<string>)
    requires |a| > 0 && SortedStrs(a) && SortedStrs(b)
    requires multiset(a) == multiset(b)
    ensures |b| > 0 && a[0] == b[0]
  {
    assert a[0] in multiset(b);
    assert b[0] in multiset(a);
    var i :| 0 <= i < |b| && b[i] == a[0];
    var j :| 0 <= j < |a| && a[j] == b[0];
    SortedHeadLe(b, i);
    SortedHeadLe(a, j);
    StrLeAntisym(a[0], b[0]);
  }

  lemma StrTailMultiset(a: seq<string>)
    requires |a| > 0
    ensures multiset(a[1..]) == multiset(a) - multiset{a[0]}
  {
    assert a == [a[0]] + a[1..];
  }

  lemma {:induction false} SortedUnique(a: seq<string>, b: seq<string>)
    requires SortedStrs(a) && SortedStrs(b)
    requires multiset(a) == multiset(b)
    ensures a == b
    decreases |a|
  {
    if |a| > 0 {
      SortedHeads(a, b);
      StrTailMultiset(a);
      StrTailMultiset(b);
      SortedTail(a);
      SortedTail(b);
      SortedUnique(a[1..], b[1..]);
      assert a == [a[0]] + a[1..] && b == [b[0]] + b[1..];
    } else {
      assert |b| == 0 by { assert |multiset(b)| == 0; }
    }
  }

  /** Sorting gives the same list for any two inputs that are permutations
      of each other. */
  lemma SortStrsPermutation(a: seq<string>, b: seq<string>)
    requires multiset(a) == multiset(b)
    ensures SortStrs(a) == SortStrs(b)
  {
    SortedUnique(SortStrs(a), SortStrs(b));
  }
}
