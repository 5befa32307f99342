/** The few `java.lang.String` / `kotlin.text` operations the modelled code
    relies on: `indexOf`, `lastIndexOf`, `split` on a string delimiter,
    `joinToString` and ASCII `uppercase`. */
module Strings {

  /** `pat` occurs in `s` starting at index `i`. */
  predicate OccursAt(s: string, pat: string, i: nat) {
    i + |pat| <= |s| && s[i..i + |pat|] == pat
  }

  predicate Contains(s: string, pat: string) {
    exists i: nat | i <= |s| :: OccursAt(s, pat, i)
  }

  /** Java `s.indexOf(pat, from)`: the first occurrence at or after `from`, or -1. */
  function IndexOfFrom(s: string, pat: string, from: nat): (r: int)
    ensures r == -1 || (from <= r && OccursAt(s, pat, r))
    decreases |s| - from
  {
    if from + |pat| > |s| then -1
    else if OccursAt(s, pat, from) then from
    else IndexOfFrom(s, pat, from + 1)
  }

  /** No occurrence is skipped: none lies between `from` and the answer, and
      none at all after `from` when the answer is -1. */
  lemma {:induction false} IndexOfFromFirst(s: string, pat: string, from: nat)
    ensures IndexOfFrom(s, pat, from) == -1 ==> forall i: nat :: from <= i ==> !OccursAt(s, pat, i)
    ensures IndexOfFrom(s, pat, from) >= 0 ==>
              forall i: nat :: from <= i < IndexOfFrom(s, pat, from) ==> !OccursAt(s, pat, i)
    decreases |s| - from
  {
    if from + |pat| <= |s| && !OccursAt(s, pat, from) {
      IndexOfFromFirst(s, pat, from + 1);
    }
  }

  /** Java `s.indexOf(pat)`. */
  function IndexOf(s: string, pat: string): (r: int)
    ensures r == -1 || (r >= 0 && OccursAt(s, pat, r))
  {
    IndexOfFrom(s, pat, 0)
  }

  /** `indexOf` is -1 exactly when the pattern is absent, and otherwise the
      first occurrence. */
  lemma IndexOfFirst(s: string, pat: string)
    ensures IndexOf(s, pat) == -1 <==> !Contains(s, pat)
    ensures IndexOf(s, pat) >= 0 ==> forall i: nat :: i < IndexOf(s, pat) ==> !OccursAt(s, pat, i)
  {
    IndexOfFromFirst(s, pat, 0);
    Witness(s, pat, IndexOf(s, pat));
  }

  /** Searching from `from` is searching the suffix and shifting the answer. */
  lemma IndexOfFromSuffix(s: string, pat: string, from: nat)
    requires from <= |s|
    ensures IndexOfFrom(s, pat, from) ==
            (if IndexOf(s[from..], pat) < 0 then -1 else from + IndexOf(s[from..], pat))
  {
    var r := IndexOfFrom(s, pat, from);
    var q := IndexOf(s[from..], pat);
    IndexOfFromFirst(s, pat, from);
    IndexOfFirst(s[from..], pat);
    OccursShift(s, pat, from, r);
    if q >= 0 {
      OccursShift(s, pat, from, from + q);
    } else {
      Witness(s[from..], pat, r - from);
    }
  }

  /** An occurrence at `i >= from` is an occurrence at `i - from` in the suffix. */
  lemma OccursShift(s: string, pat: string, from: nat, i: int)
    requires from <= |s|
    ensures from <= i ==> (OccursAt(s, pat, i) <==> OccursAt(s[from..], pat, i - from))
  {
    if from <= i && i + |pat| <= |s| {
      assert s[from..][i - from..i - from + |pat|] == s[i..i + |pat|];
    }
  }

  /** An occurrence is a witness of containment. */
  lemma Witness(s: string, pat: string, i: int)
    ensures 0 <= i && OccursAt(s, pat, i) ==> Contains(s, pat)
  {
  }

  /** Java `s.lastIndexOf(c)`. */
  function LastIndexOf(s: string, c: char): (r: int)
    ensures -1 <= r < |s|
    ensures r == -1 <==> c !in s
    ensures r >= 0 ==> s[r] == c && c !in s[r + 1..]
  {
    var r := LastIndexBefore(s, c, |s|);
    if r >= 0 then
      AbsentAfter(s, c, r);
      r
    else r
  }

  lemma AbsentAfter(s: string, c: char, r: nat)
    requires r < |s| && forall k :: r < k < |s| ==> s[k] != c
    ensures c !in s[r + 1..]
  {
    var t := s[r + 1..];
    forall k | 0 <= k < |t|
      ensures t[k] != c
    {
      assert t[k] == s[r + 1 + k];
    }
  }

  /** The last position of `c` among the first `n` characters, or -1. */
  function LastIndexBefore(s: string, c: char, n: nat): (r: int)
    requires n <= |s|
    ensures -1 <= r < n
    ensures r == -1 <==> forall k :: 0 <= k < n ==> s[k] != c
    ensures r >= 0 ==> s[r] == c && forall k :: r < k < n ==> s[k] != c
    decreases n
  {
    if n == 0 then -1
    else if s[n - 1] == c then n - 1
    else LastIndexBefore(s, c, n - 1)
  }

  /** A one-character pattern occurs exactly where that character is. */
  lemma CharOccurs(s: string, c: char, i: nat)
    ensures OccursAt(s, [c], i) <==> i < |s| && s[i] == c
  {
    if i < |s| {
      assert s[i..i + 1] == [s[i]];
    }
  }

  lemma ContainsChar(s: string, c: char)
    ensures Contains(s, [c]) <==> c in s
  {
    if c in s {
      var i :| 0 <= i < |s| && s[i] == c;
      CharOccurs(s, c, i);
    }
    if Contains(s, [c]) {
      var i: nat :| i <= |s| && OccursAt(s, [c], i);
      CharOccurs(s, c, i);
    }
  }

  /** Kotlin `joinToString(separator = sep)`. */
  function Join(sep: string, xs: seq<string>): string
  {
    if |xs| == 0 then ""
    else if |xs| == 1 then xs[0]
    else xs[0] + sep + Join(sep, xs[1..])
  }

  /** Kotlin `s.split(sep)` for one non-empty delimiter: cut at the first
      occurrence, then split the rest (the library loop keeps a running
      offset; searching the suffix is the same, see IndexOfFromSuffix). */
  function Split(s: string, sep: string): (r: seq<string>)
    requires |sep| > 0
    ensures |r| >= 1
    decreases |s|
  {
    var j := IndexOf(s, sep);
    if j < 0 then [s] else [s[..j]] + Split(s[j + |sep|..], sep)
  }

  /** The definition of `Split`, one step unfolded. */
  lemma SplitUnfold(s: string, sep: string)
    requires |sep| > 0
    ensures var j := IndexOf(s, sep);
            j >= 0 ==> j + |sep| <= |s| && Split(s, sep) == [s[..j]] + Split(s[j + |sep|..], sep)
  {
  }

  /** One step of the library's split loop: the word up to the occurrence
      found from offset `i`, then the split of what follows it. */
  lemma SplitStep(s: string, sep: string, i: nat, j: int)
    requires |sep| > 0 && i <= |s| && j == IndexOfFrom(s, sep, i)
    ensures j >= 0 ==> j + |sep| <= |s| && Split(s[i..], sep) == [s[i..j]] + Split(s[j + |sep|..], sep)
    ensures j < 0 ==> Split(s[i..], sep) == [s[i..]]
  {
    var t := s[i..];
    IndexOfFromSuffix(s, sep, i);
    if j >= 0 {
      SplitUnfold(t, sep);
      assert t[..j - i] == s[i..j];
      assert t[j - i + |sep|..] == s[j + |sep|..];
    } else {
      assert IndexOf(t, sep) < 0;
    }
  }

  /** Joining the pieces of a split gives the string back. */
  lemma {:induction false} JoinSplit(s: string, sep: string)
    requires |sep| > 0
    ensures Join(sep, Split(s, sep)) == s
    decreases |s|
  {
    var j := IndexOf(s, sep);
    if j >= 0 {
      var head, rest := s[..j], s[j + |sep|..];
      var tail := Split(rest, sep);
      assert Split(s, sep) == [head] + tail by {
        SplitUnfold(s, sep);
      }
      JoinCons(sep, head, tail);
      JoinSplit(rest, sep);
      assert s == head + sep + rest by {
        assert s == s[..j] + s[j..j + |sep|] + s[j + |sep|..];
      }
    } else {
      assert Split(s, sep) == [s];
    }
  }

  /** Joining a list with a head is the head, the separator and the join of the rest. */
  lemma JoinCons(sep: string, x: string, xs: seq<string>)
    requires |xs| >= 1
    ensures Join(sep, [x] + xs) == x + sep + Join(sep, xs)
  {
    assert ([x] + xs)[1..] == xs;
  }

  /** No piece of a split contains the delimiter. */
  lemma {:induction false} SplitPiecesFree(s: string, sep: string)
    requires |sep| > 0
    ensures forall k :: 0 <= k < |Split(s, sep)| ==> !Contains(Split(s, sep)[k], sep)
    decreases |s|
  {
    var j := IndexOf(s, sep);
    IndexOfFirst(s, sep);
    if j >= 0 {
      SplitPiecesFree(s[j + |sep|..], sep);
      PrefixFree(s, sep, j);
    }
  }

  /** Nothing before the first occurrence contains the pattern. */
  lemma PrefixFree(s: string, sep: string, j: nat)
    requires j <= |s|
    requires forall i: nat :: i < j ==> !OccursAt(s, sep, i)
    requires |sep| > 0
    ensures !Contains(s[..j], sep)
  {
    if Contains(s[..j], sep) {
      var i: nat :| i <= |s[..j]| && OccursAt(s[..j], sep, i);
      assert i + |sep| <= j;
      assert s[i..i + |sep|] == s[..j][i..i + |sep|];
      assert OccursAt(s, sep, i);
      assert false;
    }
  }

  /** A separator with no proper prefix that is also a suffix ("\n", "\r\n"). */
  predicate BorderFree(sep: string) {
    forall k :: 0 < k < |sep| ==> sep[..k] != sep[|sep| - k..]
  }

  /** In `x + sep + rest` with `x` free of `sep`, the first occurrence of a
      border-free `sep` is right after `x`. */
  lemma FirstOccurrenceAfterFree(x: string, sep: string, rest: string)
    requires |sep| > 0 && BorderFree(sep) && !Contains(x, sep)
    ensures IndexOf(x + sep + rest, sep) == |x|
  {
    var s := x + sep + rest;
    assert s[|x|..|x| + |sep|] == sep;
    assert OccursAt(s, sep, |x|);
    var r := IndexOf(s, sep);
    IndexOfFirst(s, sep);
    EarlyOccurrence(x, sep, rest, r);
  }

  /** An occurrence of `sep` in `x + sep + rest` that starts inside `x` either
      lies in `x` or exhibits a border of `sep`. */
  lemma EarlyOccurrence(x: string, sep: string, rest: string, i: int)
    ensures (0 <= i < |x| && |sep| > 0 && OccursAt(x + sep + rest, sep, i)) ==>
            (Contains(x, sep) || !BorderFree(sep))
  {
    var s := x + sep + rest;
    if 0 <= i < |x| && |sep| > 0 && OccursAt(s, sep, i) {
      if i + |sep| <= |x| {
        assert s[i..i + |sep|] == x[i..i + |sep|];
        assert OccursAt(x, sep, i);
      } else {
        var k := |x| - i;
        var b := |sep| - k;
        forall t | 0 <= t < b
          ensures sep[k..][t] == sep[..b][t]
        {
          assert s[i + k + t] == sep[k + t];
          assert s[|x| + t] == sep[t];
        }
        assert sep[..b] == sep[|sep| - b..];
      }
    }
  }

  /** Splitting a join of delimiter-free pieces gives the pieces back. */
  lemma {:induction false} SplitJoin(xs: seq<string>, sep: string)
    requires |sep| > 0 && BorderFree(sep) && |xs| >= 1
    requires forall k :: 0 <= k < |xs| ==> !Contains(xs[k], sep)
    ensures Split(Join(sep, xs), sep) == xs
    decreases |xs|
  {
    if |xs| == 1 {
      assert !Contains(xs[0], sep);
    } else {
      var rest := Join(sep, xs[1..]);
      var s := xs[0] + sep + rest;
      assert Join(sep, xs) == s;
      assert Split(s, sep) == [xs[0]] + Split(rest, sep) by {
        FirstOccurrenceAfterFree(xs[0], sep, rest);
        SplitUnfold(s, sep);
        assert s[..|xs[0]|] == xs[0];
        assert s[|xs[0]| + |sep|..] == rest;
      }
      SplitJoin(xs[1..], sep);
      assert xs == [xs[0]] + xs[1..];
    }
  }

  /** Prefixing a delimiter-free string with a character the delimiter does
      not contain keeps it delimiter-free. */
  lemma PrefixKeepsFree(c: char, x: string, sep: string)
    requires |sep| > 0 && c !in sep && !Contains(x, sep)
    ensures !Contains([c] + x, sep)
  {
    forall i: nat | i <= |[c] + x|
      ensures !OccursAt([c] + x, sep, i)
    {
      ShiftedOccurrence(c, x, sep, i);
      Witness(x, sep, i - 1);
    }
  }

  /** An occurrence in `[c] + x` is at the front or shifted from one in `x`. */
  lemma ShiftedOccurrence(c: char, x: string, sep: string, i: nat)
    ensures OccursAt([c] + x, sep, i) && |sep| > 0 ==>
            (i == 0 && sep[0] == c) || (i > 0 && OccursAt(x, sep, i - 1))
  {
    var y := [c] + x;
    if OccursAt(y, sep, i) && |sep| > 0 && i > 0 {
      assert y[i..i + |sep|] == x[i - 1..i - 1 + |sep|];
    }
  }

  /** Prefixing with a string whose characters the delimiter avoids. */
  lemma PrefixStringKeepsFree(p: string, x: string, sep: string)
    requires |sep| > 0 && !Contains(x, sep)
    requires forall k :: 0 <= k < |p| ==> p[k] !in sep
    ensures !Contains(p + x, sep)
    decreases |p|
  {
    if |p| > 0 {
      PrefixStringKeepsFree(p[1..], x, sep);
      PrefixKeepsFree(p[0], p[1..] + x, sep);
      assert p + x == [p[0]] + (p[1..] + x);
    } else {
      assert p + x == x;
    }
  }

  /** Appending a string whose characters the delimiter avoids: an
      occurrence would have to end inside the suffix. */
  lemma SuffixStringKeepsFree(x: string, q: string, sep: string)
    requires |sep| > 0 && !Contains(x, sep)
    requires forall k :: 0 <= k < |q| ==> q[k] !in sep
    ensures !Contains(x + q, sep)
  {
    var y := x + q;
    forall i: nat | i <= |y|
      ensures !OccursAt(y, sep, i)
    {
      if OccursAt(y, sep, i) {
        var last := i + |sep| - 1;
        assert y[last] == sep[|sep| - 1];
        assert last < |x|;
        assert y[i..i + |sep|] == x[i..i + |sep|];
        Witness(x, sep, i);
      }
    }
  }

  /** Joining two non-empty lists is joining their joins. */
  lemma {:induction false} JoinAppend(sep: string, xs: seq<string>, ys: seq<string>)
    requires |xs| >= 1 && |ys| >= 1
    ensures Join(sep, xs + ys) == Join(sep, xs) + sep + Join(sep, ys)
    decreases |xs|
  {
    if |xs| > 1 {
      assert (xs + ys)[1..] == xs[1..] + ys;
      JoinAppend(sep, xs[1..], ys);
    } else {
      assert (xs + ys)[1..] == ys;
    }
  }

  /** Number of occurrences of `c` in `s`. */
  function CountChar(s: string, c: char): nat
  {
    if |s| == 0 then 0 else (if s[0] == c then 1 else 0) + CountChar(s[1..], c)
  }

  lemma {:induction false} CountCharAppend(a: string, b: string, c: char)
    ensures CountChar(a + b, c) == CountChar(a, c) + CountChar(b, c)
    decreases |a|
  {
    if |a| > 0 {
      CountCharAppend(a[1..], b, c);
      assert (a + b)[1..] == a[1..] + b;
    } else {
      assert a + b == b;
    }
  }

  lemma CountCharAbsent(s: string, c: char)
    requires c !in s
    ensures CountChar(s, c) == 0
  {
    if |s| > 0 {
      assert c !in s[1..];
      CountCharAbsent(s[1..], c);
    }
  }

  /** Splitting on one character yields (occurrences + 1) pieces. */
  lemma {:induction false} SplitCharCount(s: string, c: char)
    ensures |Split(s, [c])| == CountChar(s, c) + 1
    decreases |s|
  {
    var j := IndexOf(s, [c]);
    IndexOfFirst(s, [c]);
    if j < 0 {
      ContainsChar(s, c);
      CountCharAbsent(s, c);
    } else {
      CharOccurs(s, c, j);
      SplitCharCount(s[j + 1..], c);
      assert s == s[..j] + [c] + s[j + 1..];
      CountCharAppend(s[..j] + [c], s[j + 1..], c);
      CountCharAppend(s[..j], [c], c);
      forall i | 0 <= i < j ensures s[..j][i] != c {
        CharOccurs(s, c, i);
      }
      CountCharAbsent(s[..j], c);
    }
  }

  /** `c` does not occur in any piece of a split on `c`. */
  lemma SplitCharPieces(s: string, c: char)
    ensures forall k :: 0 <= k < |Split(s, [c])| ==> c !in Split(s, [c])[k]
  {
    SplitPiecesFree(s, [c]);
    forall k | 0 <= k < |Split(s, [c])| ensures c !in Split(s, [c])[k] {
      ContainsChar(Split(s, [c])[k], c);
    }
  }

  /** Total length of the pieces. */
  function SumLengths(xs: seq<string>): nat
  {
    if |xs| == 0 then 0 else |xs[0]| + SumLengths(xs[1..])
  }

  lemma {:induction false} JoinLength(sep: string, xs: seq<string>)
    requires |xs| >= 1
    ensures |Join(sep, xs)| == SumLengths(xs) + (|xs| - 1) * |sep|
    decreases |xs|
  {
    if |xs| > 1 {
      JoinLength(sep, xs[1..]);
    }
  }

  /** ASCII upper-casing of one character. */
  function UpperChar(c: char): char
  {
    if 'a' <= c <= 'z' then (c as int - 32) as char else c
  }

  /** `uppercase()` restricted to ASCII letters. */
  function Upper(s: string): (r: string)
    ensures |r| == |s|
    ensures forall i :: 0 <= i < |s| ==> r[i] == UpperChar(s[i])
  {
    seq(|s|, i requires 0 <= i < |s| => UpperChar(s[i]))
  }

  /** ASCII lower-casing of one character. */
  function LowerChar(c: char): char
  {
    if 'A' <= c <= 'Z' then (c as int + 32) as char else c
  }

  /** `lowercase()` restricted to ASCII letters. */
  function Lower(s: string): (r: string)
    ensures |r| == |s|
    ensures forall i :: 0 <= i < |s| ==> r[i] == LowerChar(s[i])
  {
    seq(|s|, i requires 0 <= i < |s| => LowerChar(s[i]))
  }

  /** Upper-casing undoes lower-casing on text without lower-case letters. */
  lemma UpperLower(s: string)
    requires forall i :: 0 <= i < |s| ==> !('a' <= s[i] <= 'z')
    ensures Upper(Lower(s)) == s
  {
  }

  lemma UpperAppend(a: string, b: string)
    ensures Upper(a + b) == Upper(a) + Upper(b)
  {
  }

  /** Kotlin `startsWith(prefix)`. */
  predicate StartsWith(s: string, prefix: string) {
    |prefix| <= |s| && s[..|prefix|] == prefix
  }

  /** Kotlin `replace(old, "")`: deletes every left-to-right occurrence. */
  function RemoveAll(s: string, pat: string): (r: string)
    requires |pat| > 0
    ensures |r| <= |s|
    decreases |s|
  {
    var j := IndexOf(s, pat);
    if j < 0 then s else s[..j] + RemoveAll(s[j + |pat|..], pat)
  }

  lemma RemoveAllAbsent(s: string, pat: string)
    requires |pat| > 0 && !Contains(s, pat)
    ensures RemoveAll(s, pat) == s
  {
  }

  /** Deleting every occurrence is splitting at them and joining the pieces
      with nothing in between. */
  lemma {:induction false} RemoveAllSplit(s: string, pat: string)
    requires |pat| > 0
    ensures RemoveAll(s, pat) == Join("", Split(s, pat))
    decreases |s|
  {
    var j := IndexOf(s, pat);
    if j >= 0 {
      var rest := s[j + |pat|..];
      RemoveAllSplit(rest, pat);
      SplitUnfold(s, pat);
      JoinCons("", s[..j], Split(rest, pat));
    }
  }

  // ----- UTF-16 code units -----

  /** The UTF-16 code units Java stores for one character: the character
      itself below U+10000, a surrogate pair above it. */
  function CodeUnits(c: char): (r: seq<int>)
    ensures c as int < 0x1_0000 ==> r == [c as int]
    ensures c as int >= 0x1_0000 ==> |r| == 2 && 0xD800 <= r[0] && 0xDC00 <= r[1] < 0xE000
  {
    var v := c as int;
    if v < 0x1_0000 then [v]
    else [0xD800 + (v - 0x1_0000) / 0x400, 0xDC00 + (v - 0x1_0000) % 0x400]
  }

  /** The code units of a Java string, character by character. */
  function Utf16(s: string): (r: seq<int>)
    ensures |r| >= |s|
    decreases |s|
  {
    if |s| == 0 then [] else Utf16(s[..|s| - 1]) + CodeUnits(s[|s| - 1])
  }

  /** Java `s.length()`: the number of code units, which exceeds the number
      of characters by one for each character above U+FFFF. */
  function JavaLength(s: string): (r: nat)
    ensures r >= |s|
  {
    |Utf16(s)|
  }

  lemma {:induction false} Utf16Append(a: string, b: string)
    ensures Utf16(a + b) == Utf16(a) + Utf16(b)
    decreases |b|
  {
    if |b| == 0 {
      assert a + b == a;
    } else {
      var b' := b[..|b| - 1];
      assert (a + b)[..|a + b| - 1] == a + b';
      assert (a + b)[|a + b| - 1] == b[|b| - 1];
      Utf16Append(a, b');
    }
  }

  /** A string of characters below U+10000 has one code unit per character. */
  lemma {:induction false} Utf16Bmp(s: string)
    requires forall i :: 0 <= i < |s| ==> s[i] as int < 0x1_0000
    ensures Utf16(s) == seq(|s|, i requires 0 <= i < |s| => s[i] as int)
    decreases |s|
  {
    if |s| > 0 {
      Utf16Bmp(s[..|s| - 1]);
    }
  }

  // ----- the polynomial hash of java.lang.String -----

  const HASH_MODULUS: nat := 0x1_0000_0000

  function Pow31(n: nat): nat
  {
    if n == 0 then 1 else 31 * Pow31(n - 1)
  }

  /** `h = 31 * h + unit` over the code units, in 32-bit arithmetic. */
  function PolyHash(u: seq<int>): (h: nat)
    ensures h < HASH_MODULUS
    decreases |u|
  {
    if |u| == 0 then 0 else (31 * PolyHash(u[..|u| - 1]) + u[|u| - 1]) % HASH_MODULUS
  }

  /** The polynomial the hash reduces: `31 * h + unit` over the code
      units, without the 32-bit wrap-around. */
  function PolyValue(u: seq<int>): int
    decreases |u|
  {
    if |u| == 0 then 0 else 31 * PolyValue(u[..|u| - 1]) + u[|u| - 1]
  }

  /** Wrapping after every step is wrapping once at the end. */
  lemma {:induction false} PolyHashValue(u: seq<int>)
    ensures PolyHash(u) == PolyValue(u) % HASH_MODULUS
    decreases |u|
  {
    if |u| > 0 {
      PolyHashValue(u[..|u| - 1]);
      ModTimes31(PolyValue(u[..|u| - 1]), u[|u| - 1]);
    }
  }

  /** The polynomial of a concatenation: the first part's value shifted by
      one factor 31 per unit of the second, plus the second part's value. */
  lemma {:induction false} PolyValueConcat(a: seq<int>, b: seq<int>)
    ensures PolyValue(a + b) == Pow31(|b|) * PolyValue(a) + PolyValue(b)
    decreases |b|
  {
    if |b| == 0 {
      assert a + b == a;
    } else {
      var b' := b[..|b| - 1];
      var x := b[|b| - 1];
      var p, va, vb := Pow31(|b'|), PolyValue(a), PolyValue(b');
      assert (a + b)[..|a + b| - 1] == a + b';
      assert (a + b)[|a + b| - 1] == x;
      calc {
        PolyValue(a + b);
        31 * PolyValue(a + b') + x;
        { PolyValueConcat(a, b'); }
        31 * (p * va + vb) + x;
        (31 * p) * va + (31 * vb + x);
        Pow31(|b|) * va + PolyValue(b);
      }
    }
  }

  /** The hash of a concatenation: the first part's hash shifted by one
      factor 31 per code unit of the second part, plus the second part's hash. */
  lemma PolyHashConcat(a: seq<int>, b: seq<int>)
    ensures PolyHash(a + b) == (Pow31(|b|) * PolyHash(a) + PolyHash(b)) % HASH_MODULUS
  {
    PolyHashValue(a + b);
    PolyHashValue(a);
    PolyHashValue(b);
    PolyValueConcat(a, b);
    ModLinear(Pow31(|b|), PolyValue(a), PolyValue(b));
  }

  /** Reducing a factor and a summand first does not change the result. */
  lemma ModLinear(k: int, v: int, w: int)
    ensures (k * (v % HASH_MODULUS) + w % HASH_MODULUS) % HASH_MODULUS == (k * v + w) % HASH_MODULUS
  {
    ModInner(k * (v % HASH_MODULUS), w);
    var q := v / HASH_MODULUS;
    assert v == q * HASH_MODULUS + v % HASH_MODULUS;
    assert k * v + w == (k * q) * HASH_MODULUS + (k * (v % HASH_MODULUS) + w);
  }

  lemma ModTimes31(v: int, x: int)
    ensures (31 * (v % HASH_MODULUS) + x) % HASH_MODULUS == (31 * v + x) % HASH_MODULUS
  {
    var q := v / HASH_MODULUS;
    assert v == q * HASH_MODULUS + v % HASH_MODULUS;
    assert 31 * v + x == (31 * q) * HASH_MODULUS + (31 * (v % HASH_MODULUS) + x);
  }

  lemma ModInner(v: int, w: int)
    ensures (v + w % HASH_MODULUS) % HASH_MODULUS == (v + w) % HASH_MODULUS
  {
    var q := w / HASH_MODULUS;
    assert w == q * HASH_MODULUS + w % HASH_MODULUS;
  }
}
