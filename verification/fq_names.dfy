/** `FqNameUnsafe`: a dot-separated qualified name kept as its string, with
    the lazily computed parent / short name cache and the cached hash. A
    `Name` is foreign and is modelled as its string. */
module FqNames {
  import opened Wrappers
  import opened Strings

  type Name = string

  /** The short name printed for the root (`Name.special("<root>")`). */
  const ROOT_NAME: Name := "<root>"

  datatype Exception = IllegalState(message: string) | ArrayIndexOutOfBounds(index: nat)

  /** `hasSafe` stands for the `safe` cache being non-null; `cache` for the
      `parent` / `shortName` pair, which every writer sets together. */
  datatype FqNameUnsafe = FqNameUnsafe(fqName: string, hasSafe: bool, cache: Cache)
  datatype Cache = NotComputed | Computed(parent: FqNameUnsafe, shortName: Name)

  /** `FqName.ROOT.toUnsafe()`: the empty name, created with its safe twin. */
  const ROOT: FqNameUnsafe := FqNameUnsafe("", true, NotComputed)

  /** The public constructor `FqNameUnsafe(String)`. */
  function FromString(s: string): FqNameUnsafe
  {
    FqNameUnsafe(s, false, NotComputed)
  }

  predicate IsRoot(f: FqNameUnsafe) {
    f.fqName == ""
  }

  /** `isValid(qualifiedName)`: non-null and free of `/` and `*`. */
  function IsValid(qualifiedName: Option<string>): (r: bool)
    ensures r <==> qualifiedName.Some? && '/' !in qualifiedName.value && '*' !in qualifiedName.value
  {
    match qualifiedName
    case None => false
    case Some(q) =>
      ContainsChar(q, '/');
      ContainsChar(q, '*');
      IndexOfFirst(q, "/");
      IndexOfFirst(q, "*");
      IndexOf(q, "/") < 0 && IndexOf(q, "*") < 0
  }

  /** `isSafe()`: a safe twin exists or the text has no `<`. */
  function IsSafe(f: FqNameUnsafe): (r: bool)
    ensures r <==> f.hasSafe || '<' !in f.fqName
  {
    ContainsChar(f.fqName, '<');
    IndexOfFirst(f.fqName, "<");
    f.hasSafe || IndexOf(f.fqName, "<") < 0
  }

  /** The string of `child(name)` under a parent with string `parent`. */
  function ChildString(parent: string, name: Name): string
  {
    if parent == "" then name else parent + "." + name
  }

  /** `compute()`: split at the last dot; with no dot the parent is the root. */
  function Compute(f: FqNameUnsafe): (r: (FqNameUnsafe, Name))
    ensures '.' !in r.1
    ensures r.0.fqName == "" || '.' in f.fqName
    ensures |r.0.fqName| < |f.fqName| || f.fqName == ""
    ensures '.' in f.fqName ==> f.fqName == r.0.fqName + "." + r.1
    ensures '.' !in f.fqName ==> r.0 == ROOT && r.1 == f.fqName
  {
    var s := f.fqName;
    var lastDot := LastIndexOf(s, '.');
    if lastDot >= 0 then
      assert s == s[..lastDot] + "." + s[lastDot + 1..];
      (FromString(s[..lastDot]), s[lastDot + 1..])
    else
      (ROOT, s)
  }

  /** `parent()`: the cache wins; otherwise the root throws. */
  function Parent(f: FqNameUnsafe): (r: Result<FqNameUnsafe, Exception>)
    ensures f.cache.Computed? ==> r == Success(f.cache.parent)
    ensures f.cache.NotComputed? && IsRoot(f) ==> r == Failure(IllegalState("root"))
    ensures f.cache.NotComputed? && !IsRoot(f) ==>
              r.Success? && |r.value.fqName| < |f.fqName| &&
              ('.' in f.fqName ==> f.fqName == r.value.fqName + "." + ShortName(f).value) &&
              ('.' !in f.fqName ==> r.value == ROOT)
  {
    if f.cache.Computed? then Success(f.cache.parent)
    else if IsRoot(f) then Failure(IllegalState("root"))
    else Success(Compute(f).0)
  }

  /** `shortName()`: the cache wins; otherwise the root throws. */
  function ShortName(f: FqNameUnsafe): (r: Result<Name, Exception>)
    ensures f.cache.Computed? ==> r == Success(f.cache.shortName)
    ensures f.cache.NotComputed? && IsRoot(f) ==> r == Failure(IllegalState("root"))
    ensures f.cache.NotComputed? && !IsRoot(f) ==> r.Success? && '.' !in r.value
  {
    if f.cache.Computed? then Success(f.cache.shortName)
    else if IsRoot(f) then Failure(IllegalState("root"))
    else Success(Compute(f).1)
  }

  /** `child(name)`: the new name caches its parent and short name. */
  function Child(f: FqNameUnsafe, name: Name): (r: FqNameUnsafe)
    ensures Parent(r) == Success(f)
    ensures ShortName(r) == Success(name)
    ensures IsRoot(f) ==> r.fqName == name
    ensures !IsRoot(f) ==> r.fqName == f.fqName + "." + name
  {
    FqNameUnsafe(ChildString(f.fqName, name), false, Computed(f, name))
  }

  /** `topLevel(shortName)`. */
  function TopLevel(shortName: Name): (r: FqNameUnsafe)
    ensures r.fqName == shortName && Parent(r) == Success(ROOT) && ShortName(r) == Success(shortName)
  {
    FqNameUnsafe(shortName, false, Computed(ROOT, shortName))
  }

  /** `shortNameOrSpecial()`: `<root>` for the root, never throws. */
  function ShortNameOrSpecial(f: FqNameUnsafe): (r: Name)
    ensures IsRoot(f) ==> r == ROOT_NAME
    ensures !IsRoot(f) ==> ShortName(f) == Success(r)
  {
    if IsRoot(f) then ROOT_NAME else ShortName(f).value
  }

  /** `toString()`: the special root text, or the path segments joined by
      dots. */
  function ToString(f: FqNameUnsafe): (r: string)
    ensures IsRoot(f) ==> r == ROOT_NAME
    ensures !IsRoot(f) ==> r == Join(".", PathSegments(f))
  {
    if IsRoot(f) then ROOT_NAME else f.fqName
  }

  /** A cache agrees with the string when the string is what `child` builds. */
  predicate CacheConsistent(f: FqNameUnsafe) {
    f.cache.Computed? ==> f.fqName == ChildString(f.cache.parent.fqName, f.cache.shortName)
  }

  /** `parent().child(shortName())` restores the string of a non-root name.
      A name whose only dot is its first character (".a") is the exception:
      its parent is the root and the child of the root drops the dot. */
  lemma ParentChildRoundTrip(f: FqNameUnsafe)
    requires !IsRoot(f) && CacheConsistent(f)
    requires f.cache.NotComputed? ==> LastIndexOf(f.fqName, '.') != 0
    ensures Parent(f).Success? && ShortName(f).Success?
    ensures Child(Parent(f).value, ShortName(f).value).fqName == f.fqName
  {
  }

  /** The exception to the round trip: ".a" comes back as "a". */
  lemma LeadingDotRoundTrip()
    ensures Child(Parent(FromString(".a")).value, ShortName(FromString(".a")).value).fqName == "a"
  {
    assert LastIndexOf(".a", '.') == 0;
  }

  // ----- path segments -----

  /** `pathStringSegments()` as written: the words are first stored in a
      buffer of `length() / 2 + 1` slots, `length()` counting UTF-16 code
      units, which a name with empty segments overruns
      (`ArrayIndexOutOfBoundsException`). The buffer is the sequence `temp`
      of filled slots together with its fixed `capacity`. */
  method PathStringSegmentsAsWritten(f: FqNameUnsafe) returns (r: Result<seq<string>, Exception>)
    ensures r.Success? ==> r.value == Split(f.fqName, ".")
    ensures r.Failure? <==> CountChar(f.fqName, '.') + 1 > JavaLength(f.fqName) / 2 + 1
  {
    SplitCharCount(f.fqName, '.');
    var temp, overrun := FillWords(f.fqName, JavaLength(f.fqName) / 2 + 1);
    if overrun {
      return Failure(ArrayIndexOutOfBounds(|temp|));
    }
    r := Success(temp);
  }

  /** The word loop of `pathStringSegments()` writing into a buffer of
      `capacity` slots: it overruns exactly when there are more words than
      slots, and otherwise fills the buffer with the words. */
  method FillWords(s: string, capacity: nat) returns (temp: seq<string>, overrun: bool)
    ensures overrun <==> |Split(s, ".")| > capacity
    ensures overrun ==> |temp| == capacity
    ensures !overrun ==> temp == Split(s, ".")
  {
    var i, j;
    temp, i, j := WriteWords(s, capacity);
    if j >= 0 {
      // the buffer is full and another word is about to be written
      WordAdvance(s, i, j, temp);
      return temp, true;
    }
    LastWord(s, i, temp);
    if |temp| >= capacity {
      return temp, true;
    }
    temp := temp + [s[i..]];
    overrun := false;
  }

  /** The loop of `pathStringSegments()` while the buffer has room: it
      writes the word before each dot, and stops at the last word or when
      the buffer is full. */
  method WriteWords(s: string, capacity: nat) returns (temp: seq<string>, i: nat, j: int)
    ensures i <= |s| && |temp| <= capacity && j == IndexOfFrom(s, ".", i)
    ensures j >= 0 ==> |temp| == capacity
    ensures WordsBefore(s, i, temp)
  {
    temp := [];
    i := 0;
    j := IndexOfFrom(s, ".", 0);
    WordsFromStart(s);
    while j >= 0 && |temp| < capacity
      invariant i <= |s|
      invariant |temp| <= capacity
      invariant j == IndexOfFrom(s, ".", i)
      invariant WordsBefore(s, i, temp)
      decreases |s| - i
    {
      WordAdvance(s, i, j, temp);
      temp := temp + [s[i..j]];
      i := j + 1;
      j := IndexOfFrom(s, ".", i);
    }
  }

  /** The words written so far, followed by the words of the text from
      `i` on, are all the words. */
  predicate WordsBefore(s: string, i: nat, done: seq<string>)
    requires i <= |s|
  {
    done + Split(s[i..], ".") == Split(s, ".")
  }

  /** Before the word loop: no word written, all of them still to come. */
  lemma WordsFromStart(s: string)
    ensures WordsBefore(s, 0, [])
  {
    assert s[0..] == s;
  }

  /** One iteration of the word loop: the word before the dot found at `j`
      is the next word, and at least one more follows it. */
  lemma WordAdvance(s: string, i: nat, j: int, done: seq<string>)
    requires i <= |s| && j >= 0 && j == IndexOfFrom(s, ".", i)
    requires WordsBefore(s, i, done)
    ensures i <= j < |s|
    ensures WordsBefore(s, j + 1, done + [s[i..j]])
    ensures |Split(s, ".")| >= |done| + 2
  {
    SplitStep(s, ".", i, j);
    assert done + Split(s[i..], ".") == done + ([s[i..j]] + Split(s[j + 1..], "."));
  }

  /** The last word: no dot after `i`. */
  lemma LastWord(s: string, i: nat, done: seq<string>)
    requires i <= |s| && IndexOfFrom(s, ".", i) < 0
    requires WordsBefore(s, i, done)
    ensures done + [s[i..]] == Split(s, ".")
  {
    SplitStep(s, ".", i, -1);
  }

  /** The overrun is reachable: `"."` has two empty words and one slot. */
  method PathStringSegmentsOverrun() returns (r: Result<seq<string>, Exception>)
    ensures r.Failure?
  {
    assert CountChar(".", '.') == 1;
    r := PathStringSegmentsAsWritten(FromString("."));
  }

  /** Without empty segments the buffer of `length() / 2 + 1` is large enough. */
  lemma NoEmptySegmentFits(s: string)
    requires forall k :: 0 <= k < |Split(s, ".")| ==> Split(s, ".")[k] != ""
    ensures CountChar(s, '.') + 1 <= JavaLength(s) / 2 + 1
  {
    var segs := Split(s, ".");
    JoinSplit(s, ".");
    JoinLength(".", segs);
    SumLengthsAtLeastCount(segs);
    SplitCharCount(s, '.');
  }

  lemma {:induction false} SumLengthsAtLeastCount(xs: seq<string>)
    requires forall k :: 0 <= k < |xs| ==> xs[k] != ""
    ensures SumLengths(xs) >= |xs|
    decreases |xs|
  {
    if |xs| > 0 {
      SumLengthsAtLeastCount(xs[1..]);
    }
  }

  /** `pathStringSegments()` with a buffer sized by the number of dots: the
      words, which joined with `.` give the name back. */
  method PathStringSegments(f: FqNameUnsafe) returns (r: seq<string>)
    ensures r == Split(f.fqName, ".")
    ensures Join(".", r) == f.fqName
    ensures |r| == CountChar(f.fqName, '.') + 1
    ensures forall k :: 0 <= k < |r| ==> '.' !in r[k]
  {
    var s := f.fqName;
    SplitCharCount(s, '.');
    var overrun;
    r, overrun := FillWords(s, CountChar(s, '.') + 1);
    JoinSplit(s, ".");
    SplitCharPieces(s, '.');
  }

  /** `pathSegments()`: no segments for the root, the words otherwise. */
  function PathSegments(f: FqNameUnsafe): (r: seq<Name>)
    ensures IsRoot(f) ==> r == []
    ensures !IsRoot(f) ==> |r| == CountChar(f.fqName, '.') + 1 && Join(".", r) == f.fqName
  {
    SplitCharCount(f.fqName, '.');
    JoinSplit(f.fqName, ".");
    if IsRoot(f) then [] else Split(f.fqName, ".")
  }

  // ----- startsWith -----

  /** Java `s.regionMatches(toffset, other, ooffset, len)`. */
  function RegionMatches(s: string, toffset: int, other: string, ooffset: int, len: int): bool
  {
    if ooffset < 0 || toffset < 0 || toffset > |s| - len || ooffset > |other| - len then false
    else if len <= 0 then true
    else s[toffset..toffset + len] == other[ooffset..ooffset + len]
  }

  function Max(a: int, b: int): int {
    if a >= b then a else b
  }

  /** `startsWith(segment)` as written: with a dot present only the first
      `firstDot` characters of the segment are compared. */
  function StartsWithAsWritten(f: FqNameUnsafe, segment: Name): (r: bool)
    ensures IsRoot(f) ==> !r
    ensures '.' !in f.fqName ==> (r <==> !IsRoot(f) && segment == f.fqName)
    ensures '.' in f.fqName ==>
              var d := IndexOf(f.fqName, ".");
              0 <= d && (r <==> |segment| >= d && segment[..d] == f.fqName[..d])
  {
    ContainsChar(f.fqName, '.');
    IndexOfFirst(f.fqName, ".");
    if IsRoot(f) then false
    else
      var firstDot := IndexOf(f.fqName, ".");
      RegionMatches(f.fqName, 0, segment, 0,
                    if firstDot == -1 then Max(|f.fqName|, |segment|) else firstDot)
  }

  /** `"ab.x".startsWith("abc")` holds although the first segment is `ab`. */
  lemma StartsWithAcceptsLongerSegment()
    ensures StartsWithAsWritten(FromString("ab.x"), "abc")
    ensures Split("ab.x", ".")[0] == "ab"
  {
    assert OccursAt("ab.x", ".", 2);
    assert "ab.x"[0..1] == "a" && "ab.x"[1..2] == "b";
    assert !OccursAt("ab.x", ".", 0) && !OccursAt("ab.x", ".", 1);
    assert IndexOf("ab.x", ".") == 2;
    assert "ab.x"[..2] == "ab";
    ContainsChar("ab.x", '.');
  }

  /** `startsWith(segment)` comparing the whole first segment: the length of
      the segment must equal the length of the first word. */
  function StartsWith(f: FqNameUnsafe, segment: Name): (r: bool)
    ensures r <==> !IsRoot(f) && Split(f.fqName, ".")[0] == segment
  {
    ContainsChar(f.fqName, '.');
    IndexOfFirst(f.fqName, ".");
    if IsRoot(f) then false
    else
      var firstDot := IndexOf(f.fqName, ".");
      var length := if firstDot == -1 then |f.fqName| else firstDot;
      length == |segment| && RegionMatches(f.fqName, 0, segment, 0, length)
  }

  // ----- equality and hashing -----

  /** `java.lang.String.hashCode()` before the signed reinterpretation: the
      polynomial hash of the UTF-16 code units. */
  function StringHashUnsigned(s: string): (h: nat)
    ensures h < 0x1_0000_0000
  {
    PolyHash(Utf16(s))
  }

  /** The hash of a concatenation, as `hashCode` computes it over the code
      units: the first part's hash times 31 per code unit of the second,
      plus the second part's hash, modulo 2^32. */
  lemma StringHashConcat(a: string, b: string)
    ensures StringHashUnsigned(a + b) ==
            (Pow31(JavaLength(b)) * StringHashUnsigned(a) + StringHashUnsigned(b)) % 0x1_0000_0000
  {
    var ua, ub := Utf16(a), Utf16(b);
    assert StringHashUnsigned(a + b) == PolyHash(ua + ub) by {
      Utf16Append(a, b);
    }
    assert JavaLength(b) == |ub|;
    PolyHashConcat(ua, ub);
  }

  /** A character above U+FFFF counts twice in `length()` and enters the
      hash as its surrogate pair: the three words of "\U{1F600}.." fit the
      buffer of `pathStringSegments()`. */
  lemma SupplementaryCharacter()
    ensures JavaLength("\U{1F600}..") == 4
    ensures CountChar("\U{1F600}..", '.') + 1 <= JavaLength("\U{1F600}..") / 2 + 1
    ensures StringHash("\U{1F600}") == 31 * 0xD83D + 0xDE00
  {
    var u := Utf16("\U{1F600}");
    assert u == [0xD83D, 0xDE00];
    assert u[..1] == [0xD83D] && [0xD83D][..0] == [];
    assert PolyHash([0xD83D]) == 0xD83D;
    assert PolyHash(u) == 31 * 0xD83D + 0xDE00;
    assert "\U{1F600}.."[..2] == "\U{1F600}.";
    assert "\U{1F600}."[..1] == "\U{1F600}";
  }

  /** `java.lang.String.hashCode()` as a 32-bit signed value. */
  function StringHash(s: string): (h: int)
    ensures -0x8000_0000 <= h < 0x8000_0000
  {
    var u := StringHashUnsigned(s);
    if u >= 0x8000_0000 then u - 0x1_0000_0000 else u
  }

  /** `hashCode()`: the hash cached at construction. */
  function HashCode(f: FqNameUnsafe): int
  {
    StringHash(f.fqName)
  }

  /** `equals(o)`: the cached-hash shortcut never changes the verdict,
      which depends on the strings alone. */
  function Equals(a: FqNameUnsafe, b: FqNameUnsafe): (r: bool)
    ensures r <==> a.fqName == b.fqName
    ensures r ==> HashCode(a) == HashCode(b)
  {
    if HashCode(a) != HashCode(b) then false else a.fqName == b.fqName
  }
}
