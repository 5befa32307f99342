/** `FileLocalStringEnumerator`: the per-file string table of a stub. While a
    stub is saved, strings are numbered from 1 in the order they are first
    seen, and 0 stands for `null`; while a stub is loaded, the table is only
    read back by index, and there is no reverse map. */
module StringEnumerator {
  import opened Wrappers

  /** `myEnumerates` (present only when saving a stub) and `myStrings`. */
  datatype Enumerator = Enumerator(enumerates: Option<map<string, int>>, strings: seq<string>)

  /** The failures: `assert myEnumerates != null`, and `myStrings.get` with an
      index outside the list. */
  datatype EnumeratorError = NotSaving | IndexOutOfBounds(index: int)

  /** The constructor: an empty table, with the reverse map only for saving. */
  function New(forSavingStub: bool): (r: Enumerator)
    ensures r.strings == [] && (r.enumerates.Some? <==> forSavingStub)
    ensures Valid(r)
  {
    Enumerator(if forSavingStub then Some(map[]) else None, [])
  }

  /** The reverse map is the inverse of the list: the strings are distinct,
      the map's keys are exactly the listed strings, and each is mapped to
      its 1-based position. */
  predicate Valid(e: Enumerator) {
    e.enumerates.Some? ==>
      (forall i, j :: 0 <= i < j < |e.strings| ==> e.strings[i] != e.strings[j]) &&
      (forall s :: s in e.enumerates.value ==> s in e.strings) &&
      (forall i :: 0 <= i < |e.strings| ==>
         e.strings[i] in e.enumerates.value && e.enumerates.value[e.strings[i]] == i + 1)
  }

  /** `TObjectIntHashMap.get`: 0 for a missing key. */
  function Lookup(m: map<string, int>, s: string): (r: int)
    ensures s !in m ==> r == 0
  {
    Get(m, s).GetOr(0)
  }

  /** `enumerate(value)`: 0 for `null`; otherwise the string's index, giving
      a string not seen before the next index and appending it. */
  function Enumerate(e: Enumerator, value: Option<string>): (r: Result<(Enumerator, int), EnumeratorError>)
    ensures value.None? ==> r == Success((e, 0))
    ensures value.Some? ==> (r.Failure? <==> e.enumerates.None?)
    ensures r.Failure? ==> r.error == NotSaving
  {
    if value.None? then Success((e, 0))
    else if e.enumerates.None? then Failure(NotSaving)
    else
      var m := e.enumerates.value;
      var i := Lookup(m, value.value);
      if i == 0 then
        var i' := |e.strings| + 1;
        Success((Enumerator(Some(m[value.value := i']), e.strings + [value.value]), i'))
      else Success((e, i))
  }

  /** `valueOf(idx)`: `null` for 0, otherwise the string at 1-based `idx`. */
  function ValueOf(e: Enumerator, idx: int): (r: Result<Option<string>, EnumeratorError>)
    ensures idx == 0 ==> r == Success(None)
    ensures r.Failure? <==> idx != 0 && !(1 <= idx <= |e.strings|)
    ensures r.Success? && idx != 0 ==> r.value == Some(e.strings[idx - 1])
  {
    if idx == 0 then Success(None)
    else if 1 <= idx <= |e.strings| then Success(Some(e.strings[idx - 1]))
    else Failure(IndexOutOfBounds(idx - 1))
  }

  /** Appending a string not yet listed, under the next index, keeps the
      map the inverse of the list. */
  lemma AppendKeepsValid(e: Enumerator, s: string)
    requires Valid(e) && e.enumerates.Some? && s !in e.strings
    ensures Valid(Enumerator(Some(e.enumerates.value[s := |e.strings| + 1]), e.strings + [s]))
  {
    var strings' := e.strings + [s];
    assert forall i :: 0 <= i < |e.strings| ==> strings'[i] == e.strings[i];
    assert forall t :: t in strings' <==> t in e.strings || t == s;
  }

  /** A listed string enumerates to its position and changes nothing. */
  lemma EnumerateKnown(e: Enumerator, s: string)
    requires Valid(e) && e.enumerates.Some? && s in e.strings
    ensures var r := Enumerate(e, Some(s));
            r.Success? && r.value.0 == e && 1 <= r.value.1 <= |e.strings| && e.strings[r.value.1 - 1] == s
  {
    var i :| 0 <= i < |e.strings| && e.strings[i] == s;
    assert e.enumerates.value[s] == i + 1;
  }

  /** Enumerating keeps the map the inverse of the list; a known string gets
      its index and changes nothing, a new one gets the next index and is
      appended. */
  lemma EnumerateSpec(e: Enumerator, s: string)
    requires Valid(e) && e.enumerates.Some?
    ensures var r := Enumerate(e, Some(s));
            r.Success? && Valid(r.value.0) && r.value.0.enumerates.Some? && r.value.1 >= 1
    ensures var r := Enumerate(e, Some(s));
            s in e.strings ==> r.value.0 == e && e.strings[r.value.1 - 1] == s
    ensures var r := Enumerate(e, Some(s));
            s !in e.strings ==> r.value.0.strings == e.strings + [s] && r.value.1 == |e.strings| + 1
  {
    if s in e.strings {
      EnumerateKnown(e, s);
    } else {
      AppendKeepsValid(e, s);
    }
  }

  /** Round trip: the index `enumerate` hands out reads back as the string. */
  lemma EnumerateValueOf(e: Enumerator, s: string)
    requires Valid(e) && e.enumerates.Some?
    ensures var r := Enumerate(e, Some(s)).value;
            ValueOf(r.0, r.1) == Success(Some(s))
  {
    EnumerateSpec(e, s);
  }

  /** Idempotence: enumerating the same string again returns the same index
      and leaves the table as it was. */
  lemma EnumerateIdempotent(e: Enumerator, s: string)
    requires Valid(e) && e.enumerates.Some?
    ensures var r1 := Enumerate(e, Some(s)).value;
            Enumerate(r1.0, Some(s)) == Success(r1)
  {
    EnumerateSpec(e, s);
    var r1 := Enumerate(e, Some(s)).value;
    EnumerateSpec(r1.0, s);
  }

  /** The other direction of the bijection: every listed string enumerates
      to its position without changing the table. */
  lemma ValueOfEnumerate(e: Enumerator, idx: int)
    requires Valid(e) && e.enumerates.Some? && 1 <= idx <= |e.strings|
    ensures ValueOf(e, idx).Success? && ValueOf(e, idx).value.Some?
    ensures Enumerate(e, ValueOf(e, idx).value) == Success((e, idx))
  {
    assert e.strings[idx - 1] in e.strings;
  }

  /** Two different strings never share an index. */
  lemma EnumerateInjective(e: Enumerator, s: string, t: string)
    requires Valid(e) && e.enumerates.Some? && s != t
    ensures var r1 := Enumerate(e, Some(s)).value;
            var r2 := Enumerate(r1.0, Some(t)).value;
            r1.1 != r2.1
  {
    EnumerateValueOf(e, s);
    EnumerateSpec(e, s);
    var r1 := Enumerate(e, Some(s)).value;
    EnumerateValueOf(r1.0, t);
    EnumerateSpec(r1.0, t);
    var r2 := Enumerate(r1.0, Some(t)).value;
    if r2.0 == r1.0 {
      assert r1.0.strings[r1.1 - 1] == s;
    } else {
      assert r2.0.strings[r1.1 - 1] == s;
    }
  }
}
