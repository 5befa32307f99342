/** The three write policies of the mutable maps the actualizer builds from a
    sequence of `(key, value)` writes, each with an independent reference
    definition read from the writes themselves:
      - `map[key] = value` keeps the last write (`Overwrite` / `LastWrite`);
      - `map.getOrPut(key) { value }` keeps the first (`KeepFirst` / `FirstWrite`);
      - `map.getOrPut(key) { mutableListOf() }.add(value)` keeps them all in
        order (`Group` / `Select`);
    plus the insertion-ordered set (`LinkedHashSet.add`, `Dedup`). */
module Indexes {
  import opened Wrappers

  // ----- last write wins -----

  /** Apply the writes from first to last; a later write replaces an earlier one. */
  function Overwrite<K, V>(m: map<K, V>, writes: seq<(K, V)>): map<K, V>
    decreases |writes|
  {
    if |writes| == 0 then m
    else Overwrite(m[writes[0].0 := writes[0].1], writes[1..])
  }

  /** Reference: the value of the last write to `k`, read from the end. */
  function LastWrite<K(==), V>(writes: seq<(K, V)>, k: K): (r: Option<V>)
    ensures r.Some? <==> exists i :: 0 <= i < |writes| && writes[i].0 == k
    ensures r.Some? ==> exists i :: 0 <= i < |writes| && writes[i] == (k, r.value) &&
                          forall j :: i < j < |writes| ==> writes[j].0 != k
    decreases |writes|
  {
    if |writes| == 0 then None
    else
      var last := writes[|writes| - 1];
      var init := writes[..|writes| - 1];
      var rest := LastWrite(init, k);
      if last.0 == k then
        assert writes[|writes| - 1] == (k, last.1);
        Some(last.1)
      else
        assert forall i :: 0 <= i < |init| ==> init[i] == writes[i];
        assert rest.Some? ==> exists i :: 0 <= i < |writes| && writes[i] == (k, rest.value) &&
                                forall j :: i < j < |writes| ==> writes[j].0 != k by {
          if rest.Some? {
            var i :| 0 <= i < |init| && init[i] == (k, rest.value) &&
                     forall j :: i < j < |init| ==> init[j].0 != k;
            assert writes[i] == (k, rest.value);
          }
        }
        rest
  }

  lemma {:induction false} OverwriteSnoc<K, V>(m: map<K, V>, writes: seq<(K, V)>, w: (K, V))
    ensures Overwrite(m, writes + [w]) == Overwrite(m, writes)[w.0 := w.1]
    decreases |writes|
  {
    if |writes| > 0 {
      assert (writes + [w])[1..] == writes[1..] + [w];
      OverwriteSnoc(m[writes[0].0 := writes[0].1], writes[1..], w);
    }
  }

  /** The map built by overwriting holds, for each key, the last value written
      to it, and the initial value for keys never written. */
  lemma {:induction false} OverwriteLastWins<K, V>(m: map<K, V>, writes: seq<(K, V)>, k: K)
    ensures k in Overwrite(m, writes) <==> k in m || LastWrite(writes, k).Some?
    ensures LastWrite(writes, k).Some? ==> Overwrite(m, writes)[k] == LastWrite(writes, k).value
    ensures LastWrite(writes, k).None? && k in m ==> Overwrite(m, writes)[k] == m[k]
    decreases |writes|
  {
    if |writes| > 0 {
      var init := writes[..|writes| - 1];
      assert writes == init + [writes[|writes| - 1]];
      OverwriteSnoc(m, init, writes[|writes| - 1]);
      OverwriteLastWins(m, init, k);
    }
  }

  // ----- first write wins -----

  /** Apply the writes from first to last; a key already present is kept. */
  function KeepFirst<K, V>(m: map<K, V>, writes: seq<(K, V)>): map<K, V>
    decreases |writes|
  {
    if |writes| == 0 then m
    else if writes[0].0 in m then KeepFirst(m, writes[1..])
    else KeepFirst(m[writes[0].0 := writes[0].1], writes[1..])
  }

  /** Reference: the value of the first write to `k`. */
  function FirstWrite<K(==), V>(writes: seq<(K, V)>, k: K): (r: Option<V>)
    ensures r.Some? <==> exists i :: 0 <= i < |writes| && writes[i].0 == k
    ensures r.Some? ==> exists i :: 0 <= i < |writes| && writes[i] == (k, r.value) &&
                          forall j :: 0 <= j < i ==> writes[j].0 != k
    decreases |writes|
  {
    if |writes| == 0 then None
    else if writes[0].0 == k then Some(writes[0].1)
    else
      var rest := FirstWrite(writes[1..], k);
      assert forall i :: 1 <= i < |writes| ==> writes[1..][i - 1] == writes[i];
      rest
  }

  /** The map built with `getOrPut` holds the first value written per key;
      a key already in the initial map keeps its value. */
  lemma {:induction false} KeepFirstFirstWins<K, V>(m: map<K, V>, writes: seq<(K, V)>, k: K)
    ensures k in KeepFirst(m, writes) <==> k in m || FirstWrite(writes, k).Some?
    ensures k in m ==> KeepFirst(m, writes)[k] == m[k]
    ensures k !in m && FirstWrite(writes, k).Some? ==>
              KeepFirst(m, writes)[k] == FirstWrite(writes, k).value
    decreases |writes|
  {
    if |writes| > 0 {
      if writes[0].0 in m {
        KeepFirstFirstWins(m, writes[1..], k);
      } else {
        KeepFirstFirstWins(m[writes[0].0 := writes[0].1], writes[1..], k);
      }
    }
  }

  // ----- every write, grouped by key -----

  /** Apply the writes from first to last, appending each value to its key's list. */
  function Group<K, V>(m: map<K, seq<V>>, writes: seq<(K, V)>): map<K, seq<V>>
    decreases |writes|
  {
    if |writes| == 0 then m
    else
      var k := writes[0].0;
      var old_ := if k in m then m[k] else [];
      Group(m[k := old_ + [writes[0].1]], writes[1..])
  }

  /** Reference: the values written to `k`, in write order. */
  function Select<K(==), V>(writes: seq<(K, V)>, k: K): (r: seq<V>)
    ensures |r| <= |writes|
    decreases |writes|
  {
    if |writes| == 0 then []
    else if writes[0].0 == k then [writes[0].1] + Select(writes[1..], k)
    else Select(writes[1..], k)
  }

  /** `Select` is empty exactly when nothing is written to the key. */
  lemma {:induction false} SelectEmpty<K, V>(writes: seq<(K, V)>, k: K)
    ensures Select(writes, k) == [] <==> forall i :: 0 <= i < |writes| ==> writes[i].0 != k
    decreases |writes|
  {
    if |writes| > 0 {
      SelectEmpty(writes[1..], k);
      assert forall i :: 1 <= i < |writes| ==> writes[1..][i - 1] == writes[i];
    }
  }

  /** The grouped map lists, for each key, the initial list followed by every
      value written to it in write order. */
  lemma {:induction false} GroupSelects<K, V>(m: map<K, seq<V>>, writes: seq<(K, V)>, k: K)
    ensures k in Group(m, writes) <==> k in m || Select(writes, k) != []
    ensures k in Group(m, writes) ==>
              Group(m, writes)[k] == (if k in m then m[k] else []) + Select(writes, k)
    decreases |writes|
  {
    if |writes| > 0 {
      var k0 := writes[0].0;
      var old_ := if k0 in m then m[k0] else [];
      GroupSelects(m[k0 := old_ + [writes[0].1]], writes[1..], k);
      if k == k0 {
        assert (old_ + [writes[0].1]) + Select(writes[1..], k) == old_ + Select(writes, k);
      }
    }
  }

  // ----- insertion-ordered set -----

  /** `LinkedHashSet.add` for each element in turn: the first occurrence of
      each element, in order. */
  function Dedup<T(==)>(xs: seq<T>): (r: seq<T>)
    decreases |xs|
  {
    DedupFrom([], xs)
  }

  function DedupFrom<T(==)>(seen: seq<T>, xs: seq<T>): seq<T>
    decreases |xs|
  {
    if |xs| == 0 then seen
    else if xs[0] in seen then DedupFrom(seen, xs[1..])
    else DedupFrom(seen + [xs[0]], xs[1..])
  }

  /** The insertion-ordered set holds each element once, and exactly the
      elements added. */
  lemma {:induction false} DedupFromSet<T>(seen: seq<T>, xs: seq<T>)
    requires forall i, j :: 0 <= i < j < |seen| ==> seen[i] != seen[j]
    ensures forall x :: x in DedupFrom(seen, xs) <==> x in seen || x in xs
    ensures forall i, j :: 0 <= i < j < |DedupFrom(seen, xs)| ==>
              DedupFrom(seen, xs)[i] != DedupFrom(seen, xs)[j]
    decreases |xs|
  {
    if |xs| > 0 {
      if xs[0] in seen {
        DedupFromSet(seen, xs[1..]);
      } else {
        DedupFromSet(seen + [xs[0]], xs[1..]);
      }
      assert forall x :: x in xs <==> x == xs[0] || x in xs[1..];
    }
  }

  lemma DedupSet<T>(xs: seq<T>)
    ensures forall x :: x in Dedup(xs) <==> x in xs
    ensures forall i, j :: 0 <= i < j < |Dedup(xs)| ==> Dedup(xs)[i] != Dedup(xs)[j]
  {
    DedupFromSet([], xs);
  }

  // ----- nested iteration -----

  /** `for (x in xs) for (y in f(x)) ...`: the inner elements in loop order. */
  function FlatMap<A, B>(xs: seq<A>, f: A -> seq<B>): (r: seq<B>)
    decreases |xs|
  {
    if |xs| == 0 then [] else f(xs[0]) + FlatMap(xs[1..], f)
  }

  /** Every inner element of every outer element is visited. */
  lemma {:induction false} FlatMapContains<A, B>(xs: seq<A>, f: A -> seq<B>, x: A, y: B)
    requires x in xs && y in f(x)
    ensures y in FlatMap(xs, f)
    decreases |xs|
  {
    if xs[0] != x {
      FlatMapContains(xs[1..], f, x, y);
    }
  }

  /** Only inner elements of outer elements are visited. */
  lemma {:induction false} FlatMapFrom<A, B>(xs: seq<A>, f: A -> seq<B>, y: B)
    requires y in FlatMap(xs, f)
    ensures exists x :: x in xs && y in f(x)
    decreases |xs|
  {
    if y !in f(xs[0]) {
      FlatMapFrom(xs[1..], f, y);
      var x :| x in xs[1..] && y in f(x);
      assert x in xs;
    }
  }

  lemma {:induction false} FlatMapAppend<A, B>(xs: seq<A>, ys: seq<A>, f: A -> seq<B>)
    ensures FlatMap(xs + ys, f) == FlatMap(xs, f) + FlatMap(ys, f)
    decreases |xs|
  {
    if |xs| > 0 {
      assert (xs + ys)[1..] == xs[1..] + ys;
      FlatMapAppend(xs[1..], ys, f);
    } else {
      assert xs + ys == ys;
    }
  }
}
