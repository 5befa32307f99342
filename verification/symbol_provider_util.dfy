/** Helpers of the FIR symbol provider: `flatMapToNullableSet`, a union of
    transformed elements that gives up as soon as one transform yields
    `null`, and the `getClassDeclared*` lookups, which answer with an empty
    list for a class id that does not resolve to a regular class. */
module SymbolProviderUtil {
  import opened Wrappers

  // ----- flatMapToNullableSet -----

  /** The elements of a list, as a set. */
  function Elements<R(!new)>(s: seq<R>): (r: set<R>)
    ensures forall y :: y in r <==> y in s
  {
    set y | y in s
  }

  /** The reference meaning: `None` when some element's transform is `None`,
      otherwise the union of all the transforms' results. */
  function UnionOfTransforms<T, R(!new)>(xs: seq<T>, transform: T -> Option<seq<R>>): (r: Option<set<R>>)
    decreases |xs|
  {
    if |xs| == 0 then Some({})
    else if transform(xs[0]).None? then None
    else
      var rest := UnionOfTransforms(xs[1..], transform);
      if rest.None? then None else Some(Elements(transform(xs[0]).value) + rest.value)
  }

  /** The reference answer is `None` exactly when some transform is `None`,
      and otherwise holds exactly the elements some transform produced. */
  lemma {:induction false} UnionOfTransformsSpec<T, R(!new)>(xs: seq<T>, transform: T -> Option<seq<R>>)
    ensures UnionOfTransforms(xs, transform).None? <==> exists i :: 0 <= i < |xs| && transform(xs[i]).None?
    ensures UnionOfTransforms(xs, transform).Some? ==>
              forall y :: y in UnionOfTransforms(xs, transform).value <==>
                exists i :: 0 <= i < |xs| && y in transform(xs[i]).value
    decreases |xs|
  {
    if |xs| > 0 {
      UnionOfTransformsSpec(xs[1..], transform);
      if UnionOfTransforms(xs, transform).None? {
        if transform(xs[0]).None? {
          assert 0 <= 0 < |xs| && transform(xs[0]).None?;
        } else {
          var i :| 0 <= i < |xs[1..]| && transform(xs[1..][i]).None?;
          assert transform(xs[i + 1]).None?;
        }
      } else {
        forall i | 0 <= i < |xs|
          ensures transform(xs[i]).Some?
        {
          if i > 0 {
            assert xs[i] == xs[1..][i - 1];
          }
        }
        var u := UnionOfTransforms(xs, transform).value;
        forall y
          ensures y in u <==> exists i :: 0 <= i < |xs| && y in transform(xs[i]).value
        {
          if y in u && y !in transform(xs[0]).value {
            var i :| 0 <= i < |xs[1..]| && y in transform(xs[1..][i]).value;
            assert y in transform(xs[i + 1]).value;
          }
          if exists i :: 0 <= i < |xs| && y in transform(xs[i]).value {
            var i :| 0 <= i < |xs| && y in transform(xs[i]).value;
            if i > 0 {
              assert xs[i] == xs[1..][i - 1];
            }
          }
        }
      }
    }
  }

  /** `flatMapToNullableSet(transform)`: the elements are transformed in
      order and their results collected into one set; the first `null`
      returns `null` at once. `calls` counts the transforms evaluated. */
  method FlatMapToNullableSet<T, R(==,!new)>(xs: seq<T>, transform: T -> Option<seq<R>>)
    returns (r: Option<set<R>>, calls: nat)
    ensures r == UnionOfTransforms(xs, transform)
    ensures r.None? ==> 1 <= calls <= |xs| && transform(xs[calls - 1]).None? &&
                        forall i :: 0 <= i < calls - 1 ==> transform(xs[i]).Some?
    ensures r.Some? ==> calls == |xs|
  {
    var acc: set<R> := {};
    calls := 0;
    assert xs[calls..] == xs;
    ghost var all := UnionOfTransforms(xs, transform);
    assert all.Some? ==> acc + all.value == all.value;
    while calls < |xs|
      invariant calls <= |xs|
      invariant forall i :: 0 <= i < calls ==> transform(xs[i]).Some?
      invariant UnionOfTransforms(xs, transform) ==
                (var rest := UnionOfTransforms(xs[calls..], transform);
                 if rest.None? then None else Some(acc + rest.value))
    {
      var t := transform(xs[calls]);
      UnionStep(xs, transform, calls);
      if t.None? {
        calls := calls + 1;
        r := None;
        return;
      }
      ghost var rest := UnionOfTransforms(xs[calls + 1..], transform);
      assert rest.Some? ==> acc + (Elements(t.value) + rest.value) == (acc + Elements(t.value)) + rest.value;
      acc := acc + Elements(t.value);
      calls := calls + 1;
    }
    assert xs[calls..] == [];
    r := Some(acc);
  }

  /** The reference answer for a suffix, one element unfolded. */
  lemma UnionStep<T, R(!new)>(xs: seq<T>, transform: T -> Option<seq<R>>, k: nat)
    requires k < |xs|
    ensures UnionOfTransforms(xs[k..], transform) ==
            if transform(xs[k]).None? then None
            else
              var rest := UnionOfTransforms(xs[k + 1..], transform);
              if rest.None? then None else Some(Elements(transform(xs[k]).value) + rest.value)
  {
    assert xs[k..][0] == xs[k];
    assert xs[k..][1..] == xs[k + 1..];
  }

  /** An empty input gives the empty set. */
  lemma FlatMapEmpty<T, R(!new)>(transform: T -> Option<seq<R>>)
    ensures UnionOfTransforms([], transform) == Some({})
  {
  }

  // ----- getClassDeclared* -----

  type Symbol = nat

  /** The declared member scope of a regular class, reduced to what the
      three lookups read from it. */
  datatype DeclaredScope = DeclaredScope(constructors: seq<Symbol>,
                                         functions: map<string, seq<Symbol>>,
                                         properties: map<string, seq<Symbol>>)

  /** What `getClassLikeSymbolByClassId` finds: a regular class with its
      declared scope, or another class-like symbol (a type alias). */
  datatype ClassLike = RegularClass(scope: DeclaredScope) | OtherClassLike

  /** The provider, as a table from class ids to class-like symbols. */
  type Provider = map<string, ClassLike>

  /** `getClassDeclaredMemberScope`: `null` unless the id names a regular class. */
  function ClassDeclaredMemberScope(p: Provider, classId: string): (r: Option<DeclaredScope>)
    ensures r.Some? <==> classId in p && p[classId].RegularClass?
  {
    if classId in p && p[classId].RegularClass? then Some(p[classId].scope) else None
  }

  /** `orEmpty()` of a scope lookup that may be absent. */
  function ByName(m: map<string, seq<Symbol>>, name: string): seq<Symbol> {
    Get(m, name).GetOr([])
  }

  function ClassDeclaredConstructors(p: Provider, classId: string): (r: seq<Symbol>)
    ensures r != [] ==> ClassDeclaredMemberScope(p, classId).Some?
  {
    var scope := ClassDeclaredMemberScope(p, classId);
    if scope.None? then [] else scope.value.constructors
  }

  function ClassDeclaredFunctionSymbols(p: Provider, classId: string, name: string): (r: seq<Symbol>)
    ensures r != [] ==> ClassDeclaredMemberScope(p, classId).Some?
  {
    var scope := ClassDeclaredMemberScope(p, classId);
    if scope.None? then [] else ByName(scope.value.functions, name)
  }

  function ClassDeclaredPropertySymbols(p: Provider, classId: string, name: string): (r: seq<Symbol>)
    ensures r != [] ==> ClassDeclaredMemberScope(p, classId).Some?
  {
    var scope := ClassDeclaredMemberScope(p, classId);
    if scope.None? then [] else ByName(scope.value.properties, name)
  }

  /** A missing class id and one naming a type alias both answer every
      lookup with the empty list; a regular class answers with what its
      declared scope holds. */
  lemma ClassDeclaredLookups(p: Provider, classId: string, name: string)
    ensures !(classId in p && p[classId].RegularClass?) ==>
              ClassDeclaredConstructors(p, classId) == [] &&
              ClassDeclaredFunctionSymbols(p, classId, name) == [] &&
              ClassDeclaredPropertySymbols(p, classId, name) == []
    ensures classId in p && p[classId].RegularClass? ==>
              ClassDeclaredConstructors(p, classId) == p[classId].scope.constructors &&
              (name in p[classId].scope.functions ==>
                 ClassDeclaredFunctionSymbols(p, classId, name) == p[classId].scope.functions[name]) &&
              (name !in p[classId].scope.functions ==>
                 ClassDeclaredFunctionSymbols(p, classId, name) == []) &&
              (name in p[classId].scope.properties ==>
                 ClassDeclaredPropertySymbols(p, classId, name) == p[classId].scope.properties[name]) &&
              (name !in p[classId].scope.properties ==>
                 ClassDeclaredPropertySymbols(p, classId, name) == [])
  {
  }

  /** Each lookup answers a symbol exactly when the id names a regular class
      whose declared scope lists that symbol (under the name, for functions
      and properties); so a lookup is empty exactly when the id is missing,
      names a type alias, or its scope lists nothing there. */
  lemma ClassDeclaredMembership(p: Provider, classId: string, name: string, s: Symbol)
    ensures s in ClassDeclaredConstructors(p, classId) <==>
              classId in p && p[classId].RegularClass? && s in p[classId].scope.constructors
    ensures s in ClassDeclaredFunctionSymbols(p, classId, name) <==>
              classId in p && p[classId].RegularClass? && name in p[classId].scope.functions &&
              s in p[classId].scope.functions[name]
    ensures s in ClassDeclaredPropertySymbols(p, classId, name) <==>
              classId in p && p[classId].RegularClass? && name in p[classId].scope.properties &&
              s in p[classId].scope.properties[name]
    ensures ClassDeclaredFunctionSymbols(p, classId, name) == [] <==>
              !(classId in p && p[classId].RegularClass?) || name !in p[classId].scope.functions ||
              p[classId].scope.functions[name] == []
    ensures ClassDeclaredPropertySymbols(p, classId, name) == [] <==>
              !(classId in p && p[classId].RegularClass?) || name !in p[classId].scope.properties ||
              p[classId].scope.properties[name] == []
  {
  }
}
