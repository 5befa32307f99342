/** The callable half of `calculateExpectActualMap`: the functions and
    properties of the actual declarations are indexed by `CallableId`, then
    every properly-expect function and property of the dependent fragments is
    linked, recursing only into properly-expect classes. */
module ActualizerCallables {
  import opened Wrappers
  import opened Indexes
  import opened IrModel

  /** `CallableId(packageOrClassName, callableName)`. */
  datatype CallableId = CallableId(container: FqName, name: string)

  // ----- checkParameters -----

  /** `checkParameters(expect, actual, map)` as the code runs it: unequal
      arities fail, then the parameter pairs are compared in order and the
      first mismatch fails. */
  function CheckParameters(e: Decl, a: Decl, m: map<Symbol, Symbol>): bool
    requires e.Function? && a.Function?
  {
    |e.valueParameters| == |a.valueParameters| && CheckPairs(e.valueParameters, a.valueParameters, m, 0)
  }

  function CheckPairs(es: seq<Symbol>, as_: seq<Symbol>, m: map<Symbol, Symbol>, i: nat): bool
    requires |es| == |as_| && i <= |es|
    decreases |es| - i
  {
    if i == |es| then true
    else if SubstSym(m, es[i]) != as_[i] then false
    else CheckPairs(es, as_, m, i + 1)
  }

  lemma {:induction false} CheckPairsMeaning(es: seq<Symbol>, as_: seq<Symbol>, m: map<Symbol, Symbol>, i: nat)
    requires |es| == |as_| && i <= |es|
    ensures CheckPairs(es, as_, m, i) <==> forall k :: i <= k < |es| ==> SubstSym(m, es[k]) == as_[k]
    decreases |es| - i
  {
    if i < |es| {
      CheckPairsMeaning(es, as_, m, i + 1);
    }
  }

  /** `checkParameters` holds exactly when the arities agree and every expect
      parameter's classifier, mapped through the table when it has an entry,
      is the actual parameter's classifier. */
  lemma CheckParametersMeaning(e: Decl, a: Decl, m: map<Symbol, Symbol>)
    requires e.Function? && a.Function?
    ensures CheckParameters(e, a, m) <==>
              |e.valueParameters| == |a.valueParameters| &&
              forall k :: 0 <= k < |e.valueParameters| ==>
                (if e.valueParameters[k] in m then m[e.valueParameters[k]] else e.valueParameters[k])
                  == a.valueParameters[k]
  {
    if |e.valueParameters| == |a.valueParameters| {
      CheckPairsMeaning(e.valueParameters, a.valueParameters, m, 0);
    }
  }

  // ----- collecting the actual callables -----

  /** The functions and properties `collectActualsCallables` reaches from one
      declaration, in visiting order: a class is searched member by member. */
  function CallablesOf(d: Decl): (r: seq<Decl>)
    ensures forall c :: c in r ==> c.Function? || c.Property?
    decreases d
  {
    match d
    case Function(_, _, _, _, _, _, _, _, _, _, _, _) => [d]
    case Property(_, _, _, _, _, _, _, _, _, _, _) => [d]
    case Class(_, _, _, _, _, _, _, _, members) => CallablesOfAll(members)
    case _ => []
  }

  function CallablesOfAll(ds: seq<Decl>): (r: seq<Decl>)
    ensures forall c :: c in r ==> c.Function? || c.Property?
    decreases ds
  {
    if |ds| == 0 then [] else CallablesOf(ds[0]) + CallablesOfAll(ds[1..])
  }

  /** The key an actual callable is stored under: its parent's name and its own. */
  function ActualId(c: Decl): CallableId
    requires !c.Other?
  {
    CallableId(c.parentFq, c.name)
  }

  function FunctionWrites(cs: seq<Decl>): (r: seq<(CallableId, Decl)>)
    ensures forall i :: 0 <= i < |r| ==> r[i].1.Function? && r[i].1 in cs && r[i].0 == ActualId(r[i].1)
    decreases |cs|
  {
    if |cs| == 0 then []
    else (if cs[0].Function? then [(ActualId(cs[0]), cs[0])] else []) + FunctionWrites(cs[1..])
  }

  function PropertyWrites(cs: seq<Decl>): (r: seq<(CallableId, Decl)>)
    ensures forall i :: 0 <= i < |r| ==> r[i].1.Property? && r[i].1 in cs && r[i].0 == ActualId(r[i].1)
    decreases |cs|
  {
    if |cs| == 0 then []
    else (if cs[0].Property? then [(ActualId(cs[0]), cs[0])] else []) + PropertyWrites(cs[1..])
  }

  datatype CallableIndex = CallableIndex(
    functions: map<CallableId, seq<Decl>>,
    properties: map<CallableId, Decl>)

  /** The index only lists functions under function keys and properties
      under property keys, as the typed maps of the code do. */
  predicate WellFormedIndex(idx: CallableIndex) {
    (forall k :: k in idx.functions ==> forall f :: f in idx.functions[k] ==> f.Function?) &&
    (forall k :: k in idx.properties ==> idx.properties[k].Property?)
  }

  /** `collectActualCallables`: every function is appended to its key's list;
      the first property per key is kept (`getOrPut`). */
  function CollectActualCallables(allActual: seq<Decl>): (r: CallableIndex)
    ensures WellFormedIndex(r)
  {
    var cs := CallablesOfAll(allActual);
    var r := CallableIndex(Group(map[], FunctionWrites(cs)), KeepFirst(map[], PropertyWrites(cs)));
    IndexWellFormed(cs);
    r
  }

  lemma IndexWellFormed(cs: seq<Decl>)
    ensures WellFormedIndex(CallableIndex(Group(map[], FunctionWrites(cs)), KeepFirst(map[], PropertyWrites(cs))))
  {
    var fs := Group(map[], FunctionWrites(cs));
    var ps := KeepFirst(map[], PropertyWrites(cs));
    forall k | k in fs
      ensures forall f: Decl :: f in fs[k] ==> f.Function?
    {
      GroupSelects(map[], FunctionWrites(cs), k);
      SelectFunctions(FunctionWrites(cs), k);
    }
    forall k | k in ps
      ensures ps[k].Property?
    {
      KeepFirstFirstWins(map[], PropertyWrites(cs), k);
    }
  }

  lemma {:induction false} SelectFunctions(ws: seq<(CallableId, Decl)>, k: CallableId)
    requires forall i :: 0 <= i < |ws| ==> ws[i].1.Function?
    ensures forall f :: f in Select(ws, k) ==> f.Function?
    decreases |ws|
  {
    if |ws| > 0 {
      SelectFunctions(ws[1..], k);
    }
  }

  /** The function list of a key is every reached function with that key, in
      visiting order; the property of a key is the first reached one. */
  lemma CallableIndexPolicies(allActual: seq<Decl>, k: CallableId)
    ensures var cs := CallablesOfAll(allActual);
            var idx := CollectActualCallables(allActual);
            (k in idx.functions <==> Select(FunctionWrites(cs), k) != []) &&
            (k in idx.functions ==> idx.functions[k] == Select(FunctionWrites(cs), k))
    ensures var cs := CallablesOfAll(allActual);
            var idx := CollectActualCallables(allActual);
            (k in idx.properties <==> FirstWrite(PropertyWrites(cs), k).Some?) &&
            (k in idx.properties ==> idx.properties[k] == FirstWrite(PropertyWrites(cs), k).value)
  {
    var cs := CallablesOfAll(allActual);
    GroupSelects(map[], FunctionWrites(cs), k);
    KeepFirstFirstWins(map[], PropertyWrites(cs), k);
  }

  // ----- linking the expect callables -----

  /** `actualizeCallable`: the key of an expect callable, its container's
      name replaced through the type alias map. */
  function ExpectId(typeAliasMap: map<FqName, FqName>, d: Decl): (r: CallableId)
    requires !d.Other?
    ensures r.name == d.name
    ensures d.parentFq in typeAliasMap ==> r.container == typeAliasMap[d.parentFq]
    ensures d.parentFq !in typeAliasMap ==> r.container == d.parentFq
  {
    CallableId(Get(typeAliasMap, d.parentFq).GetOr(d.parentFq), d.name)
  }

  /** The candidate list of an expect function: `null` reads as no candidates. */
  function Candidates(idx: CallableIndex, typeAliasMap: map<FqName, FqName>, d: Decl): seq<Decl>
    requires !d.Other?
  {
    Get(idx.functions, ExpectId(typeAliasMap, d)).GetOr([])
  }

  /** The loop over the candidates: the first function passing `checkParameters`. */
  function FirstMatch(e: Decl, cands: seq<Decl>, m: map<Symbol, Symbol>): (r: Option<Decl>)
    requires e.Function?
    ensures r.Some? ==>
              exists i :: 0 <= i < |cands| && cands[i] == r.value && r.value.Function? &&
                CheckParameters(e, r.value, m) &&
                forall j :: 0 <= j < i ==> !(cands[j].Function? && CheckParameters(e, cands[j], m))
    ensures r.None? <==> forall j :: 0 <= j < |cands| ==> !(cands[j].Function? && CheckParameters(e, cands[j], m))
    decreases |cands|
  {
    if |cands| == 0 then None
    else if cands[0].Function? && CheckParameters(e, cands[0], m) then Some(cands[0])
    else
      var r := FirstMatch(e, cands[1..], m);
      assert forall j :: 1 <= j < |cands| ==> cands[1..][j - 1] == cands[j];
      r
  }

  /** Linking one accessor: `declaration.getter?.symbol?.let { this[it] = properties.getter!!.symbol }`. */
  function LinkAccessor(m: map<Symbol, Symbol>, e: Option<Decl>, a: Option<Decl>): (r: Result<map<Symbol, Symbol>, ActualizeError>)
    ensures e.None? ==> r == Success(m)
    ensures e.Some? && a.None? ==> r == Failure(MissingAccessor(e.value.sym))
    ensures e.Some? && a.Some? ==>
              (r.Success? && r.value.Keys == m.Keys + {e.value.sym} &&
               r.value[e.value.sym] == a.value.sym &&
               forall s :: s in m && s != e.value.sym ==> r.value[s] == m[s])
  {
    if e.None? then Success(m)
    else if a.None? then Failure(MissingAccessor(e.value.sym))
    else Success(m[e.value.sym := a.value.sym])
  }

  /** `linkExpectToActual` on one declaration of a container. */
  function LinkDecl(m: map<Symbol, Symbol>, idx: CallableIndex, typeAliasMap: map<FqName, FqName>,
                    d: Decl): (r: Result<map<Symbol, Symbol>, ActualizeError>)
    ensures r.Success? ==> m.Keys <= r.value.Keys
    ensures r.Success? ==> r.value.Keys == m.Keys + LinkedSymsOf(ExpectCallables(d))
    ensures r.Success? ==>
              forall s :: s in m && s !in LinkedSymsOf(ExpectCallables(d)) ==> r.value[s] == m[s]
    ensures !d.isProperExpect ==> r == Success(m)
    ensures d.Function? && d.isProperExpect ==>
              var f := FirstMatch(d, Candidates(idx, typeAliasMap, d), m);
              (f.None? ==> r == Failure(MissingActual(d.sym))) &&
              (f.Some? ==> r == Success(m[d.sym := f.value.sym]))
    ensures d.Property? && d.isProperExpect && ExpectId(typeAliasMap, d) !in idx.properties ==>
              r == Failure(MissingActual(d.sym))
    ensures d.Property? && d.isProperExpect && r.Success? ==>
              d.sym in r.value &&
              (d.getter.Some? ==> d.getter.value.sym in r.value) &&
              (d.setter.Some? ==> d.setter.value.sym in r.value)
    decreases d
  {
    if !d.isProperExpect then Success(m)
    else
      match d
      case Function(_, _, _, _, _, _, _, _, _, _, _, _) =>
        var f := FirstMatch(d, Candidates(idx, typeAliasMap, d), m);
        if f.None? then Failure(MissingActual(d.sym)) else Success(m[d.sym := f.value.sym])
      case Property(_, _, _, _, _, _, _, getter, setter, _, _) =>
        var id := ExpectId(typeAliasMap, d);
        if id !in idx.properties then Failure(MissingActual(d.sym))
        else
          var a := idx.properties[id];
          var withGetter :- LinkAccessor(m[d.sym := a.sym], getter, if a.Property? then a.getter else None);
          LinkAccessor(withGetter, setter, if a.Property? then a.setter else None)
      case Class(_, _, _, _, _, _, _, _, members) => LinkAll(m, idx, typeAliasMap, members)
      case _ => Success(m)
  }

  /** `linkExpectToActual` on a container: its declarations in order, the
      first error ending the pass. */
  function LinkAll(m: map<Symbol, Symbol>, idx: CallableIndex, typeAliasMap: map<FqName, FqName>,
                   ds: seq<Decl>): (r: Result<map<Symbol, Symbol>, ActualizeError>)
    ensures r.Success? ==> m.Keys <= r.value.Keys
    ensures r.Success? ==> r.value.Keys == m.Keys + LinkedSymsOf(ExpectCallablesAll(ds))
    ensures r.Success? ==>
              forall s :: s in m && s !in LinkedSymsOf(ExpectCallablesAll(ds)) ==> r.value[s] == m[s]
    decreases ds
  {
    if |ds| == 0 then Success(m)
    else
      var m1 :- LinkDecl(m, idx, typeAliasMap, ds[0]);
      LinkedSymsOfAppend(ExpectCallables(ds[0]), ExpectCallablesAll(ds[1..]));
      LinkAll(m1, idx, typeAliasMap, ds[1..])
  }

  /** The expect callables the linking visits: properly-expect functions and
      properties, looked for inside properly-expect classes only. */
  function ExpectCallables(d: Decl): seq<Decl>
    decreases d
  {
    if !d.isProperExpect then []
    else
      match d
      case Function(_, _, _, _, _, _, _, _, _, _, _, _) => [d]
      case Property(_, _, _, _, _, _, _, _, _, _, _) => [d]
      case Class(_, _, _, _, _, _, _, _, members) => ExpectCallablesAll(members)
      case _ => []
  }

  function ExpectCallablesAll(ds: seq<Decl>): seq<Decl>
    decreases ds
  {
    if |ds| == 0 then [] else ExpectCallables(ds[0]) + ExpectCallablesAll(ds[1..])
  }

  // ----- what the linking writes -----

  /** The symbols linking one visited expect callable writes: its own, and a
      property's accessors'. */
  function LinkedSyms(e: Decl): set<Symbol>
  {
    {e.sym} + (if e.Property? then AccessorSyms(e) else {})
  }

  /** The symbols linking a sequence of visited expect callables writes. */
  function LinkedSymsOf(es: seq<Decl>): set<Symbol>
    decreases |es|
  {
    if |es| == 0 then {} else LinkedSyms(es[0]) + LinkedSymsOf(es[1..])
  }

  lemma {:induction false} LinkedSymsOfAppend(a: seq<Decl>, b: seq<Decl>)
    ensures LinkedSymsOf(a + b) == LinkedSymsOf(a) + LinkedSymsOf(b)
    decreases |a|
  {
    if |a| == 0 {
      assert a + b == b;
    } else {
      assert (a + b)[1..] == a[1..] + b;
      LinkedSymsOfAppend(a[1..], b);
    }
  }

  lemma {:induction false} LinkedSymsOfContains(es: seq<Decl>, e: Decl)
    requires e in es
    ensures LinkedSyms(e) <= LinkedSymsOf(es)
    decreases |es|
  {
    if es[0] != e {
      assert es == [es[0]] + es[1..];
      LinkedSymsOfContains(es[1..], e);
    }
  }

  /** A property's own symbol is not one of its accessors', and its getter
      and setter are different symbols. */
  predicate SeparateAccessors(e: Decl) {
    e.Property? ==>
      e.sym !in AccessorSyms(e) &&
      (e.getter.Some? && e.setter.Some? ==> e.getter.value.sym != e.setter.value.sym)
  }

  /** Every visited expect callable writes symbols that no later one writes:
      the IR gives each declaration a symbol of its own. */
  predicate DistinctLinks(es: seq<Decl>)
    decreases |es|
  {
    |es| == 0 ||
    (SeparateAccessors(es[0]) && LinkedSyms(es[0]) !! LinkedSymsOf(es[1..]) && DistinctLinks(es[1..]))
  }

  lemma {:induction false} DistinctLinksSplit(a: seq<Decl>, b: seq<Decl>)
    requires DistinctLinks(a + b)
    ensures DistinctLinks(a) && DistinctLinks(b) && LinkedSymsOf(a) !! LinkedSymsOf(b)
    decreases |a|
  {
    if |a| == 0 {
      assert a + b == b;
    } else {
      assert (a + b)[1..] == a[1..] + b;
      LinkedSymsOfAppend(a[1..], b);
      DistinctLinksSplit(a[1..], b);
    }
  }

  /** No value parameter of a visited expect function is in `t`. */
  predicate ParamsAvoid(es: seq<Decl>, t: set<Symbol>) {
    forall e, k :: e in es && e.Function? && 0 <= k < |e.valueParameters| ==> e.valueParameters[k] !in t
  }

  /** The two maps send every value parameter of the visited expect
      functions to the same classifier. */
  predicate ParamsAgree(m1: map<Symbol, Symbol>, m2: map<Symbol, Symbol>, es: seq<Decl>) {
    forall e, k :: e in es && e.Function? && 0 <= k < |e.valueParameters| ==>
      SubstSym(m1, e.valueParameters[k]) == SubstSym(m2, e.valueParameters[k])
  }

  /** `checkParameters` only reads the map at the expect parameters. */
  lemma {:induction false} CheckPairsAgree(es: seq<Symbol>, as_: seq<Symbol>, m1: map<Symbol, Symbol>,
                                           m2: map<Symbol, Symbol>, i: nat)
    requires |es| == |as_| && i <= |es|
    requires forall k :: i <= k < |es| ==> SubstSym(m1, es[k]) == SubstSym(m2, es[k])
    ensures CheckPairs(es, as_, m1, i) == CheckPairs(es, as_, m2, i)
    decreases |es| - i
  {
    if i < |es| {
      CheckPairsAgree(es, as_, m1, m2, i + 1);
    }
  }

  /** Two maps that agree on an expect function's parameters pick the same candidate. */
  lemma {:induction false} FirstMatchAgree(e: Decl, cands: seq<Decl>, m1: map<Symbol, Symbol>,
                                           m2: map<Symbol, Symbol>)
    requires e.Function?
    requires forall k :: 0 <= k < |e.valueParameters| ==>
               SubstSym(m1, e.valueParameters[k]) == SubstSym(m2, e.valueParameters[k])
    ensures FirstMatch(e, cands, m1) == FirstMatch(e, cands, m2)
    decreases |cands|
  {
    if |cands| > 0 {
      if cands[0].Function? && |e.valueParameters| == |cands[0].valueParameters| {
        CheckPairsAgree(e.valueParameters, cands[0].valueParameters, m1, m2, 0);
      }
      FirstMatchAgree(e, cands[1..], m1, m2);
    }
  }

  /** What a visited expect callable maps to once linked against the
      classifier map `m0`: a function to its first passing candidate, a
      property to the indexed property, and its accessors to that
      property's accessors. */
  predicate Linked(m0: map<Symbol, Symbol>, idx: CallableIndex, typeAliasMap: map<FqName, FqName>,
                   e: Decl, r: map<Symbol, Symbol>)
  {
    (e.Function? ==>
       var f := FirstMatch(e, Candidates(idx, typeAliasMap, e), m0);
       f.Some? && e.sym in r && r[e.sym] == f.value.sym) &&
    (e.Property? ==>
       var id := ExpectId(typeAliasMap, e);
       id in idx.properties && e.sym in r && r[e.sym] == idx.properties[id].sym &&
       (e.getter.Some? ==>
          idx.properties[id].Property? && idx.properties[id].getter.Some? &&
          e.getter.value.sym in r && r[e.getter.value.sym] == idx.properties[id].getter.value.sym) &&
       (e.setter.Some? ==>
          idx.properties[id].Property? && idx.properties[id].setter.Some? &&
          e.setter.value.sym in r && r[e.setter.value.sym] == idx.properties[id].setter.value.sym))
  }

  /** A link survives later writes that leave its symbols alone. */
  lemma LinkedKept(m0: map<Symbol, Symbol>, idx: CallableIndex, typeAliasMap: map<FqName, FqName>,
                   e: Decl, r1: map<Symbol, Symbol>, r2: map<Symbol, Symbol>)
    requires Linked(m0, idx, typeAliasMap, e, r1)
    requires forall s :: s in LinkedSyms(e) && s in r1 ==> s in r2 && r2[s] == r1[s]
    ensures Linked(m0, idx, typeAliasMap, e, r2)
  {
  }

  /** Linking one declaration links each expect callable it visits as
      `Linked` states, when the callables write distinct symbols and no
      expect parameter is among them. */
  lemma {:induction false} LinkDeclValues(m0: map<Symbol, Symbol>, m: map<Symbol, Symbol>, idx: CallableIndex,
                                          typeAliasMap: map<FqName, FqName>, d: Decl)
    requires LinkDecl(m, idx, typeAliasMap, d).Success?
    requires var es := ExpectCallables(d);
             DistinctLinks(es) && ParamsAvoid(es, LinkedSymsOf(es)) && ParamsAgree(m0, m, es)
    ensures forall e :: e in ExpectCallables(d) ==> Linked(m0, idx, typeAliasMap, e, LinkDecl(m, idx, typeAliasMap, d).value)
    decreases d
  {
    if d.isProperExpect {
      match d
      case Function(_, _, _, _, _, _, _, _, _, _, _, _) =>
        assert d in ExpectCallables(d);
        FirstMatchAgree(d, Candidates(idx, typeAliasMap, d), m, m0);
      case Property(_, _, _, _, _, _, _, _, _, _, _) =>
        assert ExpectCallables(d) == [d];
        assert SeparateAccessors(d);
      case Class(_, _, _, _, _, _, _, _, members) =>
        LinkAllValues(m0, m, idx, typeAliasMap, members);
      case _ =>
    }
  }

  lemma {:induction false} LinkAllValues(m0: map<Symbol, Symbol>, m: map<Symbol, Symbol>, idx: CallableIndex,
                                         typeAliasMap: map<FqName, FqName>, ds: seq<Decl>)
    requires LinkAll(m, idx, typeAliasMap, ds).Success?
    requires var es := ExpectCallablesAll(ds);
             DistinctLinks(es) && ParamsAvoid(es, LinkedSymsOf(es)) && ParamsAgree(m0, m, es)
    ensures forall e :: e in ExpectCallablesAll(ds) ==> Linked(m0, idx, typeAliasMap, e, LinkAll(m, idx, typeAliasMap, ds).value)
    decreases ds
  {
    if |ds| > 0 {
      var a := ExpectCallables(ds[0]);
      var b := ExpectCallablesAll(ds[1..]);
      var es := ExpectCallablesAll(ds);
      assert es == a + b;
      var m1 := LinkDecl(m, idx, typeAliasMap, ds[0]).value;
      var r := LinkAll(m1, idx, typeAliasMap, ds[1..]).value;
      DistinctLinksSplit(a, b);
      LinkedSymsOfAppend(a, b);
      LinkDeclValues(m0, m, idx, typeAliasMap, ds[0]);
      forall e | e in a
        ensures Linked(m0, idx, typeAliasMap, e, r)
      {
        LinkedSymsOfContains(a, e);
        LinkedKept(m0, idx, typeAliasMap, e, m1, r);
      }
      assert ParamsAgree(m0, m1, b) by {
        forall e, k | e in b && e.Function? && 0 <= k < |e.valueParameters|
          ensures SubstSym(m1, e.valueParameters[k]) == SubstSym(m0, e.valueParameters[k])
        {
          assert e in es;
        }
      }
      LinkAllValues(m0, m1, idx, typeAliasMap, ds[1..]);
    }
  }

  /** A successful linking links every expect callable it visits: no expect
      function or property is skipped. */
  lemma {:induction false} LinkDeclComplete(m: map<Symbol, Symbol>, idx: CallableIndex,
                                            typeAliasMap: map<FqName, FqName>, d: Decl)
    requires LinkDecl(m, idx, typeAliasMap, d).Success?
    ensures forall e :: e in ExpectCallables(d) ==> e.sym in LinkDecl(m, idx, typeAliasMap, d).value
    decreases d
  {
    if d.isProperExpect && d.Class? {
      LinkAllComplete(m, idx, typeAliasMap, d.members);
    }
  }

  lemma {:induction false} LinkAllComplete(m: map<Symbol, Symbol>, idx: CallableIndex,
                                           typeAliasMap: map<FqName, FqName>, ds: seq<Decl>)
    requires LinkAll(m, idx, typeAliasMap, ds).Success?
    ensures forall e :: e in ExpectCallablesAll(ds) ==> e.sym in LinkAll(m, idx, typeAliasMap, ds).value
    decreases ds
  {
    if |ds| > 0 {
      var m1 := LinkDecl(m, idx, typeAliasMap, ds[0]).value;
      LinkDeclComplete(m, idx, typeAliasMap, ds[0]);
      LinkAllComplete(m1, idx, typeAliasMap, ds[1..]);
    }
  }

  /** An expect function is linked to the first candidate under its key that
      passes `checkParameters` against the map as it stands. */
  lemma FunctionLinksFirstPassing(m: map<Symbol, Symbol>, idx: CallableIndex,
                                  typeAliasMap: map<FqName, FqName>, d: Decl)
    requires d.Function? && d.isProperExpect
    requires LinkDecl(m, idx, typeAliasMap, d).Success?
    ensures var cands := Candidates(idx, typeAliasMap, d);
            var m' := LinkDecl(m, idx, typeAliasMap, d).value;
            d.sym in m' &&
            exists i :: 0 <= i < |cands| && m'[d.sym] == cands[i].sym && cands[i].Function? &&
              CheckParameters(d, cands[i], m) &&
              forall j :: 0 <= j < i ==> !(cands[j].Function? && CheckParameters(d, cands[j], m))
  {
  }

  /** A linked expect property maps its accessors to the actual property's. */
  lemma PropertyLinksAccessors(m: map<Symbol, Symbol>, idx: CallableIndex,
                               typeAliasMap: map<FqName, FqName>, d: Decl)
    requires WellFormedIndex(idx)
    requires d.Property? && d.isProperExpect
    requires LinkDecl(m, idx, typeAliasMap, d).Success?
    ensures var id := ExpectId(typeAliasMap, d);
            var m' := LinkDecl(m, idx, typeAliasMap, d).value;
            id in idx.properties && idx.properties[id].Property? &&
            var a := idx.properties[id];
            (d.getter.Some? ==>
               (a.getter.Some? &&
                ((d.setter.None? || d.setter.value.sym != d.getter.value.sym) ==>
                  m'[d.getter.value.sym] == a.getter.value.sym))) &&
            (d.setter.Some? ==> a.setter.Some? && m'[d.setter.value.sym] == a.setter.value.sym) &&
            (d.sym !in AccessorSyms(d) ==> m'[d.sym] == a.sym)
  {
  }

  function AccessorSyms(d: Decl): set<Symbol>
    requires d.Property?
  {
    (if d.getter.Some? then {d.getter.value.sym} else {}) +
    (if d.setter.Some? then {d.setter.value.sym} else {})
  }

  /** `appendExpectActualCallablesMap`: index the callables of the actual
      declarations, then link the dependent fragments file by file. */
  function AppendExpectActualCallables(m: map<Symbol, Symbol>, allActual: seq<Decl>,
                                       typeAliasMap: map<FqName, FqName>,
                                       dependents: seq<Fragment>): (r: Result<map<Symbol, Symbol>, ActualizeError>)
    ensures r.Success? ==> m.Keys <= r.value.Keys
    ensures r.Success? ==>
              forall e :: e in ExpectCallablesAll(TopLevel(AllFiles(dependents))) ==> e.sym in r.value
    ensures var es := ExpectCallablesAll(TopLevel(AllFiles(dependents)));
            r.Success? ==>
              r.value.Keys == m.Keys + LinkedSymsOf(es) &&
              forall s :: s in m && s !in LinkedSymsOf(es) ==> r.value[s] == m[s]
    ensures var es := ExpectCallablesAll(TopLevel(AllFiles(dependents)));
            r.Success? && DistinctLinks(es) && ParamsAvoid(es, LinkedSymsOf(es)) ==>
              forall e :: e in es ==> Linked(m, CollectActualCallables(allActual), typeAliasMap, e, r.value)
  {
    var idx := CollectActualCallables(allActual);
    var ds := TopLevel(AllFiles(dependents));
    var es := ExpectCallablesAll(ds);
    var r := LinkAll(m, idx, typeAliasMap, ds);
    if r.Success? then
      LinkAllComplete(m, idx, typeAliasMap, ds);
      if DistinctLinks(es) && ParamsAvoid(es, LinkedSymsOf(es)) then
        LinkAllValues(m, m, idx, typeAliasMap, ds);
        r
      else r
    else r
  }
}
