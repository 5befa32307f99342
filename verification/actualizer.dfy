/** `IrActualizer.actualize`: compute the expect-to-actual map, remove the
    expect declarations from the dependent fragments, give their classes the
    fake overrides they inherit from actual supertypes, redirect their
    references to the actual symbols, and append their files to the main
    fragment. The first error ends the pass. */
module Actualizer {
  import opened Wrappers
  import opened Indexes
  import opened IrModel
  import opened ActualizerClassifiers
  import opened ActualizerCallables
  import opened ActualizerFakeOverrides

  /** `calculateExpectActualMap`: classifiers first, so that callables can
      look through actual type aliases. The map holds exactly the expect
      classifiers and the symbols the callable linking writes. When those
      two sets are apart, each expect classifier keeps the actual stored
      under its key; when the callables write distinct symbols and no expect
      parameter is among them, each is linked as `Linked` states against
      the classifier map. */
  function CalculateExpectActualMap(owners: map<Symbol, Decl>, main: Fragment,
                                    dependents: seq<Fragment>): (r: Result<map<Symbol, Symbol>, ActualizeError>)
    ensures r.Success? ==>
              forall k :: k in AllExpectClassifierKeys(dependents) ==> k.1 in r.value
    ensures r.Success? ==>
              forall e :: e in ExpectCallablesAll(TopLevel(AllFiles(dependents))) ==> e.sym in r.value
    ensures var es := ExpectCallablesAll(TopLevel(AllFiles(dependents)));
            r.Success? ==> r.value.Keys == ExpectClassifierSyms(dependents) + LinkedSymsOf(es)
    ensures var es := ExpectCallablesAll(TopLevel(AllFiles(dependents)));
            var links := AllExpectClassifierKeys(dependents);
            var index := CollectActualClassifiers(owners, main).actualClassifiers;
            r.Success? && ExpectClassifierSyms(dependents) !! LinkedSymsOf(es) ==>
              forall i :: 0 <= i < |links| && LastLink(links, i) ==>
                links[i].0 in index && links[i].1 in r.value && r.value[links[i].1] == index[links[i].0]
    ensures var es := ExpectCallablesAll(TopLevel(AllFiles(dependents)));
            var c := AppendExpectActualClassifiers(owners, main, dependents);
            var tables := CollectActualClassifiers(owners, main);
            r.Success? && DistinctLinks(es) && ParamsAvoid(es, LinkedSymsOf(es)) ==>
              c.Success? &&
              forall e :: e in es ==>
                Linked(c.value.0, CollectActualCallables(tables.allActualDeclarations), tables.typeAliasMap, e, r.value)
  {
    var classifiers :- AppendExpectActualClassifiers(owners, main, dependents);
    ClassifierKeysLinked(owners, main, dependents);
    var tables := classifiers.1;
    AppendExpectActualCallables(classifiers.0, tables.allActualDeclarations, tables.typeAliasMap, dependents)
  }

  lemma ClassifierKeysLinked(owners: map<Symbol, Decl>, main: Fragment, dependents: seq<Fragment>)
    requires AppendExpectActualClassifiers(owners, main, dependents).Success?
    ensures forall k :: k in AllExpectClassifierKeys(dependents) ==>
              k.1 in AppendExpectActualClassifiers(owners, main, dependents).value.0
  {
    var tables := CollectActualClassifiers(owners, main);
    var links := AllExpectClassifierKeys(dependents);
    LinkClassifiersMaps(map[], tables.actualClassifiers, links);
  }

  // ----- removeExpectDeclaration -----

  /** `declarations.removeAll { it.isProperExpect }`. */
  function RemoveProperExpect(ds: seq<Decl>): (r: seq<Decl>)
    ensures forall d :: d in r <==> d in ds && !d.isProperExpect
    decreases |ds|
  {
    if |ds| == 0 then []
    else
      var rest := RemoveProperExpect(ds[1..]);
      assert forall d :: d in ds <==> d == ds[0] || d in ds[1..];
      if ds[0].isProperExpect then rest else [ds[0]] + rest
  }

  /** The removal keeps the order of what it keeps: it distributes over
      concatenation, and a second removal changes nothing. */
  lemma {:induction false} RemoveProperExpectAppend(a: seq<Decl>, b: seq<Decl>)
    ensures RemoveProperExpect(a + b) == RemoveProperExpect(a) + RemoveProperExpect(b)
    decreases |a|
  {
    if |a| == 0 {
      assert a + b == b;
    } else {
      assert (a + b)[1..] == a[1..] + b;
      RemoveProperExpectAppend(a[1..], b);
    }
  }

  lemma {:induction false} RemoveProperExpectIdempotent(ds: seq<Decl>)
    ensures RemoveProperExpect(RemoveProperExpect(ds)) == RemoveProperExpect(ds)
    decreases |ds|
  {
    if |ds| > 0 {
      RemoveProperExpectIdempotent(ds[1..]);
    }
  }

  /** `removeExpectDeclaration` over every file of every dependent fragment. */
  function RemoveExpectDeclarations(dependents: seq<Fragment>): (r: seq<Fragment>)
    ensures |r| == |dependents|
    ensures forall i :: 0 <= i < |r| ==> |r[i].files| == |dependents[i].files|
    ensures forall i, j :: 0 <= i < |r| && 0 <= j < |r[i].files| ==>
              forall d :: d in r[i].files[j].declarations <==>
                d in dependents[i].files[j].declarations && !d.isProperExpect
  {
    seq(|dependents|, i requires 0 <= i < |dependents| =>
      Fragment(seq(|dependents[i].files|, j requires 0 <= j < |dependents[i].files| =>
        File(RemoveProperExpect(dependents[i].files[j].declarations)))))
  }

  // ----- linkExpectToActual -----

  /** `IrActualizerTransformer(expectActualMap).actualize(fragment)` for
      every dependent fragment: every reference redirected through the map. */
  function LinkExpectToActual(m: map<Symbol, Symbol>, dependents: seq<Fragment>): (r: seq<Fragment>)
    ensures |r| == |dependents|
    ensures forall i :: 0 <= i < |r| ==> |r[i].files| == |dependents[i].files|
    ensures forall i, j :: 0 <= i < |r| && 0 <= j < |r[i].files| ==>
              |r[i].files[j].declarations| == |dependents[i].files[j].declarations|
  {
    seq(|dependents|, i requires 0 <= i < |dependents| =>
      Fragment(seq(|dependents[i].files|, j requires 0 <= j < |dependents[i].files| =>
        var ds := dependents[i].files[j].declarations;
        File(seq(|ds|, k requires 0 <= k < |ds| => SubstDecl(m, ds[k]))))))
  }

  /** When no actual symbol is itself an expect symbol, the linked fragments
      refer to no expect symbol, and the declarations keep their own
      symbols and flags. */
  lemma LinkedRefersToNoExpect(m: map<Symbol, Symbol>, dependents: seq<Fragment>, i: nat, j: nat, k: nat)
    requires forall s :: s in m ==> m[s] !in m
    requires i < |dependents| && j < |dependents[i].files| && k < |dependents[i].files[j].declarations|
    ensures var d := dependents[i].files[j].declarations[k];
            var d' := LinkExpectToActual(m, dependents)[i].files[j].declarations[k];
            (forall s :: s in Refs(d') ==> s !in m) &&
            d'.sym == d.sym && d'.isProperExpect == d.isProperExpect
  {
    var d := dependents[i].files[j].declarations[k];
    SubstRemovesKeys(m, d);
    SubstKeepsShape(m, d);
  }

  // ----- mergeIrFragments -----

  /** `mainFragment.files.addAll(dependentFragments.flatMap { it.files })`. */
  function MergeIrFragments(main: Fragment, dependents: seq<Fragment>): (r: Fragment)
    ensures |r.files| >= |main.files| && r.files[..|main.files|] == main.files
  {
    Fragment(main.files + AllFiles(dependents))
  }

  /** After the merge the main fragment's top-level declarations are its own,
      then those of the dependent fragments, fragment by fragment and file by file. */
  lemma MergeTopLevel(main: Fragment, dependents: seq<Fragment>)
    ensures TopLevel(MergeIrFragments(main, dependents).files) ==
            TopLevel(main.files) + TopLevel(AllFiles(dependents))
  {
    FlatMapAppend(main.files, AllFiles(dependents), (f: File) => f.declarations);
  }

  // ----- the whole pass -----

  /** `actualize(mainFragment, dependentFragments)`: the main fragment after
      the merge, the dependent fragments as they are left, and the next
      free symbol of the supply the fake overrides draw from. */
  function Actualize(owners: map<Symbol, Decl>, main: Fragment, dependents: seq<Fragment>,
                     next: nat): (r: Result<(Fragment, seq<Fragment>, nat), ActualizeError>)
    ensures r.Success? ==> r.value.0.files == main.files + AllFiles(r.value.1)
    ensures r.Success? ==> |r.value.1| == |dependents| && r.value.2 >= next
  {
    var m :- CalculateExpectActualMap(owners, main, dependents);
    var removed := RemoveExpectDeclarations(dependents);
    var withOverrides :- AddMissingFakeOverrides(removed, m, owners, next);
    var linked := LinkExpectToActual(m, withOverrides.0);
    Success((MergeIrFragments(main, linked), linked, withOverrides.1))
  }

  /** No properly expect declaration is left at the top level of a
      dependent fragment. */
  lemma ActualizeRemovesExpect(owners: map<Symbol, Decl>, main: Fragment, dependents: seq<Fragment>,
                               next: nat, i: nat, j: nat, k: nat)
    requires Actualize(owners, main, dependents, next).Success?
    requires var deps := Actualize(owners, main, dependents, next).value.1;
             i < |deps| && j < |deps[i].files| && k < |deps[i].files[j].declarations|
    ensures !Actualize(owners, main, dependents, next).value.1[i].files[j].declarations[k].isProperExpect
  {
    var m := CalculateExpectActualMap(owners, main, dependents).value;
    var removed := RemoveExpectDeclarations(dependents);
    var withOverrides := AddMissingFakeOverrides(removed, m, owners, next).value.0;
    var d := withOverrides[i].files[j].declarations[k];
    SubstKeepsShape(m, d);
    assert removed[i].files[j].declarations[k] in removed[i].files[j].declarations;
  }

  /** An expect class of a dependent fragment without an actual class or
      alias of the same name in the main fragment fails the pass. */
  lemma MissingActualClassFails(owners: map<Symbol, Decl>, main: Fragment, dependents: seq<Fragment>,
                                next: nat, c: Decl)
    requires c in TopLevel(AllFiles(dependents)) && c.Class? && c.isExpect
    requires KotlinFqName(c) !in CollectActualClassifiers(owners, main).actualClassifiers
    ensures Actualize(owners, main, dependents, next).Failure?
  {
    ExpectClassLinked(owners, main, dependents, c);
  }
}
