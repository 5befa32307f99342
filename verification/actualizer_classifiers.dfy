/** The classifier half of `calculateExpectActualMap`: the actual classifiers
    of the main fragment are indexed by qualified name, then every expect
    classifier of the dependent fragments is linked to the symbol stored
    under its own key. */
module ActualizerClassifiers {
  import opened Wrappers
  import opened Indexes
  import opened IrModel

  /** The keys of a container's type parameters: the container's name, a
      dot, the parameter's name, each with the parameter's symbol. */
  function TypeParameterKeys(d: Decl): (r: seq<(FqName, Symbol)>)
    requires IsTypeParametersContainer(d)
    ensures |r| == |d.typeParameters|
    ensures forall i :: 0 <= i < |r| ==>
              r[i] == (KotlinFqName(d) + "." + d.typeParameters[i].name, d.typeParameters[i].sym)
  {
    seq(|d.typeParameters|, i requires 0 <= i < |d.typeParameters| =>
      (FromSegments(KotlinFqName(d), d.typeParameters[i].name), d.typeParameters[i].sym))
  }

  // ----- collection over the main fragment -----

  /** The write a top-level declaration of the main fragment makes to the
      classifier index for itself. */
  function OwnClassifierWrite(d: Decl): (r: seq<(FqName, Symbol)>)
    ensures |r| <= 1
  {
    match d
    case TypeAlias(_, _, _, _, _, _, _, _) =>
      if d.isActual then [(KotlinFqName(d), d.expanded)] else []
    case Class(_, _, _, _, _, _, _, _, _) =>
      if !d.isExpect then [(KotlinFqName(d), d.sym)] else []
    case EnumEntry(_, _, _, _, _) =>
      if !d.isProperExpect then [(FromSegments(d.parentFq, d.name), d.sym)] else []
    case _ => []
  }

  /** The writes one top-level declaration of the main fragment makes to the
      classifier index, in the order the code makes them: its own, then its
      type parameters'. */
  function ClassifierWrites(d: Decl): (r: seq<(FqName, Symbol)>)
  {
    OwnClassifierWrite(d)
    + (if IsTypeParametersContainer(d) && !d.isProperExpect then TypeParameterKeys(d) else [])
  }

  /** The declarations one top-level declaration adds to `allActualDeclarations`:
      an actual alias contributes the class it expands to. */
  function ActualContribution(owners: map<Symbol, Decl>, d: Decl): (r: seq<Decl>)
    ensures |r| <= 1
  {
    match d
    case TypeAlias(_, _, _, _, _, _, _, _) =>
      if d.isActual && IsClassSymbol(owners, d.expanded) then [owners[d.expanded]] else []
    case Class(_, _, _, _, _, _, _, _, _) => if !d.isExpect then [d] else []
    case _ => if !d.isProperExpect then [d] else []
  }

  /** The write one top-level declaration makes to `typeAliasMap`. */
  function AliasWrite(owners: map<Symbol, Decl>, d: Decl): (r: seq<(FqName, FqName)>)
    ensures |r| <= 1
  {
    if d.TypeAlias? && d.isActual && IsClassSymbol(owners, d.expanded)
    then [(KotlinFqName(d), KotlinFqName(owners[d.expanded]))]
    else []
  }

  /** What `collectActualClassifiers` leaves behind. */
  datatype ClassifierTables = ClassifierTables(
    actualClassifiers: map<FqName, Symbol>,
    allActualDeclarations: seq<Decl>,
    typeAliasMap: map<FqName, FqName>)

  function AllClassifierWrites(main: Fragment): seq<(FqName, Symbol)>
  {
    FlatMap(TopLevel(main.files), ClassifierWrites)
  }

  function AllAliasWrites(owners: map<Symbol, Decl>, main: Fragment): seq<(FqName, FqName)>
  {
    FlatMap(TopLevel(main.files), d => AliasWrite(owners, d))
  }

  /** `collectActualClassifiers`: one pass over the top-level declarations of
      the main fragment, filling the three tables. Each table only reads its
      own writes, so the pass is the three folds side by side. */
  function CollectActualClassifiers(owners: map<Symbol, Decl>, main: Fragment): (r: ClassifierTables)
  {
    var decls := TopLevel(main.files);
    ClassifierTables(
      Overwrite(map[], AllClassifierWrites(main)),
      Dedup(FlatMap(decls, d => ActualContribution(owners, d))),
      Overwrite(map[], AllAliasWrites(owners, main)))
  }

  /** The classifier index holds exactly the keys written, each with the
      symbol of the last write to it. */
  lemma ClassifierIndexLastWins(owners: map<Symbol, Decl>, main: Fragment, key: FqName)
    ensures var t := CollectActualClassifiers(owners, main);
            var w := LastWrite(AllClassifierWrites(main), key);
            (key in t.actualClassifiers <==> w.Some?) &&
            (w.Some? ==> t.actualClassifiers[key] == w.value)
  {
    OverwriteLastWins(map[], AllClassifierWrites(main), key);
  }

  /** An actual alias writes its own name pointing at the expanded classifier,
      and, for a class, records the class's name under the alias's name. */
  lemma AliasRegistersExpandedClass(owners: map<Symbol, Decl>, d: Decl)
    requires d.TypeAlias? && d.isActual
    ensures (KotlinFqName(d), d.expanded) in ClassifierWrites(d)
    ensures IsClassSymbol(owners, d.expanded) ==>
              AliasWrite(owners, d) == [(KotlinFqName(d), KotlinFqName(owners[d.expanded]))] &&
              ActualContribution(owners, d) == [owners[d.expanded]]
  {
    assert ClassifierWrites(d)[0] == (KotlinFqName(d), d.expanded);
  }

  /** The keys of the actual classifiers: a class under its name, an enum
      entry under its parent's name and its own, a type parameter under its
      container's name and its own. */
  lemma ActualKeys(d: Decl)
    ensures d.Class? && !d.isExpect ==> (KotlinFqName(d), d.sym) in ClassifierWrites(d)
    ensures d.EnumEntry? && !d.isProperExpect ==>
              (d.parentFq + "." + d.name, d.sym) in ClassifierWrites(d)
    ensures IsTypeParametersContainer(d) && !d.isProperExpect ==>
              forall i :: 0 <= i < |d.typeParameters| ==>
                (KotlinFqName(d) + "." + d.typeParameters[i].name, d.typeParameters[i].sym)
                  in ClassifierWrites(d)
  {
    var own := OwnClassifierWrite(d);
    if IsTypeParametersContainer(d) && !d.isProperExpect {
      InConcat(own, TypeParameterKeys(d));
    }
    if (d.Class? && !d.isExpect) || (d.EnumEntry? && !d.isProperExpect) {
      assert ClassifierWrites(d)[0] == own[0];
    }
  }

  lemma InConcat<T>(a: seq<T>, b: seq<T>)
    ensures forall x :: x in b ==> x in a + b
  {
  }

  // ----- linking the dependent fragments -----

  /** The key an expect class or enum entry of a dependent fragment is
      looked up by. */
  function OwnExpectKey(d: Decl): (r: seq<(FqName, Symbol)>)
    ensures |r| <= 1
  {
    match d
    case Class(_, _, _, _, _, _, _, _, _) =>
      if d.isExpect then [(KotlinFqName(d), d.sym)] else []
    case EnumEntry(_, _, _, _, _) =>
      if d.isProperExpect then [(FromSegments(d.parentFq, d.name), d.sym)] else []
    case _ => []
  }

  /** The expect classifiers of one top-level declaration of a dependent
      fragment, each with the key it is looked up by, in linking order. */
  function ExpectClassifierKeys(d: Decl): (r: seq<(FqName, Symbol)>)
  {
    OwnExpectKey(d)
    + (if IsTypeParametersContainer(d) && d.isProperExpect then TypeParameterKeys(d) else [])
  }

  /** The expect side uses the same key construction as the actual side:
      so an expect classifier finds the actual written under its own name. */
  lemma ExpectKeys(d: Decl)
    ensures d.Class? && d.isExpect ==> (KotlinFqName(d), d.sym) in ExpectClassifierKeys(d)
    ensures d.EnumEntry? && d.isProperExpect ==>
              (d.parentFq + "." + d.name, d.sym) in ExpectClassifierKeys(d)
    ensures IsTypeParametersContainer(d) && d.isProperExpect ==>
              forall i :: 0 <= i < |d.typeParameters| ==>
                (KotlinFqName(d) + "." + d.typeParameters[i].name, d.typeParameters[i].sym)
                  in ExpectClassifierKeys(d)
    ensures (!(d.Class? && d.isExpect) && !(d.EnumEntry? && d.isProperExpect) &&
             !(IsTypeParametersContainer(d) && d.isProperExpect)) ==> ExpectClassifierKeys(d) == []
  {
    var own := OwnExpectKey(d);
    if IsTypeParametersContainer(d) && d.isProperExpect {
      InConcat(own, TypeParameterKeys(d));
    }
    if (d.Class? && d.isExpect) || (d.EnumEntry? && d.isProperExpect) {
      assert ExpectClassifierKeys(d)[0] == own[0];
    }
  }

  function AllExpectClassifierKeys(dependents: seq<Fragment>): seq<(FqName, Symbol)>
  {
    FlatMap(TopLevel(AllFiles(dependents)), ExpectClassifierKeys)
  }

  /** `linkActualOrReportMissing` over the expect classifiers in order: each
      expect symbol is mapped to the symbol stored under its key; the first
      key the index lacks ends the pass with the missing-actual error. */
  function LinkClassifiers(m: map<Symbol, Symbol>, index: map<FqName, Symbol>,
                           links: seq<(FqName, Symbol)>): (r: Result<map<Symbol, Symbol>, ActualizeError>)
    ensures r.Success? <==> forall i :: 0 <= i < |links| ==> links[i].0 in index
    ensures r.Failure? ==>
              exists i :: 0 <= i < |links| && links[i].0 !in index &&
                r.error == MissingActual(links[i].1) &&
                forall j :: 0 <= j < i ==> links[j].0 in index
    decreases |links|
  {
    if |links| == 0 then Success(m)
    else if links[0].0 !in index then Failure(MissingActual(links[0].1))
    else
      var r := LinkClassifiers(m[links[0].1 := index[links[0].0]], index, links[1..]);
      assert forall i :: 1 <= i < |links| ==> links[1..][i - 1] == links[i];
      r
  }

  /** A successful link keeps every earlier entry's key, adds each expect
      symbol, and maps it to the symbol under its key (unless the same expect
      symbol is linked again later). */
  lemma {:induction false} LinkClassifiersMaps(m: map<Symbol, Symbol>, index: map<FqName, Symbol>,
                                              links: seq<(FqName, Symbol)>)
    requires LinkClassifiers(m, index, links).Success?
    ensures var m' := LinkClassifiers(m, index, links).value;
            forall s :: s in m' <==> s in m || exists i :: 0 <= i < |links| && links[i].1 == s
    ensures var m' := LinkClassifiers(m, index, links).value;
            forall i :: 0 <= i < |links| && (forall j :: i < j < |links| ==> links[j].1 != links[i].1) ==>
              links[i].1 in m' && m'[links[i].1] == index[links[i].0]
    ensures var m' := LinkClassifiers(m, index, links).value;
            forall s :: s in m && (forall i :: 0 <= i < |links| ==> links[i].1 != s) ==> m'[s] == m[s]
    decreases |links|
  {
    if |links| > 0 {
      var m1 := m[links[0].1 := index[links[0].0]];
      LinkClassifiersMaps(m1, index, links[1..]);
      assert forall i :: 1 <= i < |links| ==> links[1..][i - 1] == links[i];
    }
  }

  /** `appendExpectActualClassifiersMap`: collect over the main fragment,
      then link over the dependent fragments. */
  function AppendExpectActualClassifiers(owners: map<Symbol, Decl>, main: Fragment,
                                         dependents: seq<Fragment>): (r: Result<(map<Symbol, Symbol>, ClassifierTables), ActualizeError>)
    ensures r.Success? ==> r.value.1 == CollectActualClassifiers(owners, main)
    ensures r.Success? <==>
              forall k :: k in AllExpectClassifierKeys(dependents) ==>
                k.0 in CollectActualClassifiers(owners, main).actualClassifiers
    ensures r.Success? ==> r.value.0.Keys == ExpectClassifierSyms(dependents)
    ensures var links := AllExpectClassifierKeys(dependents);
            r.Success? ==>
              forall i :: 0 <= i < |links| && LastLink(links, i) ==>
                links[i].0 in r.value.1.actualClassifiers && links[i].1 in r.value.0 &&
                r.value.0[links[i].1] == r.value.1.actualClassifiers[links[i].0]
  {
    var tables := CollectActualClassifiers(owners, main);
    var links := AllExpectClassifierKeys(dependents);
    var linked := LinkClassifiers(map[], tables.actualClassifiers, links);
    if linked.Failure? then Failure(linked.error)
    else
      LinkClassifiersMaps(map[], tables.actualClassifiers, links);
      assert linked.value.Keys == ExpectClassifierSyms(dependents) by {
        forall s | s in linked.value
          ensures s in ExpectClassifierSyms(dependents)
        {
          var i :| 0 <= i < |links| && links[i].1 == s;
          assert links[i] in links;
        }
      }
      Success((linked.value, tables))
  }

  /** The symbols of the expect classifiers of the dependent fragments. */
  function ExpectClassifierSyms(dependents: seq<Fragment>): set<Symbol>
  {
    set k | k in AllExpectClassifierKeys(dependents) :: k.1
  }

  /** No later link is for the same expect symbol as link `i`. */
  predicate LastLink(links: seq<(FqName, Symbol)>, i: nat)
    requires i < |links|
  {
    forall j :: i < j < |links| ==> links[j].1 != links[i].1
  }

  /** An expect class among the dependent fragments' top-level declarations
      is linked under its own name, and a missing name fails the pass. */
  lemma ExpectClassLinked(owners: map<Symbol, Decl>, main: Fragment, dependents: seq<Fragment>, c: Decl)
    requires c in TopLevel(AllFiles(dependents)) && c.Class? && c.isExpect
    ensures (KotlinFqName(c), c.sym) in AllExpectClassifierKeys(dependents)
    ensures KotlinFqName(c) !in CollectActualClassifiers(owners, main).actualClassifiers ==>
              AppendExpectActualClassifiers(owners, main, dependents).Failure?
  {
    ExpectKeys(c);
    FlatMapContains(TopLevel(AllFiles(dependents)), ExpectClassifierKeys, c, (KotlinFqName(c), c.sym));
  }
}
