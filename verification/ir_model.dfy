/** The slice of the Kotlin IR the expect/actual actualizer reads and writes.
    Symbols are numeric ids, qualified names are strings, and `symbol.owner`
    is a table from symbols to the declarations they are bound to. */
module IrModel {
  import opened Wrappers
  import opened Indexes
  import FqNames
  import Strings

  type Symbol = nat
  type FqName = string

  /** `UNDEFINED_OFFSET`: the start offset of declarations without source
      (builtins and synthesized members). */
  const UNDEFINED_OFFSET: int := -1

  datatype Origin = Defined | FakeOverride

  datatype TypeParameter = TypeParameter(sym: Symbol, name: string)

  /** A declaration. Every kind has a symbol, an `isProperExpect` flag and a
      start offset; `parentFq` is `parent.kotlinFqName`. Function value
      parameters are given by the classifier symbols of their types, which is
      all `checkParameters` reads. `refs` are the other symbols a declaration
      refers to (calls, type uses), the ones the final rewrite redirects.
      `isImpl` tells an `IrFunctionImpl` / `IrPropertyImpl` from other
      implementations (constructors, lazy declarations). */
  datatype Decl =
    | Class(sym: Symbol, name: string, parentFq: FqName, isExpect: bool, isProperExpect: bool,
            startOffset: int, typeParameters: seq<TypeParameter>, superTypes: seq<Symbol>,
            members: seq<Decl>)
    | EnumEntry(sym: Symbol, name: string, parentFq: FqName, isProperExpect: bool, startOffset: int)
    | Function(sym: Symbol, name: string, parentFq: FqName, isProperExpect: bool, startOffset: int,
               isImpl: bool, origin: Origin, typeParameters: seq<TypeParameter>,
               valueParameters: seq<Symbol>, overridden: seq<Symbol>,
               correspondingProperty: Option<Symbol>, refs: seq<Symbol>)
    | Property(sym: Symbol, name: string, parentFq: FqName, isProperExpect: bool, startOffset: int,
               isImpl: bool, origin: Origin, getter: Option<Decl>, setter: Option<Decl>,
               overridden: seq<Symbol>, refs: seq<Symbol>)
    | TypeAlias(sym: Symbol, name: string, parentFq: FqName, isActual: bool, isProperExpect: bool,
                startOffset: int, typeParameters: seq<TypeParameter>, expanded: Symbol)
    | Other(sym: Symbol, otherName: Option<string>, isProperExpect: bool, startOffset: int,
            refs: seq<Symbol>)

  datatype File = File(declarations: seq<Decl>)

  /** The `AssertionError`s the pass throws; the first one ends the pass.
      `MissingAccessor` is the `NullPointerException` of `!!` on an actual
      property that lacks the accessor its expect declares. */
  datatype ActualizeError =
    | MissingActual(sym: Symbol)
    | ManyInterfacesMembersNotImplemented(className: string, memberName: Option<string>)
    | MissingAccessor(sym: Symbol)

  datatype Fragment = Fragment(files: seq<File>)

  /** `declaration.name` for an `IrDeclarationWithName`, `null` otherwise. */
  function NameOf(d: Decl): (r: Option<string>)
    ensures !d.Other? ==> r == Some(d.name)
  {
    if d.Other? then d.otherName else Some(d.name)
  }

  /** `kotlinFqName` of a named declaration: its parent's name extended by its own. */
  function KotlinFqName(d: Decl): (r: FqName)
    requires !d.Other?
    ensures d.parentFq == "" ==> r == d.name
    ensures d.parentFq != "" ==> r == d.parentFq + "." + d.name
  {
    FqNames.ChildString(d.parentFq, d.name)
  }

  /** A declaration's qualified name is `FqNameUnsafe.child` of its parent's
      name: its `parent()` is the parent's name and its `shortName()` its
      own name. */
  lemma KotlinFqNameIsChild(d: Decl)
    requires !d.Other?
    ensures var c := FqNames.Child(FqNames.FromString(d.parentFq), d.name);
            KotlinFqName(d) == c.fqName &&
            FqNames.Parent(c) == Success(FqNames.FromString(d.parentFq)) &&
            FqNames.ShortName(c) == Success(d.name)
  {
  }

  /** `FqName.fromSegments(listOf(a, b))`: the two strings joined by a dot,
      even when `a` is the root's empty string. */
  function FromSegments(a: string, b: string): (r: FqName)
    ensures |r| == |a| + 1 + |b| && r[..|a|] == a && r[|a|] == '.' && r[|a| + 1..] == b
    ensures '.' !in b ==> Strings.LastIndexOf(r, '.') == |a|
  {
    var r := a + "." + b;
    assert r[|a| + 1..] == b;
    r
  }

  /** The top-level declarations of some files, file by file. */
  function TopLevel(files: seq<File>): seq<Decl>
  {
    FlatMap(files, (f: File) => f.declarations)
  }

  /** The files of some fragments, fragment by fragment. */
  function AllFiles(fragments: seq<Fragment>): seq<File>
  {
    FlatMap(fragments, (fr: Fragment) => fr.files)
  }

  /** `symbol is IrClassSymbol`: the symbol is bound to a class. */
  predicate IsClassSymbol(owners: map<Symbol, Decl>, s: Symbol) {
    s in owners && owners[s].Class?
  }

  /** `IrTypeParametersContainer`: classes, functions and type aliases. */
  predicate IsTypeParametersContainer(d: Decl) {
    d.Class? || d.Function? || d.TypeAlias?
  }

  // ----- reference rewriting -----

  /** One reference through the expect-to-actual map. */
  function SubstSym(m: map<Symbol, Symbol>, s: Symbol): (r: Symbol)
    ensures s in m ==> r == m[s]
    ensures s !in m ==> r == s
  {
    if s in m then m[s] else s
  }

  function SubstSeq(m: map<Symbol, Symbol>, xs: seq<Symbol>): (r: seq<Symbol>)
    ensures |r| == |xs|
    ensures forall i :: 0 <= i < |xs| ==> r[i] == SubstSym(m, xs[i])
  {
    seq(|xs|, i requires 0 <= i < |xs| => SubstSym(m, xs[i]))
  }

  /** Every reference of a declaration and of its members redirected through
      the map; the declarations' own symbols are left alone. */
  function SubstDecl(m: map<Symbol, Symbol>, d: Decl): (r: Decl)
    decreases d
  {
    match d
    case Class(_, _, _, _, _, _, _, superTypes, members) =>
      d.(superTypes := SubstSeq(m, superTypes),
         members := seq(|members|, i requires 0 <= i < |members| => SubstDecl(m, members[i])))
    case EnumEntry(_, _, _, _, _) => d
    case Function(_, _, _, _, _, _, _, _, valueParameters, overridden, _, refs) =>
      d.(valueParameters := SubstSeq(m, valueParameters), overridden := SubstSeq(m, overridden),
         refs := SubstSeq(m, refs))
    case Property(_, _, _, _, _, _, _, getter, setter, overridden, refs) =>
      d.(getter := if getter.Some? then Some(SubstDecl(m, getter.value)) else None,
         setter := if setter.Some? then Some(SubstDecl(m, setter.value)) else None,
         overridden := SubstSeq(m, overridden), refs := SubstSeq(m, refs))
    case TypeAlias(_, _, _, _, _, _, _, expanded) => d.(expanded := SubstSym(m, expanded))
    case Other(_, _, _, _, refs) => d.(refs := SubstSeq(m, refs))
  }

  /** The symbols a declaration refers to, its members' included. */
  function Refs(d: Decl): (r: set<Symbol>)
    decreases d
  {
    match d
    case Class(_, _, _, _, _, _, _, superTypes, members) =>
      (set s | s in superTypes) +
      (set i, s | 0 <= i < |members| && s in Refs(members[i]) :: s)
    case EnumEntry(_, _, _, _, _) => {}
    case Function(_, _, _, _, _, _, _, _, valueParameters, overridden, _, refs) =>
      (set s | s in valueParameters) + (set s | s in overridden) + (set s | s in refs)
    case Property(_, _, _, _, _, _, _, getter, setter, overridden, refs) =>
      (if getter.Some? then Refs(getter.value) else {}) +
      (if setter.Some? then Refs(setter.value) else {}) +
      (set s | s in overridden) + (set s | s in refs)
    case TypeAlias(_, _, _, _, _, _, _, expanded) => {expanded}
    case Other(_, _, _, _, refs) => set s | s in refs
  }

  /** The rewrite leaves a declaration's own identity alone. */
  lemma SubstKeepsShape(m: map<Symbol, Symbol>, d: Decl)
    ensures SubstDecl(m, d).sym == d.sym && NameOf(SubstDecl(m, d)) == NameOf(d)
    ensures SubstDecl(m, d).isProperExpect == d.isProperExpect
    ensures SubstDecl(m, d).startOffset == d.startOffset
    ensures d.Class? ==> SubstDecl(m, d).Class? && |SubstDecl(m, d).members| == |d.members|
  {
  }

  /** Rewriting through a map whose targets are never themselves expect
      symbols leaves no reference to an expect symbol behind. */
  lemma {:induction false} SubstRemovesKeys(m: map<Symbol, Symbol>, d: Decl)
    requires forall k :: k in m ==> m[k] !in m
    ensures forall s :: s in Refs(SubstDecl(m, d)) ==> s !in m
    decreases d
  {
    match d
    case Class(_, _, _, _, _, _, _, _, members) =>
      forall i | 0 <= i < |members| {
        SubstRemovesKeys(m, members[i]);
      }
    case Property(_, _, _, _, _, _, _, getter, setter, _, _) =>
      if getter.Some? {
        SubstRemovesKeys(m, getter.value);
      }
      if setter.Some? {
        SubstRemovesKeys(m, setter.value);
      }
    case _ =>
  }

  /** Under the same condition the rewrite is idempotent: a second pass finds
      nothing left to redirect. */
  lemma {:induction false} SubstIdempotent(m: map<Symbol, Symbol>, d: Decl)
    requires forall k :: k in m ==> m[k] !in m
    ensures SubstDecl(m, SubstDecl(m, d)) == SubstDecl(m, d)
    decreases d
  {
    match d
    case Class(_, _, _, _, _, _, _, superTypes, members) =>
      forall i | 0 <= i < |members| {
        SubstIdempotent(m, members[i]);
      }
      SubstSeqIdempotent(m, superTypes);
      MembersIdempotent(m, d);
    case Property(_, _, _, _, _, _, _, getter, setter, overridden, refs) =>
      if getter.Some? {
        SubstIdempotent(m, getter.value);
      }
      if setter.Some? {
        SubstIdempotent(m, setter.value);
      }
      SubstSeqIdempotent(m, overridden);
      SubstSeqIdempotent(m, refs);
    case Function(_, _, _, _, _, _, _, _, valueParameters, overridden, _, refs) =>
      SubstSeqIdempotent(m, valueParameters);
      SubstSeqIdempotent(m, overridden);
      SubstSeqIdempotent(m, refs);
    case Other(_, _, _, _, refs) =>
      SubstSeqIdempotent(m, refs);
    case _ =>
  }

  lemma SubstSeqIdempotent(m: map<Symbol, Symbol>, xs: seq<Symbol>)
    requires forall k :: k in m ==> m[k] !in m
    ensures SubstSeq(m, SubstSeq(m, xs)) == SubstSeq(m, xs)
  {
  }

  lemma MembersIdempotent(m: map<Symbol, Symbol>, d: Decl)
    requires d.Class?
    requires forall i :: 0 <= i < |d.members| ==>
               SubstDecl(m, SubstDecl(m, d.members[i])) == SubstDecl(m, d.members[i])
    ensures SubstDecl(m, SubstDecl(m, d)).members == SubstDecl(m, d).members
  {
  }

  /** The empty map rewrites nothing. */
  lemma {:induction false} SubstEmpty(d: Decl)
    ensures SubstDecl(map[], d) == d
    decreases d
  {
    match d
    case Class(_, _, _, _, _, _, _, superTypes, members) =>
      forall i | 0 <= i < |members| {
        SubstEmpty(members[i]);
      }
      assert SubstSeq(map[], superTypes) == superTypes;
      assert SubstDecl(map[], d).members == members;
    case Property(_, _, _, _, _, _, _, getter, setter, overridden, refs) =>
      if getter.Some? {
        SubstEmpty(getter.value);
      }
      if setter.Some? {
        SubstEmpty(setter.value);
      }
      assert SubstSeq(map[], overridden) == overridden;
      assert SubstSeq(map[], refs) == refs;
    case Function(_, _, _, _, _, _, _, _, valueParameters, overridden, _, refs) =>
      assert SubstSeq(map[], valueParameters) == valueParameters;
      assert SubstSeq(map[], overridden) == overridden;
      assert SubstSeq(map[], refs) == refs;
    case Other(_, _, _, _, refs) =>
      assert SubstSeq(map[], refs) == refs;
    case _ =>
  }
}
