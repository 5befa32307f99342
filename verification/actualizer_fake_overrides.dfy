/** `addMissingFakeOverrides`: every non-expect top-level class of the
    dependent fragments receives, for each supertype linked to an actual
    class, a fake override of each of that class's source members, unless the
    class already declares a member the override would clash with, which
    fails the pass.

    The table of existing members is computed lazily, on the first member
    that needs it, and that always happens before the first override is
    appended; so it is a snapshot of the class's own members, and overrides
    appended for one supertype are not seen while handling the next. The
    overrides are accumulated and appended at the end, which is the same
    since nothing else reads the class's member list during the loop. */
module ActualizerFakeOverrides {
  import opened Wrappers
  import opened IrModel
  import opened ActualizerCallables

  // ----- the existing-members snapshot -----

  /** `declaration.declarations.filter { startOffset != UNDEFINED_OFFSET }
      .filterIsInstance<IrDeclarationWithName>()`, before any override is added. */
  function Snapshot(ds: seq<Decl>): (r: seq<Decl>)
    ensures forall d :: d in r <==> d in ds && d.startOffset != UNDEFINED_OFFSET && NameOf(d).Some?
    decreases |ds|
  {
    if |ds| == 0 then []
    else
      var rest := Snapshot(ds[1..]);
      assert forall d :: d in ds <==> d == ds[0] || d in ds[1..];
      if ds[0].startOffset != UNDEFINED_OFFSET && NameOf(ds[0]).Some? then [ds[0]] + rest else rest
  }

  /** `members[name]`, with the empty list for a name the grouping lacks. */
  function Named(snapshot: seq<Decl>, name: string): (r: seq<Decl>)
    ensures forall d :: d in r <==> d in snapshot && NameOf(d) == Some(name)
    decreases |snapshot|
  {
    if |snapshot| == 0 then []
    else
      var rest := Named(snapshot[1..], name);
      assert forall d :: d in snapshot <==> d == snapshot[0] || d in snapshot[1..];
      if NameOf(snapshot[0]) == Some(name) then [snapshot[0]] + rest else rest
  }

  /** The loop over the same-named existing members: does some function
      among them pass `checkParameters` against the actual one? */
  function AnyMatching(existing: seq<Decl>, actual: Decl, m: map<Symbol, Symbol>): (r: bool)
    requires actual.Function?
    ensures r <==> exists e :: e in existing && e.Function? && CheckParameters(e, actual, m)
    decreases |existing|
  {
    if |existing| == 0 then false
    else
      assert forall d :: d in existing <==> d == existing[0] || d in existing[1..];
      (existing[0].Function? && CheckParameters(existing[0], actual, m)) ||
      AnyMatching(existing[1..], actual, m)
  }

  /** Reference: an actual member clashes with the class's own members when
      it is a function and an own function of that name has matching
      parameters, or when it is a property and any own member has its name. */
  predicate Conflict(snapshot: seq<Decl>, actual: Decl, m: map<Symbol, Symbol>) {
    (actual.Function? &&
      exists e :: e in snapshot && NameOf(e) == Some(actual.name) && e.Function? &&
        CheckParameters(e, actual, m)) ||
    (actual.Property? && exists e :: e in snapshot && NameOf(e) == Some(actual.name))
  }

  /** Reference: the members of an actual class that get a fake override,
      in order: implementations of functions and properties with a source offset. */
  function Eligible(members: seq<Decl>): (r: seq<Decl>)
    ensures forall d :: d in r ==> d in members
    ensures forall d :: d in r ==> d.startOffset != UNDEFINED_OFFSET && (d.Function? || d.Property?) && d.isImpl
    decreases |members|
  {
    if |members| == 0 then []
    else
      var d := members[0];
      (if d.startOffset != UNDEFINED_OFFSET && (d.Function? || d.Property?) && d.isImpl then [d] else [])
      + Eligible(members[1..])
  }

  // ----- creating the overrides -----

  /** Fresh copies of type parameters: the names kept, the symbols drawn from
      the supply starting at `next`. */
  function CloneTypeParameters(tps: seq<TypeParameter>, next: nat): (r: seq<TypeParameter>)
    ensures |r| == |tps|
    ensures forall i :: 0 <= i < |r| ==> r[i].name == tps[i].name && r[i].sym == next + i
  {
    seq(|tps|, i requires 0 <= i < |tps| => TypeParameter(next + i, tps[i].name))
  }

  /** `createFakeOverrideFunction`: a new function symbol and fresh type
      parameters; same name, offset and parameters; parent the class;
      overriding exactly the actual function. Returns the next free symbol. */
  function FakeOverrideFunction(actual: Decl, cls: Decl, corresponding: Option<Symbol>,
                                next: nat): (r: (Decl, nat))
    requires actual.Function? && cls.Class?
    ensures r.1 == next + 1 + |actual.typeParameters|
  {
    (Function(next, actual.name, KotlinFqName(cls), false, actual.startOffset, true, FakeOverride,
              CloneTypeParameters(actual.typeParameters, next + 1), actual.valueParameters,
              [actual.sym], corresponding, actual.refs),
     next + 1 + |actual.typeParameters|)
  }

  /** An accessor of the actual property: cloned when it is an `IrFunctionImpl`. */
  function FakeOverrideAccessor(accessor: Option<Decl>, cls: Decl, property: Symbol,
                                next: nat): (r: (Option<Decl>, nat))
    requires cls.Class?
    ensures r.1 >= next
  {
    if accessor.Some? && accessor.value.Function? && accessor.value.isImpl then
      var c := FakeOverrideFunction(accessor.value, cls, Some(property), next);
      (Some(c.0), c.1)
    else (None, next)
  }

  /** `createFakeOverrideProperty`: a new property symbol; the getter and
      setter cloned with it as their corresponding property. */
  function FakeOverrideProperty(actual: Decl, cls: Decl, next: nat): (r: (Decl, nat))
    requires actual.Property? && cls.Class?
    ensures r.1 > next
  {
    var getter := FakeOverrideAccessor(actual.getter, cls, next, next + 1);
    var setter := FakeOverrideAccessor(actual.setter, cls, next, getter.1);
    (Property(next, actual.name, KotlinFqName(cls), false, actual.startOffset, true, FakeOverride,
              getter.0, setter.0, [actual.sym], actual.refs),
     setter.1)
  }

  /** What a fake override of `actual` in `cls` is. */
  predicate IsFakeOverrideOf(c: Decl, actual: Decl, cls: Decl)
    requires cls.Class?
  {
    (actual.Function? || actual.Property?) && (c.Function? || c.Property?) &&
    c.origin == FakeOverride && c.isImpl && !c.isProperExpect &&
    c.name == actual.name && c.startOffset == actual.startOffset &&
    c.parentFq == KotlinFqName(cls) && c.overridden == [actual.sym] &&
    (actual.Function? ==>
       c.Function? && c.valueParameters == actual.valueParameters &&
       |c.typeParameters| == |actual.typeParameters| &&
       (forall i :: 0 <= i < |c.typeParameters| ==> c.typeParameters[i].name == actual.typeParameters[i].name) &&
       c.correspondingProperty.None?) &&
    (actual.Property? ==>
       c.Property? &&
       (c.getter.Some? <==> actual.getter.Some? && actual.getter.value.Function? && actual.getter.value.isImpl) &&
       (c.setter.Some? <==> actual.setter.Some? && actual.setter.value.Function? && actual.setter.value.isImpl) &&
       (c.getter.Some? ==> c.getter.value.Function? && c.getter.value.correspondingProperty == Some(c.sym) &&
                           c.getter.value.overridden == [actual.getter.value.sym]) &&
       (c.setter.Some? ==> c.setter.value.Function? && c.setter.value.correspondingProperty == Some(c.sym) &&
                           c.setter.value.overridden == [actual.setter.value.sym]))
  }

  /** The symbols a fake override introduces. */
  function NewSymbols(c: Decl): set<Symbol>
  {
    {c.sym} +
    (if c.Function? then set i | 0 <= i < |c.typeParameters| :: c.typeParameters[i].sym else {}) +
    (if c.Property? && c.getter.Some? && c.getter.value.Function? then
       {c.getter.value.sym} + set i | 0 <= i < |c.getter.value.typeParameters| :: c.getter.value.typeParameters[i].sym
     else {}) +
    (if c.Property? && c.setter.Some? && c.setter.value.Function? then
       {c.setter.value.sym} + set i | 0 <= i < |c.setter.value.typeParameters| :: c.setter.value.typeParameters[i].sym
     else {})
  }

  /** Both creators build a fake override whose new symbols all come from
      the supply between `next` and the returned next free symbol. */
  lemma FakeOverrideShape(actual: Decl, cls: Decl, next: nat)
    requires cls.Class? && (actual.Function? || actual.Property?)
    ensures var c := if actual.Function? then FakeOverrideFunction(actual, cls, None, next)
                     else FakeOverrideProperty(actual, cls, next);
            IsFakeOverrideOf(c.0, actual, cls) && c.0.sym == next && next < c.1 &&
            forall s :: s in NewSymbols(c.0) ==> next <= s < c.1
  {
    if actual.Property? {
      var getter := FakeOverrideAccessor(actual.getter, cls, next, next + 1);
      var setter := FakeOverrideAccessor(actual.setter, cls, next, getter.1);
      AccessorFresh(actual.getter, cls, next, next + 1);
      AccessorFresh(actual.setter, cls, next, getter.1);
    }
  }

  lemma AccessorFresh(accessor: Option<Decl>, cls: Decl, property: Symbol, next: nat)
    requires cls.Class?
    ensures var c := FakeOverrideAccessor(accessor, cls, property, next);
            c.0.Some? ==>
              c.0.value.Function? && next <= c.0.value.sym < c.1 &&
              forall i :: 0 <= i < |c.0.value.typeParameters| ==> next <= c.0.value.typeParameters[i].sym < c.1
  {
  }

  // ----- processSupertypes -----

  /** One actual member: skipped without a source offset, cloned when it is
      a function or property implementation, an error on a clash with the
      class's own members. */
  function ProcessMember(cls: Decl, snapshot: seq<Decl>, actual: Decl, m: map<Symbol, Symbol>,
                         next: nat): (r: Result<(seq<Decl>, nat), ActualizeError>)
    requires cls.Class?
  {
    if actual.startOffset == UNDEFINED_OFFSET then Success(([], next))
    else if actual.Function? && actual.isImpl then
      if AnyMatching(Named(snapshot, actual.name), actual, m)
      then Failure(ManyInterfacesMembersNotImplemented(cls.name, Some(actual.name)))
      else
        var c := FakeOverrideFunction(actual, cls, None, next);
        Success(([c.0], c.1))
    else if actual.Property? && actual.isImpl then
      if Named(snapshot, actual.name) != []
      then Failure(ManyInterfacesMembersNotImplemented(cls.name, Some(actual.name)))
      else
        var c := FakeOverrideProperty(actual, cls, next);
        Success(([c.0], c.1))
    else Success(([], next))
  }

  /** The clones an actual class's members yield, or the first clash. */
  function CloneMembers(cls: Decl, snapshot: seq<Decl>, members: seq<Decl>, m: map<Symbol, Symbol>,
                        next: nat): (r: Result<(seq<Decl>, nat), ActualizeError>)
    requires cls.Class?
    decreases |members|
  {
    if |members| == 0 then Success(([], next))
    else
      var first :- ProcessMember(cls, snapshot, members[0], m, next);
      var rest :- CloneMembers(cls, snapshot, members[1..], m, first.1);
      Success((first.0 + rest.0, rest.1))
  }

  /** The actual class a supertype is linked to, when it is linked to a class. */
  function LinkedClass(m: map<Symbol, Symbol>, owners: map<Symbol, Decl>, superType: Symbol): (r: Option<Decl>)
    ensures r.Some? ==> r.value.Class?
  {
    if superType in m && IsClassSymbol(owners, m[superType]) then Some(owners[m[superType]]) else None
  }

  /** Reference: every member that gets a fake override, supertype by supertype. */
  function Inherited(m: map<Symbol, Symbol>, owners: map<Symbol, Decl>, superTypes: seq<Symbol>): seq<Decl>
    decreases |superTypes|
  {
    if |superTypes| == 0 then []
    else
      var c := LinkedClass(m, owners, superTypes[0]);
      (if c.Some? then Eligible(c.value.members) else []) + Inherited(m, owners, superTypes[1..])
  }

  function CloneForSupertypes(cls: Decl, snapshot: seq<Decl>, superTypes: seq<Symbol>,
                              m: map<Symbol, Symbol>, owners: map<Symbol, Decl>,
                              next: nat): (r: Result<(seq<Decl>, nat), ActualizeError>)
    requires cls.Class?
    decreases |superTypes|
  {
    if |superTypes| == 0 then Success(([], next))
    else
      var c := LinkedClass(m, owners, superTypes[0]);
      var first :- if c.Some? then CloneMembers(cls, snapshot, c.value.members, m, next) else Success(([], next));
      var rest :- CloneForSupertypes(cls, snapshot, superTypes[1..], m, owners, first.1);
      Success((first.0 + rest.0, rest.1))
  }

  /** `processSupertypes(declaration, expectActualMap)`. */
  function ProcessSupertypes(cls: Decl, m: map<Symbol, Symbol>, owners: map<Symbol, Decl>,
                             next: nat): (r: Result<(Decl, nat), ActualizeError>)
    requires cls.Class?
    ensures r.Success? ==> r.value.0.Class? && r.value.1 >= next
    ensures r.Success? ==>
              r.value.0.(members := cls.members) == cls &&
              |r.value.0.members| >= |cls.members| &&
              r.value.0.members[..|cls.members|] == cls.members
  {
    var added :- CloneForSupertypes(cls, Snapshot(cls.members), cls.superTypes, m, owners, next);
    CloneForSupertypesSpec(cls, Snapshot(cls.members), cls.superTypes, m, owners, next);
    Success((cls.(members := cls.members + added.0), added.1))
  }

  // ----- what processSupertypes does -----

  /** `c` are the fake overrides, in order, of the members `e`. */
  predicate OverridesOf(cls: Decl, c: seq<Decl>, e: seq<Decl>)
    requires cls.Class?
  {
    |c| == |e| && forall i :: 0 <= i < |e| ==> IsFakeOverrideOf(c[i], e[i], cls)
  }

  /** Overrides of two runs of members, one after the other. */
  lemma ConcatOverrides(cls: Decl, c1: seq<Decl>, e1: seq<Decl>, c2: seq<Decl>, e2: seq<Decl>)
    requires cls.Class?
    requires OverridesOf(cls, c1, e1) && OverridesOf(cls, c2, e2)
    ensures OverridesOf(cls, c1 + c2, e1 + e2)
  {
    var c, e := c1 + c2, e1 + e2;
    forall i | 0 <= i < |e|
      ensures IsFakeOverrideOf(c[i], e[i], cls)
    {
      if i < |e1| {
        assert c[i] == c1[i] && e[i] == e1[i];
      } else {
        assert c[i] == c2[i - |e1|] && e[i] == e2[i - |e1|];
      }
    }
  }

  /** `c` are the fake overrides, in order, of the members `e`, and their
      new symbols are drawn in increasing order from `[lo, hi)`. */
  predicate ClonesOf(cls: Decl, c: seq<Decl>, e: seq<Decl>, lo: nat, hi: nat)
    requires cls.Class?
  {
    OverridesOf(cls, c, e) && lo <= hi &&
    (forall i :: 0 <= i < |e| ==> forall s :: s in NewSymbols(c[i]) ==> lo <= s < hi) &&
    (forall i, j :: 0 <= i < j < |e| ==>
       forall s, t :: s in NewSymbols(c[i]) && t in NewSymbols(c[j]) ==> s < t)
  }

  /** Cloning the members of one actual class succeeds exactly when no
      eligible member clashes; the error names the class. */
  lemma {:induction false} CloneMembersSucceeds(cls: Decl, snapshot: seq<Decl>, members: seq<Decl>,
                                                m: map<Symbol, Symbol>, next: nat)
    requires cls.Class?
    ensures var r := CloneMembers(cls, snapshot, members, m, next);
            r.Success? <==> forall a :: a in Eligible(members) ==> !Conflict(snapshot, a, m)
    ensures var r := CloneMembers(cls, snapshot, members, m, next);
            r.Failure? ==> r.error.ManyInterfacesMembersNotImplemented? && r.error.className == cls.name
    decreases |members|
  {
    if |members| > 0 {
      var a := members[0];
      var first := ProcessMember(cls, snapshot, a, m, next);
      MemberSpec(cls, snapshot, a, m, next);
      EligibleSplit(members);
      if first.Success? {
        CloneMembersSucceeds(cls, snapshot, members[1..], m, first.value.1);
      }
    }
  }

  /** A successful clone of one actual class's members: one override per
      eligible member, in order, with increasing symbols from the supply. */
  lemma {:induction false} CloneMembersSpec(cls: Decl, snapshot: seq<Decl>, members: seq<Decl>,
                                            m: map<Symbol, Symbol>, next: nat)
    requires cls.Class?
    ensures var r := CloneMembers(cls, snapshot, members, m, next);
            r.Success? ==> ClonesOf(cls, r.value.0, Eligible(members), next, r.value.1)
    decreases |members|
  {
    if |members| > 0 {
      var a := members[0];
      var first := ProcessMember(cls, snapshot, a, m, next);
      MemberSpec(cls, snapshot, a, m, next);
      if first.Success? {
        var n1 := first.value.1;
        CloneMembersSpec(cls, snapshot, members[1..], m, n1);
        var rest := CloneMembers(cls, snapshot, members[1..], m, n1);
        if rest.Success? {
          ConcatClones(cls, first.value.0, Eligible([a]), rest.value.0, Eligible(members[1..]), next, n1, rest.value.1);
          EligibleSplit(members);
        }
      }
    }
  }

  /** The eligible members of a list: those of its head, then those of its tail. */
  lemma EligibleSplit(members: seq<Decl>)
    requires |members| > 0
    ensures Eligible(members) == Eligible([members[0]]) + Eligible(members[1..])
    ensures forall x :: x in Eligible(members) <==> x in Eligible([members[0]]) || x in Eligible(members[1..])
  {
    assert [members[0]][1..] == [];
  }

  lemma MemberSpec(cls: Decl, snapshot: seq<Decl>, a: Decl, m: map<Symbol, Symbol>, next: nat)
    requires cls.Class?
    ensures var r := ProcessMember(cls, snapshot, a, m, next);
            var e := Eligible([a]);
            (r.Success? <==> forall x :: x in e ==> !Conflict(snapshot, x, m)) &&
            (r.Success? ==> ClonesOf(cls, r.value.0, e, next, r.value.1)) &&
            (r.Failure? ==> r.error.ManyInterfacesMembersNotImplemented? && r.error.className == cls.name)
  {
    assert Eligible([a]) == (if a.startOffset != UNDEFINED_OFFSET && (a.Function? || a.Property?) && a.isImpl then [a] else []);
    if a.startOffset != UNDEFINED_OFFSET && (a.Function? || a.Property?) && a.isImpl {
      FakeOverrideShape(a, cls, next);
      if a.Function? {
        var named := Named(snapshot, a.name);
        assert AnyMatching(named, a, m) <==> Conflict(snapshot, a, m);
      } else {
        var named := Named(snapshot, a.name);
        assert named != [] <==> Conflict(snapshot, a, m) by {
          if named != [] {
            assert named[0] in named;
          }
        }
      }
    }
  }

  /** Two runs of clones drawn one after the other from the supply. */
  lemma ConcatClones(cls: Decl, c1: seq<Decl>, e1: seq<Decl>, c2: seq<Decl>, e2: seq<Decl>,
                     lo: nat, mid: nat, hi: nat)
    requires cls.Class?
    requires ClonesOf(cls, c1, e1, lo, mid) && ClonesOf(cls, c2, e2, mid, hi)
    ensures ClonesOf(cls, c1 + c2, e1 + e2, lo, hi)
  {
    var c := c1 + c2;
    var e := e1 + e2;
    ConcatOverrides(cls, c1, e1, c2, e2);
    forall i | 0 <= i < |e|
      ensures forall s :: s in NewSymbols(c[i]) ==> lo <= s < hi
    {
      if i < |e1| {
        assert c[i] == c1[i] && e[i] == e1[i];
      } else {
        assert c[i] == c2[i - |e1|] && e[i] == e2[i - |e1|];
      }
    }
    forall i, j | 0 <= i < j < |e|
      ensures forall s, t :: s in NewSymbols(c[i]) && t in NewSymbols(c[j]) ==> s < t
    {
      if j < |e1| {
      } else if i < |e1| {
        assert c[i] == c1[i];
        assert c[j] == c2[j - |e1|];
      } else {
        assert c[i] == c2[i - |e1|] && c[j] == c2[j - |e1|];
      }
    }
  }

  /** Over all supertypes: the overrides succeed exactly when no inherited
      member clashes. */
  lemma {:induction false} CloneForSupertypesSucceeds(cls: Decl, snapshot: seq<Decl>, superTypes: seq<Symbol>,
                                                      m: map<Symbol, Symbol>, owners: map<Symbol, Decl>,
                                                      next: nat)
    requires cls.Class?
    ensures var r := CloneForSupertypes(cls, snapshot, superTypes, m, owners, next);
            r.Success? <==> forall a :: a in Inherited(m, owners, superTypes) ==> !Conflict(snapshot, a, m)
    decreases |superTypes|
  {
    if |superTypes| > 0 {
      var c := LinkedClass(m, owners, superTypes[0]);
      var e1 := if c.Some? then Eligible(c.value.members) else [];
      assert Inherited(m, owners, superTypes) == e1 + Inherited(m, owners, superTypes[1..]);
      var first := if c.Some? then CloneMembers(cls, snapshot, c.value.members, m, next) else Success(([], next));
      if c.Some? {
        CloneMembersSucceeds(cls, snapshot, c.value.members, m, next);
      }
      if first.Success? {
        CloneForSupertypesSucceeds(cls, snapshot, superTypes[1..], m, owners, first.value.1);
      }
    }
  }

  /** Over all supertypes: one override per inherited member, in order. */
  lemma {:induction false} CloneForSupertypesSpec(cls: Decl, snapshot: seq<Decl>, superTypes: seq<Symbol>,
                                                  m: map<Symbol, Symbol>, owners: map<Symbol, Decl>,
                                                  next: nat)
    requires cls.Class?
    ensures var r := CloneForSupertypes(cls, snapshot, superTypes, m, owners, next);
            r.Success? ==> next <= r.value.1 && OverridesOf(cls, r.value.0, Inherited(m, owners, superTypes))
    decreases |superTypes|
  {
    if |superTypes| > 0 {
      var c := LinkedClass(m, owners, superTypes[0]);
      var e1 := if c.Some? then Eligible(c.value.members) else [];
      var e2 := Inherited(m, owners, superTypes[1..]);
      assert Inherited(m, owners, superTypes) == e1 + e2;
      var first := if c.Some? then CloneMembers(cls, snapshot, c.value.members, m, next) else Success(([], next));
      if first.Success? {
        assert next <= first.value.1 && OverridesOf(cls, first.value.0, e1) by {
          if c.Some? {
            CloneMembersSpec(cls, snapshot, c.value.members, m, next);
          }
        }
        CloneForSupertypesSpec(cls, snapshot, superTypes[1..], m, owners, first.value.1);
        var rest := CloneForSupertypes(cls, snapshot, superTypes[1..], m, owners, first.value.1);
        if rest.Success? {
          ConcatOverrides(cls, first.value.0, e1, rest.value.0, e2);
        }
      }
    }
  }

  /** `processSupertypes`: the class keeps its members and gains one fake
      override per inherited member, in supertype order; it fails exactly
      when an inherited member clashes with one of the class's own members.
      Only the class's own members are compared: two supertypes providing
      the same member both get an override. */
  lemma ProcessSupertypesSpec(cls: Decl, m: map<Symbol, Symbol>, owners: map<Symbol, Decl>, next: nat)
    requires cls.Class?
    ensures var r := ProcessSupertypes(cls, m, owners, next);
            var e := Inherited(m, owners, cls.superTypes);
            (r.Success? <==> forall a :: a in e ==> !Conflict(Snapshot(cls.members), a, m)) &&
            (r.Success? ==>
               |r.value.0.members| == |cls.members| + |e| &&
               forall i :: 0 <= i < |e| ==> IsFakeOverrideOf(r.value.0.members[|cls.members| + i], e[i], cls))
  {
    var snapshot := Snapshot(cls.members);
    CloneForSupertypesSucceeds(cls, snapshot, cls.superTypes, m, owners, next);
    CloneForSupertypesSpec(cls, snapshot, cls.superTypes, m, owners, next);
  }

  /** A class with no members of its own never clashes: it gets exactly one
      override per inherited member. */
  lemma NoOwnMembersNoClash(cls: Decl, m: map<Symbol, Symbol>, owners: map<Symbol, Decl>, next: nat)
    requires cls.Class? && cls.members == []
    ensures var r := ProcessSupertypes(cls, m, owners, next);
            var e := Inherited(m, owners, cls.superTypes);
            r.Success? && |r.value.0.members| == |e| &&
            forall i :: 0 <= i < |e| ==> IsFakeOverrideOf(r.value.0.members[i], e[i], cls)
  {
    assert Snapshot(cls.members) == [];
    ProcessSupertypesSpec(cls, m, owners, next);
  }

  /** Two supertypes linked to two actual classes that each declare a
      function `f` of the same name: the class gets two overrides named `f`,
      one per supertype, and no error, since only its own members are
      compared. */
  lemma SameMemberFromTwoSupertypes(cls: Decl, m: map<Symbol, Symbol>, owners: map<Symbol, Decl>,
                                    f1: Decl, f2: Decl, next: nat)
    requires f1.Function? && f1.isImpl && f1.startOffset != UNDEFINED_OFFSET
    requires f2.Function? && f2.isImpl && f2.startOffset != UNDEFINED_OFFSET && f2.name == f1.name
    requires cls.Class? && cls.members == [] && |cls.superTypes| == 2
    requires cls.superTypes[0] in m && cls.superTypes[1] in m
    requires IsClassSymbol(owners, m[cls.superTypes[0]]) && owners[m[cls.superTypes[0]]].members == [f1]
    requires IsClassSymbol(owners, m[cls.superTypes[1]]) && owners[m[cls.superTypes[1]]].members == [f2]
    ensures var r := ProcessSupertypes(cls, m, owners, next);
            r.Success? && |r.value.0.members| == 2 &&
            r.value.0.members[0].Function? && r.value.0.members[1].Function? &&
            r.value.0.members[0].name == f1.name && r.value.0.members[1].name == f1.name &&
            r.value.0.members[0].overridden == [f1.sym] && r.value.0.members[1].overridden == [f2.sym]
  {
    var sts := cls.superTypes;
    assert Eligible([f1]) == [f1] && Eligible([f2]) == [f2] by {
      assert Eligible([f1][1..]) == [] && Eligible([f2][1..]) == [];
    }
    assert sts[1..][1..] == [];
    assert Inherited(m, owners, sts[1..]) == [f2];
    assert Inherited(m, owners, sts) == [f1, f2];
    NoOwnMembersNoClash(cls, m, owners, next);
  }

  // ----- over the dependent fragments -----

  /** A top-level declaration the pass fails on: a non-expect class with
      an inherited member that clashes with one of its own. */
  predicate Clashes(d: Decl, m: map<Symbol, Symbol>, owners: map<Symbol, Decl>) {
    d.Class? && !d.isExpect &&
    exists a :: a in Inherited(m, owners, d.superTypes) && Conflict(Snapshot(d.members), a, m)
  }

  /** What the pass makes of a top-level declaration: a non-expect class
      keeps its members and is followed by one fake override per inherited
      member, in supertype order; anything else is left as it is. */
  predicate Processed(d: Decl, d': Decl, m: map<Symbol, Symbol>, owners: map<Symbol, Decl>) {
    if d.Class? && !d.isExpect then
      var e := Inherited(m, owners, d.superTypes);
      d'.Class? && d'.(members := d.members) == d &&
      |d'.members| == |d.members| + |e| && d'.members[..|d.members|] == d.members &&
      forall i :: 0 <= i < |e| ==> IsFakeOverrideOf(d'.members[|d.members| + i], e[i], d)
    else d' == d
  }

  predicate DeclsClear(ds: seq<Decl>, m: map<Symbol, Symbol>, owners: map<Symbol, Decl>) {
    forall i :: 0 <= i < |ds| ==> !Clashes(ds[i], m, owners)
  }

  predicate DeclsProcessed(ds: seq<Decl>, ds': seq<Decl>, m: map<Symbol, Symbol>, owners: map<Symbol, Decl>) {
    |ds'| == |ds| && forall i :: 0 <= i < |ds| ==> Processed(ds[i], ds'[i], m, owners)
  }

  predicate FilesClear(files: seq<File>, m: map<Symbol, Symbol>, owners: map<Symbol, Decl>) {
    forall i :: 0 <= i < |files| ==> DeclsClear(files[i].declarations, m, owners)
  }

  predicate FilesProcessed(files: seq<File>, files': seq<File>, m: map<Symbol, Symbol>, owners: map<Symbol, Decl>) {
    |files'| == |files| &&
    forall i :: 0 <= i < |files| ==> DeclsProcessed(files[i].declarations, files'[i].declarations, m, owners)
  }

  predicate FragmentsClear(fragments: seq<Fragment>, m: map<Symbol, Symbol>, owners: map<Symbol, Decl>) {
    forall i :: 0 <= i < |fragments| ==> FilesClear(fragments[i].files, m, owners)
  }

  predicate FragmentsProcessed(fragments: seq<Fragment>, fragments': seq<Fragment>,
                               m: map<Symbol, Symbol>, owners: map<Symbol, Decl>) {
    |fragments'| == |fragments| &&
    forall i :: 0 <= i < |fragments| ==> FilesProcessed(fragments[i].files, fragments'[i].files, m, owners)
  }

  /** One top-level declaration: a non-expect class gets its overrides;
      this fails exactly when one of them clashes. */
  function AddToDecl(d: Decl, m: map<Symbol, Symbol>, owners: map<Symbol, Decl>,
                     next: nat): (r: Result<(Decl, nat), ActualizeError>)
    ensures r.Success? ==> r.value.1 >= next
    ensures r.Success? ==> r.value.0.sym == d.sym && r.value.0.isProperExpect == d.isProperExpect
    ensures r.Success? && !(d.Class? && !d.isExpect) ==> r.value == (d, next)
    ensures r.Success? <==> !Clashes(d, m, owners)
    ensures r.Success? ==> Processed(d, r.value.0, m, owners)
  {
    if d.Class? && !d.isExpect then
      ProcessSupertypesSpec(d, m, owners, next);
      ProcessSupertypes(d, m, owners, next)
    else Success((d, next))
  }

  /** The declarations of a file, in order, threading the symbol counter;
      the first clash ends the pass. */
  function AddToDecls(ds: seq<Decl>, m: map<Symbol, Symbol>, owners: map<Symbol, Decl>,
                      next: nat): (r: Result<(seq<Decl>, nat), ActualizeError>)
    ensures r.Success? ==> r.value.1 >= next && |r.value.0| == |ds|
    ensures r.Success? ==> forall i :: 0 <= i < |ds| ==>
              r.value.0[i].sym == ds[i].sym && r.value.0[i].isProperExpect == ds[i].isProperExpect
    ensures r.Success? <==> DeclsClear(ds, m, owners)
    ensures r.Success? ==> DeclsProcessed(ds, r.value.0, m, owners)
    decreases |ds|
  {
    if |ds| == 0 then Success(([], next))
    else
      assert DeclsClear(ds, m, owners) <==> !Clashes(ds[0], m, owners) && DeclsClear(ds[1..], m, owners) by {
        assert forall i :: 0 < i < |ds| ==> ds[i] == ds[1..][i - 1];
      }
      var first :- AddToDecl(ds[0], m, owners, next);
      var rest :- AddToDecls(ds[1..], m, owners, first.1);
      assert forall i :: 0 < i < |ds| ==> ([first.0] + rest.0)[i] == rest.0[i - 1] && ds[i] == ds[1..][i - 1];
      Success(([first.0] + rest.0, rest.1))
  }

  /** The files of a fragment, in order. */
  function AddToFiles(files: seq<File>, m: map<Symbol, Symbol>, owners: map<Symbol, Decl>,
                      next: nat): (r: Result<(seq<File>, nat), ActualizeError>)
    ensures r.Success? ==> r.value.1 >= next && |r.value.0| == |files|
    ensures r.Success? ==> forall i :: 0 <= i < |files| ==>
              |r.value.0[i].declarations| == |files[i].declarations| &&
              forall j :: 0 <= j < |files[i].declarations| ==>
                r.value.0[i].declarations[j].isProperExpect == files[i].declarations[j].isProperExpect
    ensures r.Success? <==> FilesClear(files, m, owners)
    ensures r.Success? ==> FilesProcessed(files, r.value.0, m, owners)
    decreases |files|
  {
    if |files| == 0 then Success(([], next))
    else
      assert FilesClear(files, m, owners) <==>
             DeclsClear(files[0].declarations, m, owners) && FilesClear(files[1..], m, owners) by {
        FilesClearCons(files, m, owners);
      }
      var first :- AddToDecls(files[0].declarations, m, owners, next);
      var rest :- AddToFiles(files[1..], m, owners, first.1);
      FilesProcessedCons(files, File(first.0), rest.0, m, owners);
      Success(([File(first.0)] + rest.0, rest.1))
  }

  lemma FilesClearCons(files: seq<File>, m: map<Symbol, Symbol>, owners: map<Symbol, Decl>)
    requires |files| > 0
    ensures FilesClear(files, m, owners) <==>
            DeclsClear(files[0].declarations, m, owners) && FilesClear(files[1..], m, owners)
  {
    assert forall i :: 0 < i < |files| ==> files[i] == files[1..][i - 1];
  }

  /** Processing a list of files is processing the first and then the rest. */
  lemma FilesProcessedCons(files: seq<File>, f': File, rest': seq<File>,
                           m: map<Symbol, Symbol>, owners: map<Symbol, Decl>)
    requires |files| > 0
    requires DeclsProcessed(files[0].declarations, f'.declarations, m, owners)
    requires FilesProcessed(files[1..], rest', m, owners)
    ensures FilesProcessed(files, [f'] + rest', m, owners)
    ensures forall i :: 0 <= i < |files| ==>
              |([f'] + rest')[i].declarations| == |files[i].declarations| &&
              forall j :: 0 <= j < |files[i].declarations| ==>
                ([f'] + rest')[i].declarations[j].isProperExpect == files[i].declarations[j].isProperExpect
  {
    var r := [f'] + rest';
    forall i | 0 <= i < |files|
      ensures DeclsProcessed(files[i].declarations, r[i].declarations, m, owners)
    {
      if i > 0 {
        assert r[i] == rest'[i - 1] && files[i] == files[1..][i - 1];
      }
    }
    forall i | 0 <= i < |files|
      ensures |r[i].declarations| == |files[i].declarations| &&
              forall j :: 0 <= j < |files[i].declarations| ==>
                r[i].declarations[j].isProperExpect == files[i].declarations[j].isProperExpect
    {
      ProcessedKeepsFlags(files[i].declarations, r[i].declarations, m, owners);
    }
  }

  /** Processing keeps every declaration's symbol and flags. */
  lemma ProcessedKeepsFlags(ds: seq<Decl>, ds': seq<Decl>, m: map<Symbol, Symbol>, owners: map<Symbol, Decl>)
    requires DeclsProcessed(ds, ds', m, owners)
    ensures |ds'| == |ds|
    ensures forall j :: 0 <= j < |ds| ==> ds'[j].sym == ds[j].sym && ds'[j].isProperExpect == ds[j].isProperExpect
  {
    forall j | 0 <= j < |ds|
      ensures ds'[j].sym == ds[j].sym && ds'[j].isProperExpect == ds[j].isProperExpect
    {
      assert Processed(ds[j], ds'[j], m, owners);
    }
  }

  /** `addMissingFakeOverrides`: the dependent fragments, fragment by
      fragment and file by file, keeping their shape. It succeeds exactly
      when no non-expect class of theirs clashes, and then every such class
      is followed by its overrides and every other declaration is kept. */
  function AddMissingFakeOverrides(dependents: seq<Fragment>, m: map<Symbol, Symbol>,
                                   owners: map<Symbol, Decl>,
                                   next: nat): (r: Result<(seq<Fragment>, nat), ActualizeError>)
    ensures r.Success? ==> r.value.1 >= next && |r.value.0| == |dependents|
    ensures r.Success? ==> forall i :: 0 <= i < |dependents| ==>
              |r.value.0[i].files| == |dependents[i].files| &&
              forall j :: 0 <= j < |dependents[i].files| ==>
                |r.value.0[i].files[j].declarations| == |dependents[i].files[j].declarations| &&
                forall k :: 0 <= k < |dependents[i].files[j].declarations| ==>
                  r.value.0[i].files[j].declarations[k].isProperExpect ==
                    dependents[i].files[j].declarations[k].isProperExpect
    ensures r.Success? <==> FragmentsClear(dependents, m, owners)
    ensures r.Success? ==> FragmentsProcessed(dependents, r.value.0, m, owners)
    decreases |dependents|
  {
    if |dependents| == 0 then Success(([], next))
    else
      assert FragmentsClear(dependents, m, owners) <==>
             FilesClear(dependents[0].files, m, owners) && FragmentsClear(dependents[1..], m, owners) by {
        FragmentsClearCons(dependents, m, owners);
      }
      var first :- AddToFiles(dependents[0].files, m, owners, next);
      var rest :- AddMissingFakeOverrides(dependents[1..], m, owners, first.1);
      FragmentsProcessedCons(dependents, Fragment(first.0), rest.0, m, owners);
      Success(([Fragment(first.0)] + rest.0, rest.1))
  }

  lemma FragmentsClearCons(fragments: seq<Fragment>, m: map<Symbol, Symbol>, owners: map<Symbol, Decl>)
    requires |fragments| > 0
    ensures FragmentsClear(fragments, m, owners) <==>
            FilesClear(fragments[0].files, m, owners) && FragmentsClear(fragments[1..], m, owners)
  {
    assert forall i :: 0 < i < |fragments| ==> fragments[i] == fragments[1..][i - 1];
  }

  /** Processing a list of fragments is processing the first and then the rest. */
  lemma FragmentsProcessedCons(fragments: seq<Fragment>, f': Fragment, rest': seq<Fragment>,
                               m: map<Symbol, Symbol>, owners: map<Symbol, Decl>)
    requires |fragments| > 0
    requires FilesProcessed(fragments[0].files, f'.files, m, owners)
    requires FragmentsProcessed(fragments[1..], rest', m, owners)
    ensures FragmentsProcessed(fragments, [f'] + rest', m, owners)
    ensures forall i :: 0 <= i < |fragments| ==>
              |([f'] + rest')[i].files| == |fragments[i].files| &&
              forall j :: 0 <= j < |fragments[i].files| ==>
                |([f'] + rest')[i].files[j].declarations| == |fragments[i].files[j].declarations| &&
                forall k :: 0 <= k < |fragments[i].files[j].declarations| ==>
                  ([f'] + rest')[i].files[j].declarations[k].isProperExpect ==
                    fragments[i].files[j].declarations[k].isProperExpect
  {
    var r := [f'] + rest';
    forall i | 0 <= i < |fragments|
      ensures FilesProcessed(fragments[i].files, r[i].files, m, owners)
    {
      if i > 0 {
        assert r[i] == rest'[i - 1] && fragments[i] == fragments[1..][i - 1];
      }
    }
    forall i, j | 0 <= i < |fragments| && 0 <= j < |fragments[i].files|
      ensures |r[i].files[j].declarations| == |fragments[i].files[j].declarations| &&
              forall k :: 0 <= k < |fragments[i].files[j].declarations| ==>
                r[i].files[j].declarations[k].isProperExpect == fragments[i].files[j].declarations[k].isProperExpect
    {
      ProcessedKeepsFlags(fragments[i].files[j].declarations, r[i].files[j].declarations, m, owners);
    }
  }
}
