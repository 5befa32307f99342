/** `SymbolLightAnnotationsMethod`: the synthetic `$annotations` method a
    Kotlin property gets in its light class. Which of the property's
    annotations the method carries is a decision over the annotation's
    allowed targets, its use-site target and whether the property comes
    from the primary constructor; `java.lang.Deprecated` is added whenever
    any annotation is kept. Its modifiers are a fixed table. */
module LightAnnotationsMethod {
  import opened Wrappers

  /** The `AnnotationTarget`s the filter distinguishes; every other target
      behaves alike. */
  datatype AnnotationTarget = PropertyTarget | ValueParameterTarget | OtherTarget(name: string)

  /** The `AnnotationUseSiteTarget`s the filter distinguishes. */
  datatype UseSiteTarget = PropertyUseSite | OtherUseSite(name: string)

  /** A `KtAnnotationApplication`, reduced to what the filter reads:
      its class id (absent for an unresolved annotation), the targets its
      declaration allows (absent when unknown), and its use-site target. */
  datatype Annotation = Annotation(classId: Option<string>,
                                   allowedTargets: Option<set<AnnotationTarget>>,
                                   useSiteTarget: Option<UseSiteTarget>)

  const JVM_STATIC: string := "kotlin.jvm.JvmStatic"
  const DEPRECATED: string := "java.lang.Deprecated"

  /** The filter passed to `computeAnnotations`, branch by branch in the
      order the code tests them. */
  predicate IsIncluded(a: Annotation, isFromPrimaryConstructor: bool) {
    if a.classId == Some(JVM_STATIC) then false
    else if a.allowedTargets.Some? && PropertyTarget !in a.allowedTargets.value then false
    else if a.allowedTargets.Some? && a.useSiteTarget.None? then
      !(isFromPrimaryConstructor && ValueParameterTarget in a.allowedTargets.value)
    else
      a.useSiteTarget == Some(PropertyUseSite) || (a.useSiteTarget.None? && !isFromPrimaryConstructor)
  }

  /** The same decision as a table of independent rules: an annotation is
      kept when it is not `JvmStatic`, its allowed targets (if known)
      include PROPERTY, and either it is aimed at the property by its
      use-site target, or it has no use-site target and does not belong to
      a constructor parameter (a primary-constructor property whose
      annotation could apply to the parameter, or whose targets are unknown). */
  predicate Applicable(a: Annotation, isFromPrimaryConstructor: bool) {
    var notStatic := a.classId != Some(JVM_STATIC);
    var targetsAllowProperty := a.allowedTargets.None? || PropertyTarget in a.allowedTargets.value;
    var aimedAtProperty := a.useSiteTarget == Some(PropertyUseSite);
    var parameterClaims := isFromPrimaryConstructor &&
      (a.allowedTargets.None? || ValueParameterTarget in a.allowedTargets.value);
    notStatic && targetsAllowProperty && (aimedAtProperty || (a.useSiteTarget.None? && !parameterClaims))
  }

  /** The filter and the rule table agree on every annotation. */
  lemma IsIncludedApplicable(a: Annotation, isFromPrimaryConstructor: bool)
    ensures IsIncluded(a, isFromPrimaryConstructor) <==> Applicable(a, isFromPrimaryConstructor)
  {
  }

  /** The single rules, as consequences of the filter. */
  lemma FilterRules(a: Annotation, isFromPrimaryConstructor: bool)
    ensures a.classId == Some(JVM_STATIC) ==> !IsIncluded(a, isFromPrimaryConstructor)
    ensures a.allowedTargets.Some? && PropertyTarget !in a.allowedTargets.value ==>
              !IsIncluded(a, isFromPrimaryConstructor)
    ensures a.classId != Some(JVM_STATIC) && a.allowedTargets.Some? &&
            PropertyTarget in a.allowedTargets.value && a.useSiteTarget.None? ==>
              (IsIncluded(a, isFromPrimaryConstructor) <==>
                 !(isFromPrimaryConstructor && ValueParameterTarget in a.allowedTargets.value))
    ensures a.classId != Some(JVM_STATIC) && a.allowedTargets.None? ==>
              (IsIncluded(a, isFromPrimaryConstructor) <==>
                 a.useSiteTarget == Some(PropertyUseSite) ||
                 (a.useSiteTarget.None? && !isFromPrimaryConstructor))
  {
  }

  /** An annotation of the light method: one of the property's, or the
      added `java.lang.Deprecated`. */
  datatype LightAnnotation = Kept(annotation: Annotation) | Simple(fqName: string)

  /** The property's annotations that pass the filter, in order. */
  function Filtered(annotations: seq<Annotation>, isFromPrimaryConstructor: bool): (r: seq<Annotation>)
    ensures forall a :: a in r ==> a in annotations && IsIncluded(a, isFromPrimaryConstructor)
    ensures forall a :: a in annotations && IsIncluded(a, isFromPrimaryConstructor) ==> a in r
    decreases |annotations|
  {
    if |annotations| == 0 then []
    else
      var rest := Filtered(annotations[1..], isFromPrimaryConstructor);
      assert forall a :: a in annotations <==> a == annotations[0] || a in annotations[1..];
      if IsIncluded(annotations[0], isFromPrimaryConstructor) then [annotations[0]] + rest else rest
  }

  /** Each annotation of a list wrapped as a light annotation, in order. */
  function KeptAll(xs: seq<Annotation>): (r: seq<LightAnnotation>)
    ensures |r| == |xs|
    ensures forall a :: Kept(a) in r <==> a in xs
  {
    var r := seq(|xs|, i requires 0 <= i < |xs| => Kept(xs[i]));
    assert forall a :: Kept(a) in r <==> a in xs by {
      forall a
        ensures Kept(a) in r <==> a in xs
      {
        if Kept(a) in r {
          var i :| 0 <= i < |r| && r[i] == Kept(a);
          assert xs[i] == a;
        }
        if a in xs {
          var i :| 0 <= i < |xs| && xs[i] == a;
          assert r[i] == Kept(a);
        }
      }
    }
    r
  }

  /** The filter and the rule table agree on every annotation of a list. */
  lemma AllApplicable(annotations: seq<Annotation>, isFromPrimaryConstructor: bool)
    ensures forall a :: a in annotations ==>
              (IsIncluded(a, isFromPrimaryConstructor) <==> Applicable(a, isFromPrimaryConstructor))
  {
    forall a | a in annotations
      ensures IsIncluded(a, isFromPrimaryConstructor) <==> Applicable(a, isFromPrimaryConstructor)
    {
      IsIncludedApplicable(a, isFromPrimaryConstructor);
    }
  }

  /** The annotation list of the `$annotations` method: empty exactly when
      no annotation is applicable; otherwise it ends in
      `java.lang.Deprecated` and before it holds exactly the applicable
      annotations. */
  function MethodAnnotations(annotations: seq<Annotation>, isFromPrimaryConstructor: bool): (r: seq<LightAnnotation>)
    ensures r == [] <==> forall a :: a in annotations ==> !Applicable(a, isFromPrimaryConstructor)
    ensures r != [] ==> r[|r| - 1] == Simple(DEPRECATED) &&
                        forall a :: Kept(a) in r[..|r| - 1] <==> a in annotations && Applicable(a, isFromPrimaryConstructor)
  {
    var computed := Filtered(annotations, isFromPrimaryConstructor);
    AllApplicable(annotations, isFromPrimaryConstructor);
    if |computed| > 0 then
      assert computed[0] in computed;
      var r := KeptAll(computed) + [Simple(DEPRECATED)];
      assert r[..|r| - 1] == KeptAll(computed);
      r
    else []
  }

  // ----- computeModifiers -----

  const FINAL: string := "final"
  const ABSTRACT: string := "abstract"
  const STATIC: string := "static"

  /** `computeModifiers(modifier)`: a visibility modifier gets the
      property's own visibility; otherwise the method is never final nor
      abstract, always static, and has no opinion on any other modifier.
      The visibility modifiers and the visibility computed for the property
      are parameters: they come from `LazyModifiersBox`, which is not part
      of this model. */
  function ComputeModifiers(modifier: string, visibilityModifiers: set<string>,
                            memberVisibility: map<string, bool>): (r: Option<map<string, bool>>)
    ensures modifier in visibilityModifiers ==> r == Some(memberVisibility)
    ensures modifier !in visibilityModifiers ==>
              (r.Some? <==> modifier in {FINAL, ABSTRACT, STATIC}) &&
              (r.Some? ==> r.value.Keys == {modifier} && (r.value[modifier] <==> modifier == STATIC))
  {
    if modifier in visibilityModifiers then Some(memberVisibility)
    else if modifier == FINAL || modifier == ABSTRACT then Some(map[modifier := false])
    else if modifier == STATIC then Some(map[modifier := true])
    else None
  }

  /** What the modifier list answers to `hasModifierProperty(modifier)`: the
      computed table holds the modifier and maps it to true. The list itself
      (`SymbolLightMemberModifierList`) is not part of this model. */
  predicate HasModifierProperty(modifier: string, visibilityModifiers: set<string>,
                                memberVisibility: map<string, bool>)
  {
    var computed := ComputeModifiers(modifier, visibilityModifiers, memberVisibility);
    computed.Some? && modifier in computed.value && computed.value[modifier]
  }

  /** The light `$annotations` method is static and neither final nor
      abstract; for a visibility modifier it answers as the property's own
      visibility does; and it has no other modifier. */
  lemma ModifierProperties(visibilityModifiers: set<string>, memberVisibility: map<string, bool>, modifier: string)
    ensures STATIC !in visibilityModifiers ==> HasModifierProperty(STATIC, visibilityModifiers, memberVisibility)
    ensures FINAL !in visibilityModifiers ==> !HasModifierProperty(FINAL, visibilityModifiers, memberVisibility)
    ensures ABSTRACT !in visibilityModifiers ==> !HasModifierProperty(ABSTRACT, visibilityModifiers, memberVisibility)
    ensures modifier in visibilityModifiers ==>
              (HasModifierProperty(modifier, visibilityModifiers, memberVisibility) <==>
               modifier in memberVisibility && memberVisibility[modifier])
    ensures modifier !in visibilityModifiers && modifier !in {FINAL, ABSTRACT, STATIC} ==>
              !HasModifierProperty(modifier, visibilityModifiers, memberVisibility)
  {
  }

  /** The constant answers of the light method. */
  datatype ConstantOverrides = ConstantOverrides(isVarArgs: bool, isConstructor: bool,
                                                 isDeprecated: bool, isOverride: bool,
                                                 returnsVoid: bool)

  function Overrides(): (r: ConstantOverrides)
    ensures !r.isVarArgs && !r.isConstructor && !r.isOverride
    ensures r.isDeprecated && r.returnsVoid
  {
    ConstantOverrides(false, false, true, false, true)
  }
}
