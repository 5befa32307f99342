/** The type rules of the builtins generator: which primitive type an
    arithmetic operator returns, when an operand needs an explicit widening
    call, how an operator name becomes a native intrinsic name, and which
    intrinsic the native generator picks for a conversion.

    The enum `PrimitiveType` is declared in PrimitiveType.kt, which is not
    part of this model: its constant names are the ones the generator
    mentions, and its declaration order (`ordinal`), byte sizes and the
    `onlyNumeric` / `floatingPoint` sets are a `Layout` parameter. */
module PrimitiveRules {
  import opened Wrappers
  import opened Strings

  datatype PrimitiveType = BYTE | CHAR | SHORT | INT | LONG | FLOAT | DOUBLE | BOOLEAN

  /** The enum constant's `name`. */
  function Name(t: PrimitiveType): (r: string)
    ensures |r| > 0 && forall i :: 0 <= i < |r| ==> 'A' <= r[i] <= 'Z'
  {
    match t
    case BYTE => "BYTE"
    case CHAR => "CHAR"
    case SHORT => "SHORT"
    case INT => "INT"
    case LONG => "LONG"
    case FLOAT => "FLOAT"
    case DOUBLE => "DOUBLE"
    case BOOLEAN => "BOOLEAN"
  }

  /** What PrimitiveType.kt declares about each constant. */
  datatype Layout = Layout(ordinal: PrimitiveType -> nat, byteSize: PrimitiveType -> nat,
                           onlyNumeric: set<PrimitiveType>, floatingPoint: set<PrimitiveType>)

  /** Ordinals of distinct enum constants differ. */
  predicate ValidLayout(l: Layout) {
    forall a, b :: l.ordinal(a) == l.ordinal(b) ==> a == b
  }

  datatype Exception = IllegalArgument(message: string)

  /** `PrimitiveType.valueOf(s)`: the constant named `s`. */
  function ValueOf(s: string): (r: Result<PrimitiveType, Exception>)
    ensures r.Success? ==> Name(r.value) == s
  {
    if s == "BYTE" then Success(BYTE)
    else if s == "CHAR" then Success(CHAR)
    else if s == "SHORT" then Success(SHORT)
    else if s == "INT" then Success(INT)
    else if s == "LONG" then Success(LONG)
    else if s == "FLOAT" then Success(FLOAT)
    else if s == "DOUBLE" then Success(DOUBLE)
    else if s == "BOOLEAN" then Success(BOOLEAN)
    else Failure(IllegalArgument("No enum constant org.jetbrains.kotlin.generators.builtins.PrimitiveType." + s))
  }

  /** `capitalized`: `name.lowercase().replaceFirstChar(Char::uppercase)`. */
  function Capitalized(t: PrimitiveType): (r: string)
    ensures |r| == |Name(t)|
  {
    CapitalizeWord(Name(t))
  }

  /** `lowercase().replaceFirstChar(Char::uppercase)` of a non-empty word. */
  function CapitalizeWord(n: string): (r: string)
    requires |n| > 0
    ensures |r| == |n|
  {
    var low := Lower(n);
    [UpperChar(low[0])] + low[1..]
  }

  /** Upper-casing a capitalized upper-case word gives the word back. */
  lemma CapitalizeWordUpper(n: string)
    requires |n| > 0 && forall i :: 0 <= i < |n| ==> 'A' <= n[i] <= 'Z'
    ensures Upper(CapitalizeWord(n)) == n
  {
    var low := Lower(n);
    UpperLower(n);
    UpperAppend([UpperChar(low[0])], low[1..]);
    UpperAppend([low[0]], low[1..]);
    assert [low[0]] + low[1..] == low;
  }

  /** `valueOf(name)` finds the constant of that name. */
  lemma ValueOfName(t: PrimitiveType)
    ensures ValueOf(Name(t)) == Success(t)
  {
  }

  /** The generator writes types by their capitalized names and reads them
      back with `valueOf(type.uppercase())`: the round trip gives back the type. */
  lemma ValueOfCapitalized(t: PrimitiveType)
    ensures Upper(Capitalized(t)) == Name(t)
    ensures ValueOf(Upper(Capitalized(t))) == Success(t)
  {
    CapitalizeWordUpper(Name(t));
    ValueOfName(t);
  }

  // ----- operator result types -----

  /** `maxByDomainCapacity`: the type with the larger ordinal, the second on a tie. */
  function MaxByDomainCapacity(l: Layout, t1: PrimitiveType, t2: PrimitiveType): (r: PrimitiveType)
    ensures r == t1 || r == t2
    ensures l.ordinal(r) >= l.ordinal(t1) && l.ordinal(r) >= l.ordinal(t2)
    ensures l.ordinal(t1) == l.ordinal(t2) ==> r == t2
  {
    if l.ordinal(t1) > l.ordinal(t2) then t1 else t2
  }

  /** `getOperatorReturnType`: BOOLEAN operands are rejected; otherwise the
      widest of the two operands and INT. */
  function GetOperatorReturnType(l: Layout, k1: PrimitiveType, k2: PrimitiveType): (r: Result<PrimitiveType, Exception>)
    ensures r.Failure? <==> k1 == BOOLEAN || k2 == BOOLEAN
    ensures k1 == BOOLEAN ==> r == Failure(IllegalArgument("kind1 must not be BOOLEAN"))
    ensures k1 != BOOLEAN && k2 == BOOLEAN ==> r == Failure(IllegalArgument("kind2 must not be BOOLEAN"))
    ensures r.Success? ==> r.value == k1 || r.value == k2 || r.value == INT
    ensures r.Success? ==>
              l.ordinal(r.value) >= l.ordinal(k1) && l.ordinal(r.value) >= l.ordinal(k2) &&
              l.ordinal(r.value) >= l.ordinal(INT)
  {
    if k1 == BOOLEAN then Failure(IllegalArgument("kind1 must not be BOOLEAN"))
    else if k2 == BOOLEAN then Failure(IllegalArgument("kind2 must not be BOOLEAN"))
    else Success(MaxByDomainCapacity(l, MaxByDomainCapacity(l, k1, k2), INT))
  }

  /** With distinct ordinals the operator's result type does not depend on
      the order of its operands. */
  lemma OperatorReturnTypeSymmetric(l: Layout, k1: PrimitiveType, k2: PrimitiveType)
    requires ValidLayout(l) && k1 != BOOLEAN && k2 != BOOLEAN
    ensures GetOperatorReturnType(l, k1, k2) == GetOperatorReturnType(l, k2, k1)
  {
    var x := GetOperatorReturnType(l, k1, k2);
    var y := GetOperatorReturnType(l, k2, k1);
    WidestUnique(l, k1, k2, x.value, y.value);
  }

  /** Two members of `{a, b, INT}` that are each at least as wide as all
      three are the same type. */
  lemma WidestUnique(l: Layout, a: PrimitiveType, b: PrimitiveType, r1: PrimitiveType, r2: PrimitiveType)
    requires ValidLayout(l)
    requires r1 == a || r1 == b || r1 == INT
    requires r2 == a || r2 == b || r2 == INT
    requires l.ordinal(r1) >= l.ordinal(a) && l.ordinal(r1) >= l.ordinal(b) && l.ordinal(r1) >= l.ordinal(INT)
    requires l.ordinal(r2) >= l.ordinal(a) && l.ordinal(r2) >= l.ordinal(b) && l.ordinal(r2) >= l.ordinal(INT)
    ensures r1 == r2
  {
    assert l.ordinal(r1) == l.ordinal(r2);
  }

  // ----- explicit widening -----

  /** `castToIfNecessary`: the conversion call an operand of type `from`
      needs to become `to`; none when the types are equal or `from` comes
      later in the declaration order. */
  function CastToIfNecessary(l: Layout, from: PrimitiveType, to: PrimitiveType): (r: Result<string, Exception>)
    ensures r.Failure? <==> from !in l.onlyNumeric || to !in l.onlyNumeric
    ensures r.Failure? ==> r.error == IllegalArgument("Cannot cast to non-numeric type")
  {
    if from !in l.onlyNumeric || to !in l.onlyNumeric then
      Failure(IllegalArgument("Cannot cast to non-numeric type"))
    else if from == to then Success("")
    else if l.ordinal(from) < l.ordinal(to) then Success(".to" + Capitalized(to) + "()")
    else Success("")
  }

  /** Between numeric types, a cast is written exactly when the target comes
      later in the declaration order, and the call it writes names the
      target type in a form `valueOf` reads back. */
  lemma CastNamesTarget(l: Layout, from: PrimitiveType, to: PrimitiveType)
    requires from in l.onlyNumeric && to in l.onlyNumeric
    ensures var r := CastToIfNecessary(l, from, to);
            r.Success? && (r.value != "" <==> l.ordinal(from) < l.ordinal(to))
    ensures var r := CastToIfNecessary(l, from, to);
            r.value != "" ==>
              exists x :: r.value == ".to" + x + "()" && ValueOf(Upper(x)) == Success(to)
  {
    if l.ordinal(from) < l.ordinal(to) {
      ValueOfCapitalized(to);
    }
  }

  /** An operand already of the operator's result type is never cast. */
  lemma NoCastToOwnResultType(l: Layout, k1: PrimitiveType, k2: PrimitiveType)
    requires k1 != BOOLEAN && k2 != BOOLEAN && k1 in l.onlyNumeric && k2 in l.onlyNumeric
    requires INT in l.onlyNumeric
    ensures var t := GetOperatorReturnType(l, k1, k2).value;
            CastToIfNecessary(l, k1, t) == Success("") ==> (k1 == t || l.ordinal(k1) >= l.ordinal(t))
    ensures var t := GetOperatorReturnType(l, k1, k2).value;
            CastToIfNecessary(l, t, t) == Success("")
  {
  }

  // ----- native intrinsic names -----

  /** `toNativeOperator`: `div` and `rem` become signed intrinsics, a `unary`
      prefix becomes `UNARY_`, and everything is upper-cased. */
  function ToNativeOperator(name: string): (r: string)
    ensures (name == "div" || name == "rem") ==> r == "SIGNED_" + Upper(name)
    ensures name != "div" && name != "rem" && !StartsWith(name, "unary") ==> r == Upper(name)
    ensures name != "div" && name != "rem" && StartsWith(name, "unary") ==>
              r == "UNARY_" + Upper(Join("", Split(name, "unary")))
  {
    if name == "div" || name == "rem" then "SIGNED_" + Upper(name)
    else if StartsWith(name, "unary") then
      RemoveAllSplit(name, "unary");
      "UNARY_" + Upper(RemoveAll(name, "unary"))
    else Upper(name)
  }

  /** A unary operator name loses its prefix and every further `unary` in
      it: `unaryMinus` becomes `UNARY_MINUS`, and `unaryunaryMinus` too. */
  /** `replace("unary", "")` on a name with the prefix deletes the prefix
      and then works on the rest. */
  lemma RemoveUnaryPrefix(rest: string)
    ensures RemoveAll("unary" + rest, "unary") == RemoveAll(rest, "unary")
  {
    var s := "unary" + rest;
    assert s[..5] == "unary";
    assert OccursAt(s, "unary", 0);
    assert IndexOf(s, "unary") == 0 by {
      IndexOfFirst(s, "unary");
    }
    assert s[5..] == rest;
  }

  /** A unary operator name loses its prefix and every further `unary` in
      it: `unaryMinus` becomes `UNARY_MINUS`. */
  lemma UnaryNativeOperator(rest: string)
    ensures ToNativeOperator("unary" + rest) == "UNARY_" + Upper(RemoveAll(rest, "unary"))
    ensures !Contains(rest, "unary") ==> ToNativeOperator("unary" + rest) == "UNARY_" + Upper(rest)
  {
    var s := "unary" + rest;
    assert StartsWith(s, "unary") by {
      assert s[..5] == "unary";
    }
    RemoveUnaryPrefix(rest);
    if !Contains(rest, "unary") {
      RemoveAllAbsent(rest, "unary");
    }
  }

  /** A doubled prefix is deleted twice: `unaryunaryMinus` also becomes `UNARY_MINUS`. */
  lemma DoubledUnaryPrefix()
    ensures ToNativeOperator("unaryunaryMinus") == "UNARY_MINUS"
  {
    var minus := "Minus";
    MinusWords();
    RemoveAllAbsent(minus, "unary");
    RemoveUnaryPrefix(minus);
    UnaryNativeOperator("unary" + minus);
  }

  /** The spellings `DoubledUnaryPrefix` works with. */
  lemma MinusWords()
    ensures !Contains("Minus", "unary")
    ensures Upper("Minus") == "MINUS"
    ensures "unary" + ("unary" + "Minus") == "unaryunaryMinus"
    ensures "UNARY_" + "MINUS" == "UNARY_MINUS"
  {
    var minus := "Minus";
    forall i: nat | i <= 5
      ensures !OccursAt(minus, "unary", i)
    {
      if i == 0 {
        assert minus[0..5][0] != "unary"[0];
      }
    }
    var u := Upper(minus);
    assert u[0] == 'M' && u[1] == 'I' && u[2] == 'N' && u[3] == 'U' && u[4] == 'S';
  }

  // ----- conversions in the native generator -----

  /** What `modifyGeneratedConversions` makes of `thisKind.toX()`. */
  datatype Conversion =
    | InlineSelf                  // `inline`, body `this`
    | TypedIntrinsic(kind: string) // `external`, `@TypedIntrinsic(IntrinsicType.kind)`
    | ThroughInt(body: string)    // body `this.toInt().toX()`
    | RuntimeCall(symbol: string) // `external`, `@GCUnsafeCall("symbol")`
    | ExternalOnly                // `external`, no annotation

  /** The intrinsic for a conversion from a non-floating type. */
  function IntegralIntrinsic(l: Layout, from: PrimitiveType, to: PrimitiveType): (r: string)
  {
    if to in l.floatingPoint then "SIGNED_TO_FLOAT"
    else if l.byteSize(to) < l.byteSize(from) then "INT_TRUNCATE"
    else if l.byteSize(to) > l.byteSize(from) then "SIGN_EXTEND"
    else "ZERO_EXTEND"
  }

  function NativeConversion(l: Layout, thisKind: PrimitiveType, to: PrimitiveType): (r: Conversion)
    ensures r.InlineSelf? <==> to == thisKind
  {
    if to == thisKind then InlineSelf
    else if thisKind !in l.floatingPoint then TypedIntrinsic(IntegralIntrinsic(l, thisKind, to))
    else if to in {BYTE, SHORT, CHAR} then ThroughInt("this.toInt().to" + Capitalized(to) + "()")
    else if to in {INT, LONG} then RuntimeCall("Kotlin_" + Capitalized(thisKind) + "_to" + Capitalized(to))
    else if l.byteSize(thisKind) > l.byteSize(to) then TypedIntrinsic("FLOAT_TRUNCATE")
    else if l.byteSize(thisKind) < l.byteSize(to) then TypedIntrinsic("FLOAT_EXTEND")
    else ExternalOnly
  }

  /** From a non-floating type to another type, the intrinsic is decided by
      the target being floating, then by the byte sizes: exactly one of
      truncate, sign-extend and zero-extend, by whether the target is
      smaller, larger or the same size. */
  lemma IntegralConversionChoice(l: Layout, from: PrimitiveType, to: PrimitiveType)
    requires from !in l.floatingPoint && from != to
    ensures NativeConversion(l, from, to).TypedIntrinsic?
    ensures var k := NativeConversion(l, from, to).kind;
            (k == "SIGNED_TO_FLOAT" <==> to in l.floatingPoint) &&
            (k == "INT_TRUNCATE" <==> to !in l.floatingPoint && l.byteSize(to) < l.byteSize(from)) &&
            (k == "SIGN_EXTEND" <==> to !in l.floatingPoint && l.byteSize(to) > l.byteSize(from)) &&
            (k == "ZERO_EXTEND" <==> to !in l.floatingPoint && l.byteSize(to) == l.byteSize(from))
  {
  }

  /** From a floating type: small integral targets go through `toInt()`,
      `Int` and `Long` call into the runtime, and another floating type is
      truncated or extended by size. The body and the runtime symbol name
      the target type in a form `valueOf` reads back. */
  lemma FloatingConversionChoice(l: Layout, from: PrimitiveType, to: PrimitiveType)
    requires from in l.floatingPoint && from != to
    ensures to in {BYTE, SHORT, CHAR} <==> NativeConversion(l, from, to).ThroughInt?
    ensures to in {INT, LONG} <==> NativeConversion(l, from, to).RuntimeCall?
    ensures var c := NativeConversion(l, from, to);
            c.ThroughInt? ==>
              exists x :: c.body == "this.toInt().to" + x + "()" && ValueOf(Upper(x)) == Success(to)
    ensures var c := NativeConversion(l, from, to);
            c.RuntimeCall? ==>
              exists x, y :: c.symbol == "Kotlin_" + x + "_to" + y &&
                ValueOf(Upper(x)) == Success(from) && ValueOf(Upper(y)) == Success(to)
  {
    ValueOfCapitalized(from);
    ValueOfCapitalized(to);
  }
}
