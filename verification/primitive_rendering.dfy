/** The text rendering of the builtins generator: method signatures, the
    one-tab indentation of a block (`shift`), and documentation comments
    (`printAsDoc`, `addDoc`). The platform line separator `END_LINE` is a
    parameter. */
module PrimitiveRendering {
  import opened Wrappers
  import opened Strings

  /** What the rendering needs of `System.lineSeparator()`: it is not empty,
      no proper prefix of it is also a suffix, and it uses none of the
      characters the generator writes at the edges of a line (tab, space,
      star, slash). */
  predicate LineSeparator(endLine: string) {
    |endLine| > 0 && BorderFree(endLine) &&
    forall k :: 0 <= k < |endLine| ==> endLine[k] !in "\t */"
  }

  /** The separators of the platforms the generator runs on qualify. */
  lemma PlatformSeparators()
    ensures LineSeparator("\n") && LineSeparator("\r\n")
  {
    assert "\r\n"[..1][0] != "\r\n"[1..][0];
  }

  /** A string whose characters the separator avoids holds no separator. */
  lemma FreeText(p: string, endLine: string)
    requires LineSeparator(endLine)
    requires forall k :: 0 <= k < |p| ==> p[k] in "\t */"
    ensures !Contains(p, endLine)
  {
    assert !Contains([], endLine);
    PrefixStringKeepsFree(p, [], endLine);
    assert p + [] == p;
  }

  // ----- MethodSignature.toString -----

  /** `MethodParameter(name, type)`. */
  datatype MethodParameter = MethodParameter(name: string, paramType: string)

  /** `MethodSignature`, with its default flags made explicit. */
  datatype MethodSignature = MethodSignature(
    isExternal: bool, visibility: string, isInfix: bool, isInline: bool,
    isOverride: bool, isOperator: bool, name: string,
    arg: Option<MethodParameter>, returnType: string)

  /** `"$arg"` inside the parentheses: `name: type`, or nothing. */
  function ArgText(arg: Option<MethodParameter>): string {
    if arg.None? then "" else arg.value.name + ": " + arg.value.paramType
  }

  /** `if (flag) append("word ")`. */
  function WordIf(flag: bool, w: string): string {
    if flag then w + " " else ""
  }

  /** `MethodSignature.toString()`: the appends of the string builder, in
      the order the code makes them. A signature renders as its modifier
      words, each followed by a space, then `fun name(arg): ret`. */
  function Render(m: MethodSignature): (r: string)
    ensures r == Spaced(Modifiers(m)) + "fun " + m.name + "(" + ArgText(m.arg) + "): " + m.returnType
  {
    SpacedModifiers(m);
    WordIf(m.isExternal, "external") + m.visibility + " " + WordIf(m.isInfix, "infix") +
    WordIf(m.isInline, "inline") + WordIf(m.isOverride, "override") + WordIf(m.isOperator, "operator") +
    "fun " + m.name + "(" + ArgText(m.arg) + "): " + m.returnType
  }

  /** The modifier words of a signature, in their fixed order. */
  function Modifiers(m: MethodSignature): seq<string> {
    Optional(m.isExternal, "external") + [m.visibility] + Optional(m.isInfix, "infix") +
    Optional(m.isInline, "inline") + Optional(m.isOverride, "override") + Optional(m.isOperator, "operator")
  }

  /** Each word followed by one space. */
  function Spaced(ws: seq<string>): string {
    if |ws| == 0 then "" else ws[0] + " " + Spaced(ws[1..])
  }

  lemma {:induction false} SpacedAppend(a: seq<string>, b: seq<string>)
    ensures Spaced(a + b) == Spaced(a) + Spaced(b)
    decreases |a|
  {
    if |a| == 0 {
      assert a + b == b;
    } else {
      assert (a + b)[1..] == a[1..] + b;
      SpacedAppend(a[1..], b);
    }
  }

  /** The modifier words, spaced, are the string builder's appends. */
  lemma SpacedModifiers(m: MethodSignature)
    ensures Spaced(Modifiers(m)) ==
            WordIf(m.isExternal, "external") + m.visibility + " " + WordIf(m.isInfix, "infix") +
            WordIf(m.isInline, "inline") + WordIf(m.isOverride, "override") + WordIf(m.isOperator, "operator")
  {
    var e := Optional(m.isExternal, "external");
    var v := e + [m.visibility];
    var i := v + Optional(m.isInfix, "infix");
    var n := i + Optional(m.isInline, "inline");
    var o := n + Optional(m.isOverride, "override");
    assert Spaced(e) == WordIf(m.isExternal, "external") by {
      SpacedOptional([], m.isExternal, "external");
      assert [] + e == e;
    }
    assert Spaced(v) == WordIf(m.isExternal, "external") + m.visibility + " " by {
      SpacedAppend(e, [m.visibility]);
    }
    SpacedOptional(v, m.isInfix, "infix");
    SpacedOptional(i, m.isInline, "inline");
    SpacedOptional(n, m.isOverride, "override");
    SpacedOptional(o, m.isOperator, "operator");
  }

  /** A word present only when its flag is set. */
  function Optional(flag: bool, w: string): seq<string> {
    if flag then [w] else []
  }

  lemma SpacedOptional(ws: seq<string>, flag: bool, w: string)
    ensures Spaced(ws + Optional(flag, w)) == Spaced(ws) + WordIf(flag, w)
  {
    SpacedAppend(ws, Optional(flag, w));
    if !flag {
      assert Optional(flag, w) == [];
    }
  }

  /** The visibility modifiers Kotlin has. */
  predicate Visibility(v: string) {
    v == "public" || v == "internal" || v == "protected" || v == "private"
  }

  /** Each modifier word is present exactly when its flag is set. */
  lemma ModifierFlags(m: MethodSignature)
    requires Visibility(m.visibility)
    ensures "external" in Modifiers(m) <==> m.isExternal
    ensures "infix" in Modifiers(m) <==> m.isInfix
    ensures "inline" in Modifiers(m) <==> m.isInline
    ensures "override" in Modifiers(m) <==> m.isOverride
    ensures "operator" in Modifiers(m) <==> m.isOperator
  {
    InModifiers(m, "external");
    InModifiers(m, "infix");
    InModifiers(m, "inline");
    InModifiers(m, "override");
    InModifiers(m, "operator");
  }

  /** The words of the list, flag by flag. */
  lemma InModifiers(m: MethodSignature, w: string)
    ensures w in Modifiers(m) <==>
            (m.isExternal && w == "external") || w == m.visibility || (m.isInfix && w == "infix") ||
            (m.isInline && w == "inline") || (m.isOverride && w == "override") ||
            (m.isOperator && w == "operator")
  {
  }

  /** The visibility comes first unless the method is external, and there
      is one word per set flag besides the visibility. */
  lemma ModifierPositions(m: MethodSignature)
    ensures Modifiers(m)[if m.isExternal then 1 else 0] == m.visibility
    ensures |Modifiers(m)| == 1 + (if m.isExternal then 1 else 0) + (if m.isInfix then 1 else 0) +
              (if m.isInline then 1 else 0) + (if m.isOverride then 1 else 0) + (if m.isOperator then 1 else 0)
  {
  }

  // ----- shift -----

  /** Every string of a list with `p` in front. */
  function Prefixed(p: string, xs: seq<string>): (r: seq<string>)
    ensures |r| == |xs|
    ensures forall i :: 0 <= i < |xs| ==> r[i] == p + xs[i]
  {
    seq(|xs|, i requires 0 <= i < |xs| => p + xs[i])
  }

  /** Every string of a list without its first `n` characters. */
  function Unprefixed(n: nat, xs: seq<string>): (r: seq<string>)
    requires forall i :: 0 <= i < |xs| ==> n <= |xs[i]|
    ensures |r| == |xs|
    ensures forall i :: 0 <= i < |xs| ==> r[i] == xs[i][n..]
  {
    seq(|xs|, i requires 0 <= i < |xs| => xs[i][n..])
  }

  lemma PrefixedUnprefixed(p: string, xs: seq<string>)
    ensures Unprefixed(|p|, Prefixed(p, xs)) == xs
  {
    var ys := Unprefixed(|p|, Prefixed(p, xs));
    forall i | 0 <= i < |xs|
      ensures ys[i] == xs[i]
    {
      assert (p + xs[i])[|p|..] == xs[i];
    }
  }

  /** Prefixing each of some separator-free lines with a string the
      separator avoids keeps them separator-free. */
  lemma PrefixedFree(p: string, xs: seq<string>, endLine: string)
    requires LineSeparator(endLine)
    requires forall k :: 0 <= k < |p| ==> p[k] in "\t */"
    requires forall k :: 0 <= k < |xs| ==> !Contains(xs[k], endLine)
    ensures forall k :: 0 <= k < |xs| ==> !Contains(Prefixed(p, xs)[k], endLine)
  {
    forall k | 0 <= k < |xs|
      ensures !Contains(Prefixed(p, xs)[k], endLine)
    {
      PrefixStringKeepsFree(p, xs[k], endLine);
    }
  }

  /** Joining the lines of a text, each behind a prefix the separator
      avoids, and splitting again gives those prefixed lines back. */
  lemma SplitPrefixedLines(p: string, s: string, endLine: string)
    requires LineSeparator(endLine)
    requires forall k :: 0 <= k < |p| ==> p[k] in "\t */"
    ensures Split(Join(endLine, Prefixed(p, Split(s, endLine))), endLine) == Prefixed(p, Split(s, endLine))
  {
    SplitPiecesFree(s, endLine);
    PrefixedFree(p, Split(s, endLine), endLine);
    SplitJoin(Prefixed(p, Split(s, endLine)), endLine);
  }

  /** `String.shift()`: split at the line separator, put a tab in front of
      each line, join again. The lines of the result are the text's own
      lines, each with a tab in front: same count, same order. */
  function Shift(s: string, endLine: string): (r: string)
    requires |endLine| > 0
    ensures LineSeparator(endLine) ==> Split(r, endLine) == Prefixed("\t", Split(s, endLine))
  {
    assert LineSeparator(endLine) ==>
           Split(Join(endLine, Prefixed("\t", Split(s, endLine))), endLine) == Prefixed("\t", Split(s, endLine)) by {
      if LineSeparator(endLine) {
        SplitPrefixedLines("\t", s, endLine);
      }
    }
    Join(endLine, Prefixed("\t", Split(s, endLine)))
  }

  /** Dropping the tab from every line of a shifted text gives the text back. */
  lemma ShiftRoundTrip(s: string, endLine: string)
    requires LineSeparator(endLine)
    ensures var lines := Split(Shift(s, endLine), endLine);
            (forall i :: 0 <= i < |lines| ==> 1 <= |lines[i]|) &&
            Join(endLine, Unprefixed(1, lines)) == s
  {
    PrefixedUnprefixed("\t", Split(s, endLine));
    JoinSplit(s, endLine);
  }

  // ----- printAsDoc and addDoc -----

  /** `String.printAsDoc()`: a one-line text becomes `/** text */`, which
      stays one line; a text with line breaks becomes an opening line `/**`,
      each of its lines behind ` * ` in order, and a closing line ` */`. */
  function PrintAsDoc(s: string, endLine: string): (r: string)
    requires |endLine| > 0
    ensures LineSeparator(endLine) && !Contains(s, endLine) ==> Split(r, endLine) == ["/** " + s + " */"]
    ensures LineSeparator(endLine) && Contains(s, endLine) ==>
            Split(r, endLine) == ["/**"] + Prefixed(" * ", Split(s, endLine)) + [" */"]
  {
    if Contains(s, endLine) then
      var r := "/**" + endLine + Join(endLine, Prefixed(" * ", Split(s, endLine))) + endLine + " */";
      assert LineSeparator(endLine) ==> Split(r, endLine) == ["/**"] + Prefixed(" * ", Split(s, endLine)) + [" */"] by {
        if LineSeparator(endLine) {
          DocLines(s, endLine);
        }
      }
      r
    else
      assert LineSeparator(endLine) ==> Split("/** " + s + " */", endLine) == ["/** " + s + " */"] by {
        if LineSeparator(endLine) {
          PrefixStringKeepsFree("/** ", s, endLine);
          SuffixStringKeepsFree("/** " + s, " */", endLine);
          SplitJoin(["/** " + s + " */"], endLine);
        }
      }
      "/** " + s + " */"
  }

  /** The lines of a multi-line documentation comment. */
  lemma DocLines(s: string, endLine: string)
    requires LineSeparator(endLine)
    ensures var body := Prefixed(" * ", Split(s, endLine));
            Split("/**" + endLine + Join(endLine, body) + endLine + " */", endLine) == ["/**"] + body + [" */"]
  {
    var body := Prefixed(" * ", Split(s, endLine));
    var lines := ["/**"] + body + [" */"];
    JoinAppend(endLine, ["/**"], body);
    JoinAppend(endLine, ["/**"] + body, [" */"]);
    assert Join(endLine, lines) == "/**" + endLine + Join(endLine, body) + endLine + " */";
    SplitPiecesFree(s, endLine);
    PrefixedFree(" * ", Split(s, endLine), endLine);
    FreeText("/**", endLine);
    FreeText(" */", endLine);
    forall k | 0 <= k < |lines|
      ensures !Contains(lines[k], endLine)
    {
      if 0 < k < |lines| - 1 {
        assert lines[k] == body[k - 1];
      }
    }
    SplitJoin(lines, endLine);
  }

  /** `addDoc(doc)`: the first text becomes the documentation; each later
      one goes after a line separator, so its lines follow the lines
      already there. */
  function AddDoc(current: Option<string>, doc: string, endLine: string): (r: string)
    ensures current.None? ==> r == doc
    ensures LineSeparator(endLine) && current.Some? ==>
            Split(r, endLine) == Split(current.value, endLine) + Split(doc, endLine)
  {
    if current.None? then doc
    else
      assert LineSeparator(endLine) ==>
             Split(current.value + endLine + doc, endLine) == Split(current.value, endLine) + Split(doc, endLine) by {
        if LineSeparator(endLine) {
          SplitAround(current.value, doc, endLine);
        }
      }
      current.value + endLine + doc
  }

  /** Splitting two texts joined by a separator splits each of them. */
  lemma SplitAround(a: string, b: string, endLine: string)
    requires LineSeparator(endLine)
    ensures Split(a + endLine + b, endLine) == Split(a, endLine) + Split(b, endLine)
  {
    var xs := Split(a, endLine);
    var ys := Split(b, endLine);
    assert Join(endLine, xs + ys) == a + endLine + b by {
      JoinSplit(a, endLine);
      JoinSplit(b, endLine);
      JoinAppend(endLine, xs, ys);
    }
    SplitPiecesFree(a, endLine);
    SplitPiecesFree(b, endLine);
    PiecesFreeAppend(xs, ys, endLine);
    SplitJoin(xs + ys, endLine);
  }

  /** Two lists of separator-free pieces, one after the other. */
  lemma PiecesFreeAppend(xs: seq<string>, ys: seq<string>, endLine: string)
    requires forall k :: 0 <= k < |xs| ==> !Contains(xs[k], endLine)
    requires forall k :: 0 <= k < |ys| ==> !Contains(ys[k], endLine)
    ensures forall k :: 0 <= k < |xs + ys| ==> !Contains((xs + ys)[k], endLine)
  {
    forall k | 0 <= k < |xs + ys|
      ensures !Contains((xs + ys)[k], endLine)
    {
      if k >= |xs| {
        assert (xs + ys)[k] == ys[k - |xs|];
      }
    }
  }

  /** A sequence of `addDoc` calls, starting from the current documentation:
      the texts joined with line separators, in the order they were added,
      behind the documentation already there. */
  function AddDocs(current: Option<string>, docs: seq<string>, endLine: string): (r: Option<string>)
    ensures |docs| == 0 ==> r == current
    ensures current.Some? ==> r == Some(Join(endLine, [current.value] + docs))
    ensures current.None? && |docs| > 0 ==> r == Some(Join(endLine, docs))
    decreases |docs|
  {
    if |docs| == 0 then
      assert current.Some? ==> [current.value] + docs == [current.value];
      current
    else
      var r := AddDocs(Some(AddDoc(current, docs[0], endLine)), docs[1..], endLine);
      assert current.Some? ==> r == Some(Join(endLine, [current.value] + docs)) by {
        if current.Some? {
          JoinStep(current.value, docs, endLine);
        }
      }
      assert current.None? ==> r == Some(Join(endLine, docs)) by {
        if current.None? {
          assert [docs[0]] + docs[1..] == docs;
        }
      }
      r
  }

  /** Gluing the first text to the next with a separator does not change
      the joined result. */
  lemma JoinStep(first: string, docs: seq<string>, endLine: string)
    requires |docs| > 0
    ensures Join(endLine, [first + endLine + docs[0]] + docs[1..]) == Join(endLine, [first] + docs)
  {
    var next := first + endLine + docs[0];
    JoinAppend(endLine, [first], docs);
    if |docs| == 1 {
      assert [next] + docs[1..] == [next];
    } else {
      var tail := Join(endLine, docs[1..]);
      JoinAppend(endLine, [next], docs[1..]);
      assert Join(endLine, docs) == docs[0] + endLine + tail by {
        assert [docs[0]] + docs[1..] == docs;
        JoinAppend(endLine, [docs[0]], docs[1..]);
      }
      Regroup(first, endLine, docs[0], tail);
    }
  }

  /** Concatenation, regrouped. */
  lemma Regroup(a: string, sep: string, b: string, c: string)
    ensures a + sep + b + sep + c == a + sep + (b + sep + c)
  {
  }
}
