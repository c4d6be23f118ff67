/** The parser reads a whole joined field definition whatever its layout is. */
module SdlFieldReading {
  import opened Prelude
  import opened SdlText
  import opened SdlScanner
  import opened SdlFields
  import opened SdlLayout
  import opened SdlReading

  predicate GoodParams(ps: seq<Param>, gs: seq<ParamGaps>) {
    && |ps| == |gs| && ps != [] && ParamsFit(gs)
    && forall p | p in ps :: IsWord(p.name) && WellTyped(p.kind)
  }

  // ---------------------------------------------------------------- The text of a parameter list

  lemma SeparatedThen(g: ParamGaps, more: string, rest: string)
    ensures Separated(g, more + rest) == Separated(g, more) + rest
  {
    if g.comma {
      Assoc(g.afterComma, more, rest);
      Assoc(",", g.afterComma + more, rest);
      Assoc(g.afterType, "," + (g.afterComma + more), rest);
    } else {
      Assoc(g.afterType, more, rest);
    }
  }

  lemma {:induction false} ParamsThen(ps: seq<Param>, gs: seq<ParamGaps>, rest: string)
    requires |ps| == |gs| && ps != []
    ensures ParamsText(ps, gs, rest) == ParamsText(ps, gs, "") + rest
    decreases |ps|
  {
    if |ps| == 1 {
      ParamThen(ps[0], gs[0], rest);
    } else {
      var more := ParamsText(ps[1..], gs[1..], "");
      ParamsThen(ps[1..], gs[1..], rest);
      SeparatedThen(gs[0], more, rest);
      ParamThen(ps[0], gs[0], Separated(gs[0], more) + rest);
      ParamThen(ps[0], gs[0], Separated(gs[0], more));
      Assoc(ParamText(ps[0], gs[0], ""), Separated(gs[0], more), rest);
    }
  }

  lemma {:induction false} ParamsAreSolid(ps: seq<Param>, gs: seq<ParamGaps>)
    requires GoodParams(ps, gs)
    ensures Solid(ParamsText(ps, gs, "")) && WordChar(ParamsText(ps, gs, "")[0])
    decreases |ps|
  {
    if |ps| == 1 {
      ParamIsSolid(ps[0], gs[0]);
      assert ps[0].name[0] in ps[0].name;
    } else {
      var more := ParamsText(ps[1..], gs[1..], "");
      ParamsAreSolid(ps[1..], gs[1..]);
      SeparatedEnds(gs[0], more);
      PairIsSolid(ps[0], gs[0], Separated(gs[0], more));
    }
  }

  lemma SeparatedEnds(g: ParamGaps, more: string)
    requires more != ""
    ensures var s := Separated(g, more); s != "" && s[|s| - 1] == more[|more| - 1]
  {
  }

  lemma SeparatedChars(g: ParamGaps, more: string)
    requires BlankGaps(g) && NoParens(more)
    ensures NoParens(Separated(g, more))
    ensures ',' in Separated(g, more) <==> g.comma || ',' in more
  {
  }

  lemma {:induction false} ParamsChars(ps: seq<Param>, gs: seq<ParamGaps>)
    requires GoodParams(ps, gs)
    ensures NoParens(ParamsText(ps, gs, ""))
    ensures ',' in ParamsText(ps, gs, "") <==> HasComma(gs)
    decreases |ps|
  {
    ParamChars(ps[0], gs[0]);
    if |ps| > 1 {
      var more := ParamsText(ps[1..], gs[1..], "");
      ParamsChars(ps[1..], gs[1..]);
      SeparatedChars(gs[0], more);
      ParamThen(ps[0], gs[0], Separated(gs[0], more));
    }
  }

  // ---------------------------------------------------------------- parseArgs

  lemma ArgsAreRead(before: string, ps: seq<Param>, gs: seq<ParamGaps>, after: string)
    requires GoodParams(ps, gs) && AllBlank(before) && AllBlank(after)
    ensures ArgsIn(before + (ParamsText(ps, gs, "") + after)) == ReadArgs(ps, gs)
  {
    var s := ParamsText(ps, gs, "");
    ParamsAreSolid(ps, gs);
    TrimSolid(before, s, after);
    ParamsChars(ps, gs);
    BlankIsFlat("");
    LoneArgsAreRead("", true, ps, gs);
    assert "" + s == s;
    RegexReadsList(ps, gs);
  }

  // ---------------------------------------------------------------- parseFieldLine

  lemma {:induction false} TypeEndsAtEnd(kind: string, k: nat)
    requires 1 <= k <= |kind| && forall c | c in kind :: !Space(c) && c != '@'
    ensures TypeEnd(kind, k) == |kind|
    decreases |kind| - k
  {
    if k < |kind| {
      assert kind[k..][0] == kind[k] && kind[k] in kind;
      assert SkipBlank(kind[k..]) == kind[k..];
      TypeEndsAtEnd(kind, k + 1);
    }
  }

  lemma ColonThen(gap: string, gap2: string, rest: string)
    requires AllBlank(gap) && AllBlank(gap2) && StartsSolid(rest)
    ensures
      var colon := SkipBlank(gap + (":" + (gap2 + rest)));
      StartsWith(colon, ':') && SkipBlank(colon[1..]) == rest
  {
    var colon := ":" + (gap2 + rest);
    SkipGap(gap, colon);
    assert colon[1..] == gap2 + rest;
    SkipGap(gap2, rest);
  }

  lemma KindIsWhole(kind: string)
    requires kind != "" && forall c | c in kind :: !Space(c) && c != '@'
    ensures Trim(kind[..TypeEnd(kind, 1)]) == kind && StartsSolid(kind)
  {
    TypeEndsAtEnd(kind, 1);
    assert kind[..|kind|] == kind;
    NoSpaceIsSolid(kind);
    TrimIsSame(kind);
  }

  lemma KindIsRead(gap: string, gap2: string, kind: string)
    requires AllBlank(gap) && AllBlank(gap2)
    requires kind != "" && forall c | c in kind :: !Space(c) && c != '@'
    ensures KindIn(gap + (":" + (gap2 + kind))) == Some(kind)
  {
    KindIsWhole(kind);
    ColonThen(gap, gap2, kind);
  }

  /** FieldIn once the name and the parentheses have been taken off. */
  lemma FieldFrom(line: string, args: string, after: string, kind: string)
    requires Solid(line) && Head(line) != ""
    requires Parenthesised(SkipBlank(Tail(line))) == Some((args, after))
    requires KindIn(after) == Some(kind)
    ensures FieldIn(line, "") == Some(Field(Head(line), "", kind, if args == "" then [] else ArgsIn(args)))
  {
    TrimIsSame(line);
    assert Trim("") == "";
  }

  lemma FieldIsSolid(d: Decl, l: Layout)
    requires WellFormed(d) && Fits(d, l)
    ensures Solid(FieldText(d, l)) && WordChar(FieldText(d, l)[0])
  {
    assert d.name[0] in d.name && d.kind[|d.kind| - 1] in d.kind;
    EndsLast(":", l.afterColon, d.kind);
    if d.params == [] {
      EndsLast(d.name, l.afterName, ResultText(d, l));
    } else {
      var rest := l.beforeClose + Closing(d, l);
      var params := ParamsText(d.params, l.params, "");
      EndsLast(")", l.afterClose, ResultText(d, l));
      ParamsThen(d.params, l.params, rest);
      EndsLast(params, l.beforeClose, Closing(d, l));
      EndsLast("(", l.afterOpen, params + rest);
      EndsLast(d.name, l.afterName, "(" + (l.afterOpen + (params + rest)));
    }
  }

  lemma PlainParts(name: string, gap: string, result: string)
    requires IsWord(name) && AllBlank(gap) && StartsWith(result, ':')
    ensures Head(name + (gap + result)) == name
    ensures Parenthesised(SkipBlank(Tail(name + (gap + result)))) == Some(("", result))
  {
    GapThen(gap, result);
    HeadIs(name, gap + result);
  }

  lemma NothingToRead(d: Decl, l: Layout)
    requires d.params == [] && l.params == []
    ensures FieldOf(d, l) == Field(d.name, "", d.kind, [])
  {
  }

  lemma PlainFieldIsRead(d: Decl, l: Layout)
    requires WellFormed(d) && Fits(d, l) && d.params == []
    ensures FieldIn(FieldText(d, l), "") == Some(FieldOf(d, l))
  {
    var result := ResultText(d, l);
    FieldIsSolid(d, l);
    PlainParts(d.name, l.afterName, result);
    assert "" + result == result;
    KindIsRead("", l.afterColon, d.kind);
    FieldFrom(FieldText(d, l), "", result, d.kind);
    NothingToRead(d, l);
  }

  /** The parenthesised part of a field, and what follows it. */
  lemma ParenthesesAreFound(inner: string, after: string)
    requires ')' !in inner
    ensures Parenthesised("(" + (inner + (")" + after))) == Some((inner, after))
  {
    var s := "(" + (inner + (")" + after));
    assert s[1..] == inner + (")" + after);
    IndexOfIs(inner, ")" + after, ')');
    assert (inner + (")" + after))[|inner| + 1..] == after;
  }

  lemma InnerRegroup(afterOpen: string, params: string, beforeClose: string, closing: string)
    ensures afterOpen + (params + (beforeClose + closing)) == (afterOpen + (params + beforeClose)) + closing
  {
    Assoc(params, beforeClose, closing);
    Assoc(afterOpen, params + beforeClose, closing);
  }

  lemma InnerChars(d: Decl, l: Layout)
    requires WellFormed(d) && Fits(d, l) && d.params != []
    ensures
      var inner := l.afterOpen + (ParamsText(d.params, l.params, "") + l.beforeClose);
      inner != "" && NoParens(inner)
  {
    ParamsChars(d.params, l.params);
    ParamsAreSolid(d.params, l.params);
  }

  /** A field with parameters: what stands before, between and after its parentheses. */
  lemma FieldParts(d: Decl, l: Layout)
    requires |d.params| == |l.params| && d.params != []
    ensures
      var inner := l.afterOpen + (ParamsText(d.params, l.params, "") + l.beforeClose);
      FieldText(d, l) == d.name + (l.afterName + ("(" + (inner + (")" + (l.afterClose + ResultText(d, l))))))
  {
    ParamsThen(d.params, l.params, l.beforeClose + Closing(d, l));
    InnerRegroup(l.afterOpen, ParamsText(d.params, l.params, ""), l.beforeClose, Closing(d, l));
  }

  lemma FieldWithParamsIsRead(d: Decl, l: Layout)
    requires WellFormed(d) && Fits(d, l) && d.params != []
    ensures FieldIn(FieldText(d, l), "") == Some(FieldOf(d, l))
  {
    var params := ParamsText(d.params, l.params, "");
    var inner := l.afterOpen + (params + l.beforeClose);
    var after := l.afterClose + ResultText(d, l);
    var line := FieldText(d, l);
    FieldParts(d, l);
    FieldIsSolid(d, l);
    GapThen(l.afterName, "(" + (inner + (")" + after)));
    HeadIs(d.name, l.afterName + ("(" + (inner + (")" + after))));
    InnerChars(d, l);
    ParenthesesAreFound(inner, after);
    KindIsRead(l.afterClose, l.afterColon, d.kind);
    FieldFrom(line, inner, after, d.kind);
    ArgsAreRead(l.afterOpen, d.params, l.params, l.beforeClose);
  }

  /** parseFieldLine reads the definition back from any layout without line breaks. */
  lemma FieldIsRead(d: Decl, l: Layout)
    requires WellFormed(d) && Fits(d, l)
    ensures FieldIn(FieldText(d, l), "") == Some(FieldOf(d, l))
  {
    if d.params == [] {
      PlainFieldIsRead(d, l);
    } else {
      FieldWithParamsIsRead(d, l);
    }
  }
}
