/** Whole type bodies: the line loop joins exactly the lines of each field, so layout never matters. */
module SdlBlocks {
  import opened Prelude
  import opened SdlText
  import opened SdlFields
  import opened SdlLayout
  import opened SdlReading
  import opened SdlFieldReading

  function RunText(scan: Scan, text: string): Scan { RunLines(scan, Lines(text)) }

  /** The run goes on after a line: `tail` is what follows it, from its line break on. */
  function Resume(scan: Scan, tail: string): Scan {
    if tail == "" then scan else RunText(scan, tail[1..])
  }

  predicate IsTail(tail: string) { tail == "" || tail[0] == '\n' }

  lemma RunLine(scan: Scan, line: string, tail: string)
    requires '\n' !in line && IsTail(tail)
    ensures RunText(scan, line + tail) == Resume(LineStep(scan, line), tail)
  {
    IndexOfIs(line, tail, '\n');
    var text := line + tail;
    if tail == "" {
      assert text == line;
      assert Lines(text) == [line] && [line][1..] == [];
      assert RunLines(LineStep(scan, line), []) == LineStep(scan, line);
    } else {
      assert text[|line| + 1..] == tail[1..];
      var lines := [line] + Lines(tail[1..]);
      assert Lines(text) == lines && lines[1..] == Lines(tail[1..]);
    }
  }

  // ---------------------------------------------------------------- Parentheses

  /** Opening parentheses minus closing ones. */
  lemma {:induction false} ParensCount(s: string)
    ensures Parens(s) + multiset(s)[')'] == multiset(s)['(']
  {
    if s != "" {
      ParensCount(s[..|s| - 1]);
      assert s == s[..|s| - 1] + [s[|s| - 1]];
    }
  }

  lemma {:induction false} ParensOfConcat(s: string, t: string)
    ensures Parens(s + t) == Parens(s) + Parens(t)
    decreases |t|
  {
    if t == "" {
      assert s + t == s;
    } else {
      assert (s + t)[..|s + t| - 1] == s + t[..|t| - 1];
      ParensOfConcat(s, t[..|t| - 1]);
    }
  }

  lemma {:induction false} NoParensIsZero(s: string)
    requires NoParens(s)
    ensures Parens(s) == 0
  {
    if s != "" {
      assert s[|s| - 1] in s;
      NoParensIsZero(s[..|s| - 1]);
    }
  }

  lemma {:induction false} TrimKeepsParens(s: string)
    ensures Parens(TrimLeft(s)) == Parens(s) && Parens(TrimRight(s)) == Parens(s)
  {
    if s != "" {
      if Space(s[0]) {
        TrimKeepsParens(s[1..]);
        ParensOfConcat([s[0]], s[1..]);
        assert s == [s[0]] + s[1..] && [s[0]][..0] == "";
      }
      if Space(s[|s| - 1]) {
        TrimKeepsParens(s[..|s| - 1]);
      }
    }
  }

  lemma TrimParens(s: string)
    ensures Parens(Trim(s)) == Parens(s)
  {
    TrimKeepsParens(s);
    TrimKeepsParens(TrimLeft(s));
  }

  lemma OneParen()
    ensures Parens("(") == 1 && Parens(")") == -1
  {
    assert "("[..0] == "" && ")"[..0] == "";
  }

  // ---------------------------------------------------------------- The lines of one field

  /** Between fields; a description may be pending. */
  predicate Idle(scan: Scan) {
    scan.accumulated == "" && !scan.inBlock && scan.depth == 0
  }

  /** Inside the parentheses of a field. */
  predicate Open(scan: Scan) {
    scan.accumulated != "" && !scan.inBlock && scan.depth == 1
  }

  lemma StepInside(scan: Scan, line: string)
    requires Open(scan) && Parens(line) == 0
    ensures LineStep(scan, line) == scan.(accumulated := scan.accumulated + (" " + Trim(line)))
  {
    TrimParens(line);
    Assoc(scan.accumulated, " ", Trim(line));
  }

  lemma StepLast(scan: Scan, line: string)
    requires Open(scan) && Parens(line) == -1
    ensures LineStep(scan, line) == Flush(scan.(accumulated := scan.accumulated + (" " + Trim(line)), depth := 0))
  {
    TrimParens(line);
    Assoc(scan.accumulated, " ", Trim(line));
  }

  lemma StepField(scan: Scan, line: string)
    requires Idle(scan) && StartsSolid(line) && WordChar(line[0])
    ensures Trim(line) != "" && LineStep(scan, line) == Accumulate(scan, Trim(line))
  {
    TrimRightStart(line);
    NotQuoted(Trim(line));
  }

  lemma StepFirst(scan: Scan, line: string)
    requires Idle(scan) && StartsSolid(line) && WordChar(line[0])
    ensures Trim(line) != ""
    ensures Parens(line) == 1 ==> LineStep(scan, line) == scan.(accumulated := Trim(line), depth := 1)
    ensures Parens(line) == 0 ==> LineStep(scan, line) == Flush(scan.(accumulated := Trim(line)))
  {
    StepField(scan, line);
    TrimParens(line);
    assert "" + Trim(line) == Trim(line);
  }

  lemma {:induction false} TrimRightStart(s: string)
    requires StartsSolid(s)
    ensures StartsSolid(TrimRight(s)) && TrimRight(s)[0] == s[0]
  {
    if Space(s[|s| - 1]) {
      TrimRightStart(s[..|s| - 1]);
    }
  }

  predicate EndsSolid(s: string) { s != "" && !Space(s[|s| - 1]) }

  lemma {:induction false} TrimDropsEnd(s: string, gap: string)
    requires EndsSolid(s) && AllBlank(gap)
    ensures Trim(s + gap) == Trim(s)
    decreases |s|
  {
    if Space(s[0]) {
      assert (s + gap)[1..] == s[1..] + gap;
      TrimDropsEnd(s[1..], gap);
    } else {
      TrimRightDrops(s, gap);
    }
  }

  lemma BlankHasNoParens(gap: string)
    requires AllBlank(gap)
    ensures NoParens(gap)
  {
  }

  lemma ClosingParens(u: string, b: string, gap: string)
    requires NoParens(u) && NoParens(b) && AllBlank(gap)
    ensures Parens((u + (")" + b)) + gap) == -1
  {
    BlankHasNoParens(gap);
    NoParensIsZero(u);
    NoParensIsZero(b);
    NoParensIsZero(gap);
    OneParen();
    ParensOfConcat(")", b);
    ParensOfConcat(u, ")" + b);
    ParensOfConcat(u + (")" + b), gap);
  }

  lemma RunBreak(scan: Scan, line: string, back: string)
    requires '\n' !in line
    ensures RunText(scan, line + ("\n" + back)) == RunText(LineStep(scan, line), back)
  {
    RunLine(scan, line, "\n" + back);
    assert ("\n" + back)[1..] == back;
  }

  lemma BreakRegroup(line: string, back: string, more: string, gap: string, tail: string)
    ensures ((line + ("\n" + back)) + more) == line + ("\n" + (back + more))
    ensures ((line + ("\n" + (back + more))) + gap) + tail == line + ("\n" + (((back + more) + gap) + tail))
  {
    Assoc("\n", back, more);
    Assoc(line, "\n" + back, more);
    Assoc("\n", back + more, gap);
    Assoc(line, "\n" + (back + more), gap);
    Assoc("\n", (back + more) + gap, tail);
    Assoc(line, "\n" + ((back + more) + gap), tail);
  }

  /** From inside the parentheses to the end of the field. */
  lemma {:induction false} LastLines(scan: Scan, u: string, b: string, gap: string, tail: string)
    requires Open(scan) && NoParens(u) && NoParens(b) && '\n' !in b && EndsSolid(")" + b)
    requires AllBlank(gap) && '\n' !in gap && IsTail(tail)
    ensures
      var x := u + (")" + b);
      RunText(scan, (x + gap) + tail) ==
        Resume(Flush(scan.(accumulated := scan.accumulated + (" " + Rejoin(x)), depth := 0)), tail)
    decreases |u|
  {
    var x := u + (")" + b);
    if '\n' in u {
      var line, back := FirstLine(u);
      var next := scan.(accumulated := scan.accumulated + (" " + Trim(line)));
      NoParensIsZero(line);
      StepInside(scan, line);
      BreakRegroup(line, back, ")" + b, gap, tail);
      RunBreak(scan, line, ((back + (")" + b)) + gap) + tail);
      LastLines(next, back, b, gap, tail);
      RejoinLine(line, back + (")" + b));
      JoinRegroup(scan.accumulated, Trim(line), Rejoin(back + (")" + b)));
    } else {
      ClosingParens(u, b, gap);
      TrimDropsEnd(x, gap);
      RejoinLine(x, "");
      StepLast(scan, x + gap);
      RunLine(scan, x + gap, tail);
    }
  }

  lemma JoinRegroup(a: string, b: string, c: string)
    ensures (a + (" " + b)) + (" " + c) == a + (" " + (b + (" " + c)))
  {
    Assoc(" ", b, " " + c);
    Assoc(a, " " + b, " " + c);
  }

  lemma OpeningParens(a: string, line: string)
    requires NoParens(a) && NoParens(line)
    ensures Parens(a + ("(" + line)) == 1
  {
    NoParensIsZero(a);
    NoParensIsZero(line);
    OneParen();
    ParensOfConcat("(", line);
    ParensOfConcat(a, "(" + line);
  }

  lemma OpeningRegroup(a: string, line: string, back: string)
    ensures a + ("(" + (line + ("\n" + back))) == (a + ("(" + line)) + ("\n" + back)
  {
    Assoc("(", line, "\n" + back);
    Assoc(a, "(" + line, "\n" + back);
  }

  /** All lines of a field with parentheses: they are joined, and the field is parsed. */
  lemma FieldLines(scan: Scan, a: string, inner: string, b: string, gap: string, tail: string)
    requires Idle(scan) && StartsSolid(a) && WordChar(a[0]) && NoParens(a) && '\n' !in a
    requires NoParens(inner) && NoParens(b) && '\n' !in b && EndsSolid(")" + b)
    requires AllBlank(gap) && '\n' !in gap && IsTail(tail)
    ensures
      var x := a + ("(" + (inner + (")" + b)));
      RunText(scan, (x + gap) + tail) == Resume(Flush(scan.(accumulated := Rejoin(x))), tail)
  {
    var x := a + ("(" + (inner + (")" + b)));
    if '\n' in inner {
      var line, back := FirstLine(inner);
      var first, rest := a + ("(" + line), back + (")" + b);
      var next := scan.(accumulated := Trim(first), depth := 1);
      OpeningParens(a, line);
      StepFirst(scan, first);
      assert x == first + ("\n" + rest) by {
        BreakRegroup(line, back, ")" + b, gap, tail);
        OpeningRegroup(a, line, rest);
      }
      BreakRegroup(first, "", rest, gap, tail);
      assert "" + rest == rest;
      RunBreak(scan, first, (rest + gap) + tail);
      LastLines(next, back, b, gap, tail);
      RejoinLine(first, rest);
    } else {
      FieldParens(a, inner, b);
      OneLine(scan, x, gap, tail);
    }
  }

  lemma FieldParens(a: string, inner: string, b: string)
    requires NoParens(a) && NoParens(inner) && NoParens(b)
    ensures Parens(a + ("(" + (inner + (")" + b)))) == 0
  {
    NoParensIsZero(a);
    NoParensIsZero(inner);
    NoParensIsZero(b);
    OneParen();
    ParensOfConcat(")", b);
    ParensOfConcat(inner, ")" + b);
    ParensOfConcat("(", inner + (")" + b));
    ParensOfConcat(a, "(" + (inner + (")" + b)));
  }

  /** A field on one line. */
  lemma OneLine(scan: Scan, x: string, gap: string, tail: string)
    requires Idle(scan) && StartsSolid(x) && WordChar(x[0]) && EndsSolid(x) && '\n' !in x && Parens(x) == 0
    requires AllBlank(gap) && '\n' !in gap && IsTail(tail)
    ensures RunText(scan, (x + gap) + tail) == Resume(Flush(scan.(accumulated := Rejoin(x))), tail)
  {
    BlankHasNoParens(gap);
    NoParensIsZero(gap);
    ParensOfConcat(x, gap);
    TrimDropsEnd(x, gap);
    RejoinLine(x, "");
    StepFirst(scan, x + gap);
    RunLine(scan, x + gap, tail);
  }

  lemma ResultChars(d: Decl, l: Layout)
    requires WellFormed(d) && Fits(d, l) && '\n' !in l.afterClose && '\n' !in l.afterColon
    ensures NoParens(l.afterClose + ResultText(d, l)) && '\n' !in l.afterClose + ResultText(d, l)
    ensures EndsSolid(")" + (l.afterClose + ResultText(d, l))) && EndsSolid(ResultText(d, l))
    ensures NoParens(ResultText(d, l))
  {
    NoSpaceIsSolid(d.kind);
    BlankHasNoParens(l.afterClose);
    BlankHasNoParens(l.afterColon);
    EndsLast(":", l.afterColon, d.kind);
    EndsLast(")", l.afterClose, ResultText(d, l));
  }

  lemma NameChars(d: Decl, l: Layout)
    requires WellFormed(d) && Fits(d, l) && '\n' !in l.afterName
    ensures var a := d.name + l.afterName; NoParens(a) && '\n' !in a && StartsSolid(a) && WordChar(a[0])
  {
    NoSpaceIsSolid(d.name);
    BlankHasNoParens(l.afterName);
    assert d.name[0] in d.name;
  }

  lemma PlainFieldLines(scan: Scan, d: Decl, l: Layout, gap: string, tail: string)
    requires Idle(scan) && WellFormed(d) && Fits(d, l) && BreaksInside(l) && d.params == []
    requires AllBlank(gap) && '\n' !in gap && IsTail(tail)
    ensures RunText(scan, (FieldText(d, l) + gap) + tail)
         == Resume(Flush(scan.(accumulated := Rejoin(FieldText(d, l)))), tail)
  {
    var x := FieldText(d, l);
    FieldIsSolid(d, l);
    NameChars(d, l);
    ResultChars(d, l);
    Assoc(d.name, l.afterName, ResultText(d, l));
    assert NoParens(x) && '\n' !in x;
    NoParensIsZero(x);
    OneLine(scan, x, gap, tail);
  }

  lemma FieldLinesOf(scan: Scan, d: Decl, l: Layout, gap: string, tail: string)
    requires Idle(scan) && WellFormed(d) && Fits(d, l) && BreaksInside(l) && d.params != []
    requires AllBlank(gap) && '\n' !in gap && IsTail(tail)
    ensures RunText(scan, (FieldText(d, l) + gap) + tail)
         == Resume(Flush(scan.(accumulated := Rejoin(FieldText(d, l)))), tail)
  {
    var inner := l.afterOpen + (ParamsText(d.params, l.params, "") + l.beforeClose);
    var b := l.afterClose + ResultText(d, l);
    FieldParts(d, l);
    InnerChars(d, l);
    NameChars(d, l);
    ResultChars(d, l);
    Assoc(d.name, l.afterName, "(" + (inner + (")" + b)));
    FieldLines(scan, d.name + l.afterName, inner, b, gap, tail);
  }

  /** One more field, which takes the pending description. */
  function WithField(scan: Scan, field: Field): Scan {
    scan.(description := "", fields := scan.fields + [field.(description := Trim(scan.description))])
  }

  /** The parser goes over one field: exactly that field is added, with the description before it. */
  lemma FieldIsAdded(scan: Scan, d: Decl, l: Layout, gap: string, tail: string)
    requires Idle(scan) && WellFormed(d) && Fits(d, l) && BreaksInside(l)
    requires AllBlank(gap) && '\n' !in gap && IsTail(tail)
    ensures RunText(scan, (FieldText(d, l) + gap) + tail) == Resume(WithField(scan, FieldOf(d, l)), tail)
  {
    if d.params == [] {
      PlainFieldLines(scan, d, l, gap, tail);
    } else {
      FieldLinesOf(scan, d, l, gap, tail);
    }
    JoinedFieldIsRead(d, l);
    FlushAdds(scan, Rejoin(FieldText(d, l)), FieldOf(d, Squashed(l)));
    SquashedSeparators(l.params);
    SameCommasSameField(d, Squashed(l), l);
  }

  lemma FlushAdds(scan: Scan, text: string, field: Field)
    requires Idle(scan) && Solid(text) && FieldIn(text, "") == Some(field)
    ensures Flush(scan.(accumulated := text)) == WithField(scan, field)
  {
    TrimIsSame(text);
    DescriptionIsTaken(text, Trim(scan.description), field);
    TrimTwice(scan.description);
  }

  lemma DescriptionIsTaken(text: string, description: string, field: Field)
    requires FieldIn(text, "") == Some(field)
    ensures FieldIn(text, description) == Some(field.(description := Trim(description)))
  {
  }

  lemma {:induction false} TrimLeftSolid(s: string)
    ensures TrimLeft(s) == "" || StartsSolid(TrimLeft(s))
  {
    if s != "" && Space(s[0]) {
      TrimLeftSolid(s[1..]);
    }
  }

  lemma {:induction false} TrimRightSolid(s: string)
    requires s == "" || StartsSolid(s)
    ensures TrimRight(s) == "" || Solid(TrimRight(s))
  {
    if s != "" && Space(s[|s| - 1]) {
      TrimRightSolid(s[..|s| - 1]);
    }
  }

  lemma TrimTwice(s: string)
    ensures Trim(s) == "" || Solid(Trim(s))
    ensures Trim(Trim(s)) == Trim(s)
  {
    TrimLeftSolid(s);
    TrimRightSolid(TrimLeft(s));
    if Trim(s) != "" {
      TrimIsSame(Trim(s));
    }
  }

  lemma JoinedFieldIsRead(d: Decl, l: Layout)
    requires WellFormed(d) && Fits(d, l)
    ensures Solid(Rejoin(FieldText(d, l))) && FieldIn(Rejoin(FieldText(d, l)), "") == Some(FieldOf(d, Squashed(l)))
  {
    RejoinField(d, l);
    SquashedFits(d, l);
    FieldIsSolid(d, Squashed(l));
    FieldIsRead(d, Squashed(l));
  }

  lemma {:induction false} SquashedSeparators(gs: seq<ParamGaps>)
    ensures SameSeparators(SquashedParams(gs), gs)
  {
    if gs != [] {
      SquashedSeparators(gs[1..]);
    }
  }

  // ---------------------------------------------------------------- Whole bodies

  lemma IdleSkipsBlank(scan: Scan, line: string)
    requires Idle(scan) && AllBlank(line)
    ensures LineStep(scan, line) == scan
  {
    TrimBlank(line);
  }

  /** White space before a field is skipped. */
  lemma {:induction false} IdleSkipsGap(scan: Scan, gap: string, rest: string)
    requires Idle(scan) && AllBlank(gap)
    ensures RunText(scan, gap + rest) == RunText(scan, rest)
    decreases |gap|
  {
    if '\n' in gap {
      var line, back := FirstLine(gap);
      Assoc(line, "\n" + back, rest);
      Assoc("\n", back, rest);
      RunBreak(scan, line, back + rest);
      IdleSkipsBlank(scan, line);
      IdleSkipsGap(scan, back, rest);
    } else if '\n' in rest {
      var line, back := FirstLine(rest);
      Assoc(gap, line, "\n" + back);
      RunBreak(scan, gap + line, back);
      RunBreak(scan, line, back);
      TrimLeftDrops(gap, line);
    } else {
      RunLine(scan, gap + rest, "");
      RunLine(scan, rest, "");
      assert (gap + rest) + "" == gap + rest && rest + "" == rest;
      TrimLeftDrops(gap, rest);
    }
  }

  /** The fields, each followed by its gap. */
  function BodyText(ds: seq<Decl>, ls: seq<Layout>, gaps: seq<string>): string
    requires |ds| == |ls| == |gaps|
    requires forall i | 0 <= i < |ds| :: |ds[i].params| == |ls[i].params|
  {
    if ds == [] then "" else FieldText(ds[0], ls[0]) + (gaps[0] + BodyText(ds[1..], ls[1..], gaps[1..]))
  }

  /** Each field is laid out with its line breaks inside its parentheses, and ends before the next one's line. */
  predicate IsBody(ds: seq<Decl>, ls: seq<Layout>, gaps: seq<string>) {
    && |ds| == |ls| == |gaps|
    && (forall i | 0 <= i < |ds| :: WellFormed(ds[i]) && Fits(ds[i], ls[i]) && BreaksInside(ls[i]) && AllBlank(gaps[i]))
    && (forall i | 0 <= i < |ds| - 1 :: '\n' in gaps[i])
  }

  function FieldsOf(ds: seq<Decl>, ls: seq<Layout>): seq<Field>
    requires |ds| == |ls| && forall i | 0 <= i < |ds| :: |ds[i].params| == |ls[i].params|
  {
    if ds == [] then [] else [FieldOf(ds[0], ls[0])] + FieldsOf(ds[1..], ls[1..])
  }

  lemma BodyTail(ds: seq<Decl>, ls: seq<Layout>, gaps: seq<string>)
    requires IsBody(ds, ls, gaps) && ds != []
    ensures IsBody(ds[1..], ls[1..], gaps[1..])
    ensures WellFormed(ds[0]) && Fits(ds[0], ls[0]) && BreaksInside(ls[0]) && AllBlank(gaps[0])
    ensures '\n' in gaps[0] || BodyText(ds[1..], ls[1..], gaps[1..]) == ""
  {
  }

  function WithFields(scan: Scan, fields: seq<Field>): Scan { scan.(fields := scan.fields + fields) }

  lemma WithMoreFields(scan: Scan, field: Field, fields: seq<Field>)
    requires scan.description == field.description == ""
    ensures WithFields(WithField(scan, field), fields) == WithFields(scan, [field] + fields)
    ensures WithFields(scan, []) == scan
  {
    assert Trim("") == "";
    assert (scan.fields + [field]) + fields == scan.fields + ([field] + fields);
    assert scan.fields + [] == scan.fields;
  }

  lemma {:induction false} BodyRuns(scan: Scan, ds: seq<Decl>, ls: seq<Layout>, gaps: seq<string>)
    requires Idle(scan) && scan.description == "" && IsBody(ds, ls, gaps)
    ensures RunText(scan, BodyText(ds, ls, gaps)) == WithFields(scan, FieldsOf(ds, ls))
    decreases |ds|
  {
    if ds == [] {
      RunLine(scan, "", "");
      IdleSkipsBlank(scan, "");
      assert "" + "" == "" && scan.fields + [] == scan.fields;
    } else {
      BodyTail(ds, ls, gaps);
      var field := FieldOf(ds[0], ls[0]);
      OneFieldRuns(scan, ds[0], ls[0], gaps[0], BodyText(ds[1..], ls[1..], gaps[1..]));
      BodyRuns(WithField(scan, field), ds[1..], ls[1..], gaps[1..]);
      WithMoreFields(scan, field, FieldsOf(ds[1..], ls[1..]));
    }
  }

  lemma OneFieldRuns(scan: Scan, d: Decl, l: Layout, gap: string, rest: string)
    requires Idle(scan) && WellFormed(d) && Fits(d, l) && BreaksInside(l) && AllBlank(gap)
    requires '\n' in gap || rest == ""
    ensures RunText(scan, FieldText(d, l) + (gap + rest)) == RunText(WithField(scan, FieldOf(d, l)), rest)
  {
    var next := WithField(scan, FieldOf(d, l));
    var x := FieldText(d, l);
    if '\n' in gap {
      var line, back := FirstLine(gap);
      var tail := "\n" + (back + rest);
      FieldIsAdded(scan, d, l, line, tail);
      assert tail[1..] == back + rest;
      IdleSkipsGap(next, back, rest);
      Assoc("\n", back, rest);
      Assoc(line, "\n" + back, rest);
      Assoc(x, line, tail);
    } else {
      FieldIsAdded(scan, d, l, gap, "");
      assert (x + gap) + "" == x + (gap + "");
      RunLine(next, "", "");
      IdleSkipsBlank(next, "");
    }
  }

  /** A body of fields is read back from every layout, in order. */
  lemma BodyIsRead(before: string, ds: seq<Decl>, ls: seq<Layout>, gaps: seq<string>)
    requires IsBody(ds, ls, gaps) && AllBlank(before)
    ensures FieldsIn(before + BodyText(ds, ls, gaps)) == FieldsOf(ds, ls)
  {
    IdleSkipsGap(START, before, BodyText(ds, ls, gaps));
    BodyRuns(START, ds, ls, gaps);
    assert [] + FieldsOf(ds, ls) == FieldsOf(ds, ls) == WithFields(START, FieldsOf(ds, ls)).fields;
  }

  // ---------------------------------------------------------------- Layouts with the same separators

  predicate SameSeparators(gs: seq<ParamGaps>, gs2: seq<ParamGaps>) {
    |gs| == |gs2| && forall i | 0 <= i < |gs| - 1 :: gs[i].comma == gs2[i].comma
  }

  lemma {:induction false} SameSeparatorsSameLone(ps: seq<Param>, gs: seq<ParamGaps>, gs2: seq<ParamGaps>, first: bool)
    requires |ps| == |gs| && SameSeparators(gs, gs2)
    ensures LoneArgs(ps, gs, first) == LoneArgs(ps, gs2, first)
    decreases |ps|
  {
    if |ps| > 1 {
      SameSeparatorsSameLone(ps[1..], gs[1..], gs2[1..], gs[0].comma);
    }
  }

  predicate SameCommas(ds: seq<Decl>, ls: seq<Layout>, ls2: seq<Layout>) {
    && |ds| == |ls| == |ls2|
    && forall i | 0 <= i < |ds| :: |ds[i].params| == |ls[i].params| && SameSeparators(ls[i].params, ls2[i].params)
  }

  lemma SameCommasSameField(d: Decl, l: Layout, l2: Layout)
    requires |d.params| == |l.params| && SameSeparators(l.params, l2.params)
    ensures FieldOf(d, l) == FieldOf(d, l2)
  {
    SameSeparatorsSameLone(d.params, l.params, l2.params, true);
  }

  lemma {:induction false} SameCommasSameFields(ds: seq<Decl>, ls: seq<Layout>, ls2: seq<Layout>)
    requires SameCommas(ds, ls, ls2)
    ensures FieldsOf(ds, ls) == FieldsOf(ds, ls2)
    decreases |ds|
  {
    if ds != [] {
      SameCommasSameField(ds[0], ls[0], ls2[0]);
      SameCommasSameFields(ds[1..], ls[1..], ls2[1..]);
    }
  }

  /** Two layouts of the same fields, whatever their line breaks and other white space, read the same. */
  lemma LayoutNeverMatters(before: string, before2: string, ds: seq<Decl>,
                           ls: seq<Layout>, ls2: seq<Layout>, gaps: seq<string>, gaps2: seq<string>)
    requires IsBody(ds, ls, gaps) && IsBody(ds, ls2, gaps2) && AllBlank(before) && AllBlank(before2)
    requires SameCommas(ds, ls, ls2)
    ensures FieldsIn(before + BodyText(ds, ls, gaps)) == FieldsIn(before2 + BodyText(ds, ls2, gaps2))
  {
    BodyIsRead(before, ds, ls, gaps);
    BodyIsRead(before2, ds, ls2, gaps2);
    SameCommasSameFields(ds, ls, ls2);
  }

  // ---------------------------------------------------------------- When no argument is lost

  lemma {:induction false} OneLayerCount(ps: seq<Param>)
    ensures |OneLayerArgs(ps)| <= |ps| == |AllArgs(ps)|
    ensures |OneLayerArgs(ps)| == |ps| ==> OneLayerArgs(ps) == AllArgs(ps)
    ensures |OneLayerArgs(ps)| == |ps| <==> forall p | p in ps :: OneLayer(p.kind)
  {
    if ps != [] {
      OneLayerCount(ps[1..]);
      assert ps == [ps[0]] + ps[1..];
    }
  }

  /** Every one of several parameters stands alone exactly when commas separate them all. */
  lemma {:induction false} LoneCount(ps: seq<Param>, gs: seq<ParamGaps>, first: bool)
    requires |ps| == |gs|
    ensures |LoneArgs(ps, gs, first)| <= |ps| == |AllArgs(ps)|
    ensures |LoneArgs(ps, gs, first)| == |ps| <==> ps == [] || (first && AllCommas(gs))
    ensures |LoneArgs(ps, gs, first)| == |ps| ==> LoneArgs(ps, gs, first) == AllArgs(ps)
    decreases |ps|
  {
    if ps != [] {
      LoneCount(ps[1..], gs[1..], gs[0].comma);
      AllCommasFrom(gs);
    }
  }

  lemma AllCommasFrom(gs: seq<ParamGaps>)
    requires gs != []
    ensures AllCommas(gs) <==> |gs| == 1 || (gs[0].comma && AllCommas(gs[1..]))
  {
    if |gs| > 1 && gs[0].comma && AllCommas(gs[1..]) {
      forall i | 0 <= i < |gs| - 1 ensures gs[i].comma {
        assert i > 0 ==> gs[i] == gs[1..][i - 1];
      }
    }
  }

  /** The parameter at `i` is alone between its commas, when `first` says whether a part starts at the first one. */
  predicate AloneFrom(gs: seq<ParamGaps>, first: bool, i: nat)
    requires i < |gs|
  {
    (if i == 0 then first else gs[i - 1].comma) && (i == |gs| - 1 || gs[i].comma)
  }

  lemma {:induction false} LoneIsEmptyExactlyWhen(ps: seq<Param>, gs: seq<ParamGaps>, first: bool)
    requires |ps| == |gs|
    ensures LoneArgs(ps, gs, first) == [] <==> forall i: nat | i < |gs| :: !AloneFrom(gs, first, i)
    decreases |ps|
  {
    if ps != [] {
      LoneIsEmptyExactlyWhen(ps[1..], gs[1..], gs[0].comma);
      AloneLater(gs, first);
    }
  }

  lemma AloneLater(gs: seq<ParamGaps>, first: bool)
    requires gs != []
    ensures (forall i: nat | i < |gs| :: !AloneFrom(gs, first, i)) <==>
      !AloneFrom(gs, first, 0) && forall i: nat | i < |gs[1..]| :: !AloneFrom(gs[1..], gs[0].comma, i)
  {
    forall i: nat | i < |gs[1..]| ensures AloneFrom(gs[1..], gs[0].comma, i) == AloneFrom(gs, first, i + 1) {
    }
    if !AloneFrom(gs, first, 0) && forall i: nat | i < |gs[1..]| :: !AloneFrom(gs[1..], gs[0].comma, i) {
      forall i: nat | i < |gs| ensures !AloneFrom(gs, first, i) {
        assert i > 0 ==> !AloneFrom(gs[1..], gs[0].comma, i - 1);
      }
    }
  }

  /**
   * No argument is lost: either commas separate several arguments everywhere, or every type has at
   * most one list layer and no argument is alone between commas.
   */
  predicate KeepsArgs(ps: seq<Param>, gs: seq<ParamGaps>)
    requires |ps| == |gs|
  {
    || (HasComma(gs) && AllCommas(gs))
    || ((HasComma(gs) ==> forall i: nat | i < |gs| :: !Alone(gs, i)) && forall p | p in ps :: OneLayer(p.kind))
  }

  lemma AllArgsReadExactlyWhen(ps: seq<Param>, gs: seq<ParamGaps>)
    requires |ps| == |gs|
    ensures ReadArgs(ps, gs) == AllArgs(ps) <==> KeepsArgs(ps, gs)
  {
    OneLayerCount(ps);
    LoneCount(ps, gs, true);
    LoneIsEmptyExactlyWhen(ps, gs, true);
    assert forall i: nat | i < |gs| :: AloneFrom(gs, true, i) == Alone(gs, i);
  }

  /** The same of parseFieldLine, on every layout without line breaks. */
  lemma LineKeepsArgsExactlyWhen(d: Decl, l: Layout)
    requires WellFormed(d) && Fits(d, l)
    ensures FieldIn(FieldText(d, l), "") == Some(Declared(d)) <==> KeepsArgs(d.params, l.params)
  {
    FieldIsRead(d, l);
    AllArgsReadExactlyWhen(d.params, l.params);
  }

  function Declared(d: Decl): Field { Field(d.name, "", d.kind, AllArgs(d.params)) }

  function AllDeclared(ds: seq<Decl>): seq<Field> {
    if ds == [] then [] else [Declared(ds[0])] + AllDeclared(ds[1..])
  }

  lemma {:induction false} AllKeptExactlyWhen(ds: seq<Decl>, ls: seq<Layout>)
    requires |ds| == |ls| && forall i | 0 <= i < |ds| :: |ds[i].params| == |ls[i].params|
    ensures |FieldsOf(ds, ls)| == |AllDeclared(ds)| == |ds|
    ensures FieldsOf(ds, ls) == AllDeclared(ds) <==> forall i | 0 <= i < |ds| :: KeepsArgs(ds[i].params, ls[i].params)
    decreases |ds|
  {
    if ds != [] {
      var more, declared := FieldsOf(ds[1..], ls[1..]), AllDeclared(ds[1..]);
      AllKeptExactlyWhen(ds[1..], ls[1..]);
      AllArgsReadExactlyWhen(ds[0].params, ls[0].params);
      HeadsAndTails(FieldOf(ds[0], ls[0]), more, Declared(ds[0]), declared);
      assert (forall i | 0 <= i < |ds| :: KeepsArgs(ds[i].params, ls[i].params)) ==>
          forall i | 0 <= i < |ds[1..]| :: KeepsArgs(ds[1..][i].params, ls[1..][i].params);
    }
  }

  lemma HeadsAndTails(x: Field, xs: seq<Field>, y: Field, ys: seq<Field>)
    ensures [x] + xs == [y] + ys <==> x == y && xs == ys
  {
    assert ([x] + xs)[0] == x && ([y] + ys)[0] == y;
    assert ([x] + xs)[1..] == xs && ([y] + ys)[1..] == ys;
  }

  /** A body is read back without loss, on every layout, exactly when each of its fields keeps its arguments. */
  lemma BodyLosesNothingExactlyWhen(before: string, ds: seq<Decl>, ls: seq<Layout>, gaps: seq<string>)
    requires IsBody(ds, ls, gaps) && AllBlank(before)
    ensures FieldsIn(before + BodyText(ds, ls, gaps)) == AllDeclared(ds) <==>
      forall i | 0 <= i < |ds| :: KeepsArgs(ds[i].params, ls[i].params)
  {
    BodyIsRead(before, ds, ls, gaps);
    AllKeptExactlyWhen(ds, ls);
  }
}
