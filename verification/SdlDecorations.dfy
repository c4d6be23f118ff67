/**
 * What may follow or precede a type in a field definition (cmd/fetchactions-graphql/sdl.go): directives,
 * default values and descriptions of arguments.
 */
module SdlDecorations {
  import opened Prelude
  import opened SdlText
  import opened SdlScanner
  import opened SdlFields
  import opened SdlLayout
  import opened SdlReading
  import opened SdlFieldReading

  // ---------------------------------------------------------------- Directives

  lemma {:induction false} SkipBlankStops(a: string, tail: string)
    requires a != "" && !Space(a[|a| - 1])
    ensures SkipBlank(a + tail) != "" && SkipBlank(a + tail)[0] in a
    decreases |a|
  {
    assert (a + tail)[0] == a[0];
    if Blank(a[0]) {
      assert |a| > 1;
      assert (a + tail)[1..] == a[1..] + tail;
      SkipBlankStops(a[1..], tail);
    }
  }

  lemma {:induction false} TypeEndStops(kind: string, tail: string, k: nat)
    requires 1 <= k <= |kind| && Solid(kind) && '@' !in kind && OnlyDirectives(tail)
    ensures TypeEnd(kind + tail, k) == |kind|
    decreases |kind| - k
  {
    assert (kind + tail)[k..] == kind[k..] + tail;
    if k < |kind| {
      SkipBlankStops(kind[k..], tail);
      TypeEndStops(kind, tail, k + 1);
    } else {
      assert kind[k..] + tail == tail;
    }
  }

  /** Directives as they follow a type, or nothing. */
  predicate AreDirectives(gap: string, directives: string) {
    AllBlank(gap) && (directives == "" ==> gap == "") && (directives != "" ==> directives[0] == '@')
  }

  lemma DirectivesOnly(gap: string, directives: string)
    requires AreDirectives(gap, directives)
    ensures OnlyDirectives(gap + directives)
  {
    if directives != "" {
      SkipGap(gap, directives);
    }
  }

  /** The type is everything between the colon and the directives, whatever it is: a comment behind it, too. */
  lemma TypeIsBeforeDirectives(before: string, after: string, kind: string, gap: string, directives: string)
    requires AllBlank(before) && AllBlank(after) && Solid(kind) && '@' !in kind && AreDirectives(gap, directives)
    ensures KindIn(before + (":" + (after + (kind + (gap + directives))))) == Some(kind)
  {
    var t := kind + (gap + directives);
    ColonThen(before, after, t);
    DirectivesOnly(gap, directives);
    TypeEndStops(kind, gap + directives, 1);
    assert t[..|kind|] == kind;
    TrimIsSame(kind);
  }

  /** parseFieldLine reads a field with directives behind it as if they were not there. */
  lemma DirectivesAreIgnored(d: Decl, l: Layout, gap: string, directives: string)
    requires WellFormed(d) && Fits(d, l) && AreDirectives(gap, directives)
    requires directives != "" && !Space(directives[|directives| - 1])
    ensures FieldIn(FieldText(d, l) + (gap + directives), "") == FieldIn(FieldText(d, l), "")
  {
    FieldIsRead(d, l);
    if d.params == [] {
      PlainWithDirectives(d, l, gap, directives);
    } else {
      ParamsWithDirectives(d, l, gap, directives);
    }
  }

  lemma FieldThenIsSolid(d: Decl, l: Layout, gap: string, directives: string)
    requires WellFormed(d) && Fits(d, l) && directives != "" && !Space(directives[|directives| - 1])
    ensures Solid(FieldText(d, l) + (gap + directives))
  {
    FieldIsSolid(d, l);
    EndsLast(FieldText(d, l), gap, directives);
  }

  lemma KindIsSolid(d: Decl)
    requires WellFormed(d)
    ensures Solid(d.kind) && '@' !in d.kind
  {
    NoSpaceIsSolid(d.kind);
  }

  lemma ResultThen(before: string, afterColon: string, kind: string, more: string)
    ensures (before + (":" + (afterColon + kind))) + more == before + (":" + (afterColon + (kind + more)))
  {
    Assoc(afterColon, kind, more);
    Assoc(":", afterColon + kind, more);
    Assoc(before, ":" + (afterColon + kind), more);
  }

  lemma PlainThen(name: string, gap: string, afterColon: string, kind: string, more: string)
    ensures (name + (gap + (":" + (afterColon + kind)))) + more == name + (gap + (":" + (afterColon + (kind + more))))
  {
    ResultThen(gap, afterColon, kind, more);
    Assoc(name, gap + (":" + (afterColon + kind)), more);
  }

  lemma ReadPlain(d: Decl, l: Layout, result: string)
    requires WellFormed(d) && Fits(d, l) && d.params == [] && StartsWith(result, ':') && KindIn(result) == Some(d.kind)
    requires Solid(d.name + (l.afterName + result))
    ensures FieldIn(d.name + (l.afterName + result), "") == Some(FieldOf(d, l))
  {
    PlainParts(d.name, l.afterName, result);
    FieldFrom(d.name + (l.afterName + result), "", result, d.kind);
    NothingToRead(d, l);
  }

  lemma PlainWithDirectives(d: Decl, l: Layout, gap: string, directives: string)
    requires WellFormed(d) && Fits(d, l) && d.params == [] && AreDirectives(gap, directives)
    requires directives != "" && !Space(directives[|directives| - 1])
    ensures FieldIn(FieldText(d, l) + (gap + directives), "") == Some(FieldOf(d, l))
  {
    var more := gap + directives;
    var result := ":" + (l.afterColon + (d.kind + more));
    KindIsSolid(d);
    FieldThenIsSolid(d, l, gap, directives);
    PlainThen(d.name, l.afterName, l.afterColon, d.kind, more);
    TypeIsBeforeDirectives("", l.afterColon, d.kind, gap, directives);
    assert "" + result == result;
    ReadPlain(d, l, result);
  }

  lemma ParenthesesThen(a: string, b: string, c: string, after: string, more: string)
    ensures (a + (b + ("(" + (c + (")" + after))))) + more == a + (b + ("(" + (c + (")" + (after + more)))))
  {
    Assoc(")", after, more);
    Assoc(c, ")" + after, more);
    Assoc("(", c + (")" + after), more);
    Assoc(b, "(" + (c + (")" + after)), more);
    Assoc(a, b + ("(" + (c + (")" + after))), more);
  }

  lemma ParamsWithDirectives(d: Decl, l: Layout, gap: string, directives: string)
    requires WellFormed(d) && Fits(d, l) && d.params != [] && AreDirectives(gap, directives)
    requires directives != "" && !Space(directives[|directives| - 1])
    ensures FieldIn(FieldText(d, l) + (gap + directives), "") == Some(FieldOf(d, l))
  {
    var more := gap + directives;
    var inner := l.afterOpen + (ParamsText(d.params, l.params, "") + l.beforeClose);
    var after := l.afterClose + ResultText(d, l);
    KindIsSolid(d);
    FieldThenIsSolid(d, l, gap, directives);
    FieldParts(d, l);
    ParenthesesThen(d.name, l.afterName, inner, after, more);
    ResultThen(l.afterClose, l.afterColon, d.kind, more);
    TypeIsBeforeDirectives(l.afterClose, l.afterColon, d.kind, gap, directives);
    ReadWithParams(d, l, inner, after + more);
  }

  lemma ReadWithParams(d: Decl, l: Layout, inner: string, after: string)
    requires WellFormed(d) && Fits(d, l) && d.params != [] && KindIn(after) == Some(d.kind)
    requires inner == l.afterOpen + (ParamsText(d.params, l.params, "") + l.beforeClose)
    requires Solid(d.name + (l.afterName + ("(" + (inner + (")" + after)))))
    ensures FieldIn(d.name + (l.afterName + ("(" + (inner + (")" + after)))), "") == Some(FieldOf(d, l))
  {
    var line := d.name + (l.afterName + ("(" + (inner + (")" + after))));
    GapThen(l.afterName, "(" + (inner + (")" + after)));
    HeadIs(d.name, l.afterName + ("(" + (inner + (")" + after))));
    InnerChars(d, l);
    ParenthesesAreFound(inner, after);
    FieldFrom(line, inner, after, d.kind);
    ArgsAreRead(l.afterOpen, d.params, l.params, l.beforeClose);
  }

  // ---------------------------------------------------------------- Default values

  lemma DefaultFollowsType(t: Type, gap: string, value: string)
    requires WellTyped(t) && AllBlank(gap) && value != ""
    ensures
      var text := TypeText(t) + (gap + ("=" + value));
      IsTypeWithDefault(text) && BeforeDefault(text) == TypeText(t)
  {
    var kind, tail := TypeText(t), gap + ("=" + value);
    TypeIsRead(t);
    TypeIsSolid(t);
    assert gap != "" ==> gap[0] in gap;
    RunIs(kind, tail, TypeChar);
    SkipGap(gap, "=" + value);
    NoEqualSign(kind, gap);
    IndexOfIs(kind + gap, "=" + value, '=');
    Assoc(kind, gap, "=" + value);
    assert "" + (kind + gap) == kind + gap;
    TrimSolid("", kind, gap);
  }

  lemma NoEqualSign(kind: string, gap: string)
    requires (forall c | c in kind :: TypeChar(c)) && AllBlank(gap)
    ensures '=' !in kind + gap
  {
  }

  /** parseOneArg drops the default value of an argument, and keeps its type. */
  lemma DefaultIsDropped(p: Param, g: ParamGaps, gap: string, value: string)
    requires IsWord(p.name) && WellTyped(p.kind) && BlankGaps(g) && AllBlank(gap)
    requires value != "" && !Space(value[|value| - 1])
    ensures ParseOneArg(ParamText(p, g, gap + ("=" + value))) == Some(ArgOf(p))
  {
    var rest := gap + ("=" + value);
    EndsLast(gap, "=", value);
    PairIsSolid(p, g, rest);
    PlainArg(ParamText(p, g, rest));
    TypeIsRead(p.kind);
    StartsLikeType(p.kind, rest);
    NamedArgIs(p.name, g.beforeColon, g.afterColon, TypeText(p.kind) + rest);
    DefaultFollowsType(p.kind, gap, value);
  }

  lemma StartsLikeType(t: Type, rest: string)
    requires StartsSolid(TypeText(t))
    ensures StartsSolid(TypeText(t) + rest)
  {
  }

  // ---------------------------------------------------------------- Descriptions of arguments

  lemma {:induction false} FindFirst(text: string, what: string, more: string)
    requires '"' !in text && (what == QUOTES || what == "\"")
    ensures Find(text + (what + more), what) == Some(|text|)
    ensures (text + (what + more))[..|text|] == text && (text + (what + more))[|text| + |what|..] == more
    decreases |text|
  {
    var s := text + (what + more);
    if text == "" {
      assert s == what + more;
    } else {
      assert s[0] in text && s[1..] == text[1..] + (what + more);
      FindFirst(text[1..], what, more);
    }
  }

  lemma StripTriple(s: string, body: string, end: nat)
    requires QUOTES <= s && s[3..] == body && Find(body, QUOTES) == Some(end)
    ensures StripDescription(s) == (Trim(body[end + 3..]), Trim(body[..end]))
  {
  }

  lemma StripSingle(s: string, body: string, end: nat)
    requires StartsWith(s, '"') && !(QUOTES <= s) && s[1..] == body && Find(body, "\"") == Some(end)
    ensures StripDescription(s) == (Trim(body[end + 1..]), Trim(body[..end]))
  {
  }

  lemma TrimBehind(gap: string, arg: string)
    requires AllBlank(gap) && Solid(arg)
    ensures Trim(gap + arg) == arg
  {
    assert arg + "" == arg;
    TrimSolid(gap, arg, "");
  }

  lemma DescriptionIsStripped(text: string, gap: string, arg: string)
    requires '"' !in text && AllBlank(gap) && Solid(arg)
    ensures StripDescription(QUOTES + (text + (QUOTES + (gap + arg)))) == (arg, Trim(text))
  {
    var body := text + (QUOTES + (gap + arg));
    TrimBehind(gap, arg);
    FindFirst(text, QUOTES, gap + arg);
    assert (QUOTES + body)[3..] == body;
    StripTriple(QUOTES + body, body, |text|);
  }

  lemma QuotedIsStripped(text: string, gap: string, arg: string)
    requires '"' !in text && text != "" && AllBlank(gap) && Solid(arg)
    ensures StripDescription("\"" + (text + ("\"" + (gap + arg)))) == (arg, Trim(text))
  {
    var body := text + ("\"" + (gap + arg));
    TrimBehind(gap, arg);
    FindFirst(text, "\"", gap + arg);
    assert text[0] in text && body[0] == text[0];
    assert ("\"" + body)[1] == body[0] && ("\"" + body)[1..] == body;
    StripSingle("\"" + body, body, |text|);
  }

  lemma DescribedIsSolid(open: string, text: string, gap: string, arg: string)
    requires (open == QUOTES || open == "\"") && Solid(arg)
    ensures Trim(open + (text + (open + (gap + arg)))) == open + (text + (open + (gap + arg)))
  {
    var s := open + (text + (open + (gap + arg)));
    EndsLast(open, gap, arg);
    EndsLast(open, text, open + (gap + arg));
    assert s[0] == '"';
    TrimIsSame(s);
  }

  lemma PartWithDescription(part: string, text: string, arg: string, read: Arg)
    requires Trim(part) == part && StripDescription(part) == (arg, text)
    requires SkipQuoted(arg) == arg && NamedArg(arg, "") == Some(read)
    ensures ParseOneArg(part) == Some(read.(description := text))
  {
    DescriptionIsKept(arg, text, read);
  }

  lemma PlainArgUnwraps(arg: string, read: Arg)
    requires Solid(arg) && WordChar(arg[0]) && ParseOneArg(arg) == Some(read)
    ensures SkipQuoted(arg) == arg && NamedArg(arg, "") == Some(read)
  {
    PlainArg(arg);
    NotQuoted(arg);
  }

  lemma PlainArgIsNamed(p: Param, g: ParamGaps)
    requires IsWord(p.name) && WellTyped(p.kind) && BlankGaps(g)
    ensures var arg := ParamText(p, g, ""); Solid(arg) && SkipQuoted(arg) == arg && NamedArg(arg, "") == Some(ArgOf(p))
  {
    ParamIsSolid(p, g);
    OneArgIsRead(p, g);
    assert p.name[0] in p.name;
    PlainArgUnwraps(ParamText(p, g, ""), ArgOf(p));
  }

  /** parseOneArg takes the description in front of an argument, between three quotes or one. */
  lemma ArgDescriptionIsRead(p: Param, g: ParamGaps, text: string, gap: string)
    requires IsWord(p.name) && WellTyped(p.kind) && BlankGaps(g) && '"' !in text && AllBlank(gap)
    ensures ParseOneArg(QUOTES + (text + (QUOTES + (gap + ParamText(p, g, "")))))
         == Some(ArgOf(p).(description := Trim(text)))
    ensures text != "" ==>
      ParseOneArg("\"" + (text + ("\"" + (gap + ParamText(p, g, ""))))) == Some(ArgOf(p).(description := Trim(text)))
  {
    var arg := ParamText(p, g, "");
    PlainArgIsNamed(p, g);
    DescribedIsSolid(QUOTES, text, gap, arg);
    DescriptionIsStripped(text, gap, arg);
    PartWithDescription(QUOTES + (text + (QUOTES + (gap + arg))), Trim(text), arg, ArgOf(p));
    if text != "" {
      DescribedIsSolid("\"", text, gap, arg);
      QuotedIsStripped(text, gap, arg);
      PartWithDescription("\"" + (text + ("\"" + (gap + arg))), Trim(text), arg, ArgOf(p));
    }
  }

  /** The optional group of the expression: one more description between three quotes is skipped. */
  lemma SecondDescriptionIsSkipped(text: string, gap: string, arg: string)
    requires '"' !in text && AllBlank(gap) && StartsSolid(arg)
    ensures SkipQuoted(QUOTES + (text + (QUOTES + (gap + arg)))) == arg
  {
    var body := text + (QUOTES + (gap + arg));
    assert (QUOTES + body)[3..] == body;
    IndexOfIs(text, QUOTES + (gap + arg), '"');
    assert (QUOTES + (gap + arg))[3..] == gap + arg;
    SkipGap(gap, arg);
  }

  lemma DescriptionIsKept(s: string, description: string, arg: Arg)
    requires NamedArg(s, "") == Some(arg)
    ensures NamedArg(s, description) == Some(arg.(description := description))
  {
  }

  /** What may stand between triple quotes: quotes, but no three of them, and none at the end. */
  predicate IsInner(text: string) {
    || text == ""
    || (text[0] != '"' && IsInner(text[1..]))
    || (|text| > 1 && text[0] == '"' && text[1] != '"' && IsInner(text[2..]))
    || (|text| > 2 && text[0] == text[1] == '"' && text[2] != '"' && IsInner(text[3..]))
  }

  lemma Behind(text: string, n: nat, more: string)
    requires n <= |text|
    ensures (text + more)[n..] == text[n..] + more
  {
  }

  lemma {:induction false} QuotedLengthIs(text: string, more: string)
    requires IsInner(text)
    ensures QuotedLength(text + (QUOTES + more)) == Some(|text|)
    ensures (text + (QUOTES + more))[..|text|] == text && (text + (QUOTES + more))[|text| + 3..] == more
    decreases |text|
  {
    var s := text + (QUOTES + more);
    if text == "" {
      assert s == QUOTES + more;
    } else {
      var n := if text[0] != '"' then 1 else if text[1] != '"' then 2 else 3;
      Behind(text, n, QUOTES + more);
      QuotedLengthIs(text[n..], more);
      NotYet(text, n, more);
    }
  }

  lemma NotYet(text: string, n: nat, more: string)
    requires text != "" && IsInner(text) && n == (if text[0] != '"' then 1 else if text[1] != '"' then 2 else 3)
    requires QuotedLength((text + (QUOTES + more))[n..]) == Some(|text| - n)
    ensures QuotedLength(text + (QUOTES + more)) == Some(|text|)
  {
    var s := text + (QUOTES + more);
    assert s[0] == text[0] && (|text| > 1 ==> s[1] == text[1]) && (|text| > 2 ==> s[2] == text[2]);
  }

  lemma DescribedBy(s: string, body: string, length: nat, after: string, rest: string)
    requires QUOTES <= s && s[3..] == body && QuotedLength(body) == Some(length)
    requires body[length + 3..] == after && after != "" && Blank(after[0]) && SkipBlank(after) == rest
    ensures Described(s) == Some((body[..length], rest))
  {
  }

  lemma DescribedIs(text: string, gap: string, rest: string)
    requires IsInner(text) && gap != "" && AllBlank(gap) && StartsSolid(rest)
    ensures Described(QUOTES + (text + (QUOTES + (gap + rest)))) == Some((text, rest))
  {
    var body := text + (QUOTES + (gap + rest));
    QuotedLengthIs(text, gap + rest);
    assert gap[0] in gap && (QUOTES + body)[3..] == body;
    SkipGap(gap, rest);
    DescribedBy(QUOTES + body, body, |text|, gap + rest, rest);
  }

  /** The regular expression takes a description before an argument, its words joined by single spaces. */
  lemma RegexReadsDescription(p: Param, g: ParamGaps, text: string, gap: string, rest: string)
    requires IsWord(p.name) && WellTyped(p.kind) && BlankGaps(g) && TypeEnds(rest) && OneLayer(p.kind)
    requires IsInner(text) && gap != "" && AllBlank(gap)
    ensures ArgAt(QUOTES + (text + (QUOTES + (gap + ParamText(p, g, rest)))))
         == Some((ArgOf(p).(description := Spaced(Words(Trim(text)))), rest))
  {
    NamedTypeOfParam(p, g, rest);
    TypeBang(p.kind);
    ParamStarts(p, g, rest);
    WordsAreTaken(text, gap, ParamText(p, g, rest), p.name, TypeText(p.kind), rest);
  }

  lemma ParamStarts(p: Param, g: ParamGaps, rest: string)
    requires IsWord(p.name)
    ensures StartsSolid(ParamText(p, g, rest))
  {
    assert p.name[0] in p.name;
  }

  lemma WordsAreTaken(text: string, gap: string, arg: string, name: string, kind: string, rest: string)
    requires IsInner(text) && gap != "" && AllBlank(gap) && StartsSolid(arg)
    requires NamedType(arg) == Some((name, kind, rest))
    ensures ArgAt(QUOTES + (text + (QUOTES + (gap + arg))))
         == Some((Arg(name, kind, Spaced(Words(Trim(text))), EndsWith(kind, "!")), rest))
  {
    DescribedIs(text, gap, arg);
    DescribedArg(QUOTES + (text + (QUOTES + (gap + arg))), text, arg, name, kind, rest);
  }

  lemma DescribedArg(s: string, text: string, arg: string, name: string, kind: string, rest: string)
    requires Described(s) == Some((text, arg)) && NamedType(arg) == Some((name, kind, rest))
    ensures |rest| < |s|
    ensures ArgAt(s) == Some((Arg(name, kind, Spaced(Words(Trim(text))), EndsWith(kind, "!")), rest))
  {
  }

  // ---------------------------------------------------------------- The words of a description

  lemma {:induction false} WordsSkipGap(gap: string, s: string)
    requires forall c | c in gap :: Space(c)
    ensures Words(gap + s) == Words(s)
  {
    TrimLeftSpaces(gap, s);
  }

  lemma {:induction false} TrimLeftSpaces(gap: string, s: string)
    requires forall c | c in gap :: Space(c)
    ensures TrimLeft(gap + s) == TrimLeft(s)
    decreases |gap|
  {
    if gap == "" {
      assert gap + s == s;
    } else {
      assert gap[0] in gap && (gap + s)[1..] == gap[1..] + s;
      TrimLeftSpaces(gap[1..], s);
    }
  }

  /** The words are what stands between white space. */
  lemma WordsAreSeparated(word: string, gap: string, s: string)
    requires word != "" && forall c | c in word :: !Space(c)
    requires (forall c | c in gap :: Space(c)) && (gap == "" ==> s == "")
    ensures Words(word + (gap + s)) == [word] + Words(s) && Words("") == []
  {
    assert word[0] in word;
    assert gap != "" ==> gap[0] in gap;
    RunIs(word, gap + s, c => !Space(c));
    assert TrimLeft(word + (gap + s)) == word + (gap + s);
    WordsSkipGap(gap, s);
  }
}
