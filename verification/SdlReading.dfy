/** The parser reads a joined field definition whatever the gaps between its tokens are. */
module SdlReading {
  import opened Prelude
  import opened SdlText
  import opened SdlScanner
  import opened SdlFields
  import opened SdlLayout

  // ---------------------------------------------------------------- Names, colons and types

  /** Not preceded by a word, `s` would be. */
  predicate EndsWord(s: string) { s == "" || !WordChar(s[0]) }

  lemma HeadIs(word: string, rest: string)
    requires IsWord(word) && EndsWord(rest)
    ensures Head(word + rest) == word && Tail(word + rest) == rest
  {
    RunIs(word, rest, WordChar);
  }

  lemma GapThen(gap: string, rest: string)
    requires AllBlank(gap) && rest != "" && !WordChar(rest[0]) && !Blank(rest[0])
    ensures EndsWord(gap + rest) && SkipBlank(gap + rest) == rest
  {
    assert gap != "" ==> gap[0] in gap;
    SkipGap(gap, rest);
  }

  /** A name, a colon and what follows, with gaps around the colon. */
  lemma NameColon(name: string, gap: string, gap2: string, rest: string)
    requires IsWord(name) && AllBlank(gap) && AllBlank(gap2) && StartsSolid(rest)
    ensures
      var colon := ":" + (gap2 + rest);
      var s := name + (gap + colon);
      && Head(s) == name && SkipBlank(Tail(s)) == colon
      && StartsWith(colon, ':') && SkipBlank(colon[1..]) == rest
  {
    var colon := ":" + (gap2 + rest);
    GapThen(gap, colon);
    HeadIs(name, gap + colon);
    assert colon[1..] == gap2 + rest;
    SkipGap(gap2, rest);
  }

  lemma NotQuoted(s: string)
    requires s != "" && s[0] != '"'
    ensures !(QUOTES <= s) && !StartsWith(s, '"')
  {
  }

  // ---------------------------------------------------------------- parseOneArg

  lemma TypeHasNoDefault(kind: string)
    requires kind != "" && forall c | c in kind :: TypeChar(c)
    ensures IsTypeWithDefault(kind) && BeforeDefault(kind) == kind
  {
    assert kind + "" == kind;
    RunIs(kind, "", TypeChar);
    BeforeIndex(kind, '=');
  }

  lemma ParamIsSolid(p: Param, g: ParamGaps)
    requires IsWord(p.name) && WellTyped(p.kind)
    ensures Solid(ParamText(p, g, "")) && ParamText(p, g, "")[0] == p.name[0]
  {
    NoSpaceIsSolid(p.name);
    TypeIsSolid(p.kind);
    EndsLast(":", g.afterColon, TypeText(p.kind) + "");
    EndsLast(p.name, g.beforeColon, ":" + (g.afterColon + (TypeText(p.kind) + "")));
  }

  lemma EndsLast(a: string, b: string, c: string)
    requires c != ""
    ensures (a + (b + c))[|a + (b + c)| - 1] == c[|c| - 1]
  {
  }

  lemma TrimIsSame(s: string)
    requires Solid(s)
    ensures Trim(s) == s
  {
    assert "" + (s + "") == s;
    TrimSolid("", s, "");
  }

  lemma PlainArg(s: string)
    requires Solid(s) && WordChar(s[0])
    ensures ParseOneArg(s) == NamedArg(s, "")
  {
    TrimIsSame(s);
    NotQuoted(s);
  }

  lemma NamedArgIs(name: string, gap: string, gap2: string, t: string)
    requires IsWord(name) && AllBlank(gap) && AllBlank(gap2) && StartsSolid(t)
    ensures NamedArg(name + (gap + (":" + (gap2 + t))), "") ==
      if IsTypeWithDefault(t) then Some(Arg(name, BeforeDefault(t), "", EndsWith(BeforeDefault(t), "!"))) else None
  {
    NameColon(name, gap, gap2, t);
  }

  lemma TypeIsRead(t: Type)
    requires WellTyped(t)
    ensures IsTypeWithDefault(TypeText(t)) && BeforeDefault(TypeText(t)) == TypeText(t)
    ensures EndsWith(TypeText(t), "!") == t.NonNull? && StartsSolid(TypeText(t))
    ensures forall c | c in TypeText(t) :: TypeChar(c)
  {
    TypeChars(t);
    TypeBang(t);
    TypeIsSolid(t);
    TypeHasNoDefault(TypeText(t));
  }

  lemma OneArgIsRead(p: Param, g: ParamGaps)
    requires IsWord(p.name) && WellTyped(p.kind) && BlankGaps(g)
    ensures ParseOneArg(ParamText(p, g, "")) == Some(ArgOf(p))
  {
    TypeIsRead(p.kind);
    ParamIsSolid(p, g);
    assert p.name[0] in p.name;
    PlainArg(ParamText(p, g, ""));
    NamedArgIs(p.name, g.beforeColon, g.afterColon, TypeText(p.kind));
    assert TypeText(p.kind) + "" == TypeText(p.kind);
  }

  lemma TypeThenTextIsNoMatch(kind: string, gap: string, more: string)
    requires (forall c | c in kind :: TypeChar(c)) && gap != "" && AllBlank(gap) && StartsSolid(more) && more[0] != '='
    ensures !IsTypeWithDefault(kind + (gap + more))
  {
    assert gap[0] in gap;
    RunIs(kind, gap + more, TypeChar);
    SkipGap(gap, more);
  }

  /** Parameters with only white space between them are not one parameter. */
  lemma UnseparatedPairIsRejected(p: Param, g: ParamGaps, gap: string, more: string)
    requires IsWord(p.name) && WellTyped(p.kind) && BlankGaps(g)
    requires gap != "" && AllBlank(gap) && Solid(more) && more[0] != '='
    ensures ParseOneArg(ParamText(p, g, gap + more)) == None
  {
    var kind := TypeText(p.kind);
    PairIsSolid(p, g, gap + more);
    PlainArg(ParamText(p, g, gap + more));
    TypeIsRead(p.kind);
    NamedArgIs(p.name, g.beforeColon, g.afterColon, kind + (gap + more));
    TypeThenTextIsNoMatch(kind, gap, more);
  }

  lemma PairIsSolid(p: Param, g: ParamGaps, rest: string)
    requires IsWord(p.name) && rest != "" && !Space(rest[|rest| - 1])
    ensures Solid(ParamText(p, g, rest)) && WordChar(ParamText(p, g, rest)[0])
  {
    assert p.name[0] in p.name;
    EndsLast(":", g.afterColon, TypeText(p.kind) + rest);
    EndsLast(p.name, g.beforeColon, ":" + (g.afterColon + (TypeText(p.kind) + rest)));
  }

  // ---------------------------------------------------------------- The comma-separated list

  lemma {:induction false} NoCommaIsFlat(s: string)
    requires ',' !in s
    ensures NoTopComma(s)
  {
  }

  predicate NoParens(s: string) { '(' !in s && ')' !in s }

  lemma ParamChars(p: Param, g: ParamGaps)
    requires IsWord(p.name) && WellTyped(p.kind) && BlankGaps(g)
    ensures NoParens(ParamText(p, g, "")) && ',' !in ParamText(p, g, "")
  {
    TypeChars(p.kind);
  }

  lemma ParamNesting(p: Param, g: ParamGaps)
    requires IsWord(p.name) && WellTyped(p.kind) && BlankGaps(g)
    ensures Nesting(ParamText(p, g, "")) == 0
  {
    var kind := TypeText(p.kind);
    TypeNesting(p.kind);
    assert kind + "" == kind;
    NestingOfConcat(g.afterColon, kind);
    NestingOfConcat(":", g.afterColon + kind);
    NestingOfConcat(g.beforeColon, ":" + (g.afterColon + kind));
    NestingOfConcat(p.name, g.beforeColon + (":" + (g.afterColon + kind)));
    NameNesting(p.name);
    BlankIsFlat(g.beforeColon);
    BlankIsFlat(g.afterColon);
  }

  lemma NameNesting(name: string)
    requires IsWord(name)
    ensures Nesting(name) == 0 && Nesting(":") == 0
  {
    FlatNesting(name);
    FlatNesting(":");
  }

  lemma ParamThen(p: Param, g: ParamGaps, rest: string)
    ensures ParamText(p, g, rest) == ParamText(p, g, "") + rest
  {
    var kind := TypeText(p.kind);
    Assoc(g.afterColon, kind, rest);
    Assoc(":", g.afterColon + kind, rest);
    Assoc(g.beforeColon, ":" + (g.afterColon + kind), rest);
    Assoc(p.name, g.beforeColon + (":" + (g.afterColon + kind)), rest);
    assert kind + "" == kind;
  }

  /** One part of the split list: a parameter with white space around it. */
  lemma PartIsRead(before: string, p: Param, g: ParamGaps, after: string)
    requires IsWord(p.name) && WellTyped(p.kind) && BlankGaps(g) && AllBlank(before) && AllBlank(after)
    ensures ArgsOfPart(before + (ParamText(p, g, "") + after)) == [ArgOf(p)]
  {
    ParamIsSolid(p, g);
    TrimSolid(before, ParamText(p, g, ""), after);
    OneArgIsRead(p, g);
  }

  /** No comma and no open bracket: what follows is in the same part of the list. */
  ghost predicate Flat(s: string) { ',' !in s && Nesting(s) == 0 }

  lemma JoinFlat(s: string, t: string)
    requires Flat(s) && Flat(t)
    ensures Flat(s + t) && NoTopComma(s + t)
  {
    NestingOfConcat(s, t);
    NoCommaIsFlat(s + t);
  }

  lemma BlankIsFlat(gap: string)
    requires AllBlank(gap)
    ensures Flat(gap)
  {
    FlatNesting(gap);
  }

  lemma ParamIsFlat(p: Param, g: ParamGaps, gap: string)
    requires IsWord(p.name) && WellTyped(p.kind) && BlankGaps(g) && AllBlank(gap)
    ensures Flat(ParamText(p, g, gap))
  {
    ParamNesting(p, g);
    ParamChars(p, g);
    BlankIsFlat(gap);
    JoinFlat(ParamText(p, g, ""), gap);
    ParamThen(p, g, gap);
  }

  /** Whatever comes next in the same part of the list, the part is rejected. */
  ghost predicate Doomed(front: string) {
    forall s, after | Solid(s) && WordChar(s[0]) && AllBlank(after) :: ArgsOfPart(front + (s + after)) == []
  }

  /** The start of a part before a parameter: nothing yet, or a doomed text. */
  ghost predicate Front(front: string, first: bool) {
    Flat(front) && if first then AllBlank(front) else Doomed(front)
  }

  lemma PartIsRejected(before: string, p: Param, g: ParamGaps, gap: string, s: string, after: string)
    requires IsWord(p.name) && WellTyped(p.kind) && BlankGaps(g) && AllBlank(before) && AllBlank(after)
    requires gap != "" && AllBlank(gap) && Solid(s) && s[0] != '='
    ensures ArgsOfPart(before + (ParamText(p, g, gap + s) + after)) == []
  {
    PairIsSolid(p, g, gap + s);
    TrimSolid(before, ParamText(p, g, gap + s), after);
    UnseparatedPairIsRejected(p, g, gap, s);
  }

  lemma ParamThenSolid(p: Param, g: ParamGaps, gap: string, s: string, after: string, front: string)
    ensures (front + ParamText(p, g, gap)) + (s + after) == front + (ParamText(p, g, gap + s) + after)
  {
    ParamThen(p, g, gap);
    ParamThen(p, g, gap + s);
    var text := ParamText(p, g, "");
    Assoc(text, gap, s);
    Assoc(text + gap, s, after);
    Assoc(front, text + gap, s + after);
  }

  /** After a parameter and a gap without a comma, the part is doomed. */
  lemma GapDooms(front: string, first: bool, p: Param, g: ParamGaps)
    requires IsWord(p.name) && WellTyped(p.kind) && BlankGaps(g) && g.afterType != "" && Front(front, first)
    ensures Front(front + ParamText(p, g, g.afterType), false)
  {
    ParamIsFlat(p, g, g.afterType);
    JoinFlat(front, ParamText(p, g, g.afterType));
    forall s, after | Solid(s) && WordChar(s[0]) && AllBlank(after)
      ensures ArgsOfPart((front + ParamText(p, g, g.afterType)) + (s + after)) == []
    {
      ParamThenSolid(p, g, g.afterType, s, after, front);
      if first {
        PartIsRejected(front, p, g, g.afterType, s, after);
      } else {
        PairIsSolid(p, g, g.afterType + s);
        assert ArgsOfPart(front + (ParamText(p, g, g.afterType + s) + after)) == [];
      }
    }
  }

  lemma ArgsOfMore(part: string, parts: seq<string>)
    ensures ArgsOf([part] + parts) == ArgsOfPart(part) + ArgsOf(parts)
  {
    assert ([part] + parts)[1..] == parts;
  }

  /** The last parameter of a part. */
  lemma PartEnds(front: string, first: bool, p: Param, g: ParamGaps, after: string)
    requires IsWord(p.name) && WellTyped(p.kind) && BlankGaps(g) && Front(front, first) && AllBlank(after)
    ensures Flat(front + (ParamText(p, g, "") + after))
    ensures ArgsOfPart(front + (ParamText(p, g, "") + after)) == if first then [ArgOf(p)] else []
  {
    ParamIsFlat(p, g, "");
    BlankIsFlat(after);
    JoinFlat(ParamText(p, g, ""), after);
    JoinFlat(front, ParamText(p, g, "") + after);
    if first {
      PartIsRead(front, p, g, after);
    } else {
      ParamIsSolid(p, g);
      assert p.name[0] in p.name;
    }
  }

  lemma FlatIsOnePart(part: string)
    requires Flat(part)
    ensures ArgsOf(Parts(part)) == ArgsOfPart(part)
  {
    NoCommaIsFlat(part);
    PartsOfOne(part);
    ArgsOfMore(part, []);
    assert [part] + [] == [part] && ArgsOfPart(part) + [] == ArgsOfPart(part);
  }

  lemma FlatThenComma(part: string, more: string)
    requires Flat(part)
    ensures ArgsOf(Parts(part + ("," + more))) == ArgsOfPart(part) + ArgsOf(Parts(more))
  {
    NoCommaIsFlat(part);
    PartsOfMore(part, more);
    ArgsOfMore(part, Parts(more));
  }

  lemma LastPartIsRead(front: string, first: bool, p: Param, g: ParamGaps)
    requires IsWord(p.name) && WellTyped(p.kind) && BlankGaps(g) && Front(front, first)
    ensures ArgsOf(Parts(front + ParamText(p, g, ""))) == if first then [ArgOf(p)] else []
  {
    PartEnds(front, first, p, g, "");
    assert ParamText(p, g, "") + "" == ParamText(p, g, "");
    FlatIsOnePart(front + ParamText(p, g, ""));
  }

  lemma NextPartIsRead(front: string, first: bool, p: Param, g: ParamGaps, more: string)
    requires IsWord(p.name) && WellTyped(p.kind) && BlankGaps(g) && Front(front, first) && g.comma
    ensures ArgsOf(Parts(front + ParamText(p, g, Separated(g, more)))) ==
            (if first then [ArgOf(p)] else []) + ArgsOf(Parts(g.afterComma + more))
  {
    PartEnds(front, first, p, g, g.afterType);
    ParamThen(p, g, Separated(g, more));
    CommaRegroup(front, ParamText(p, g, ""), g, more);
    FlatThenComma(front + (ParamText(p, g, "") + g.afterType), g.afterComma + more);
  }

  lemma GapGoesOn(front: string, p: Param, g: ParamGaps, more: string)
    requires !g.comma
    ensures front + ParamText(p, g, Separated(g, more)) == (front + ParamText(p, g, g.afterType)) + more
  {
    var text := ParamText(p, g, "");
    ParamThen(p, g, g.afterType + more);
    ParamThen(p, g, g.afterType);
    Assoc(text, g.afterType, more);
    Assoc(front, text + g.afterType, more);
  }

  /** The comma-separated parts are read exactly where they hold one parameter. */
  lemma {:induction false} LoneArgsAreRead(front: string, first: bool, ps: seq<Param>, gs: seq<ParamGaps>)
    requires |ps| == |gs| && ps != [] && ParamsFit(gs) && Front(front, first)
    requires forall p | p in ps :: IsWord(p.name) && WellTyped(p.kind)
    ensures ArgsOf(Parts(front + ParamsText(ps, gs, ""))) == LoneArgs(ps, gs, first)
    decreases |ps|
  {
    var p, g := ps[0], gs[0];
    if |ps| == 1 {
      LastPartIsRead(front, first, p, g);
      assert LoneArgs(ps[1..], gs[1..], g.comma) == [];
    } else {
      var more := ParamsText(ps[1..], gs[1..], "");
      if g.comma {
        BlankIsFlat(g.afterComma);
        LoneArgsAreRead(g.afterComma, true, ps[1..], gs[1..]);
        NextPartIsRead(front, first, p, g, more);
      } else {
        GapDooms(front, first, p, g);
        GapGoesOn(front, p, g, more);
        LoneArgsAreRead(front + ParamText(p, g, g.afterType), false, ps[1..], gs[1..]);
      }
    }
  }

  lemma CommaRegroup(before: string, s: string, g: ParamGaps, more: string)
    requires g.comma
    ensures before + (s + Separated(g, more)) == (before + (s + g.afterType)) + ("," + (g.afterComma + more))
  {
    var tail := "," + (g.afterComma + more);
    Assoc(s, g.afterType, tail);
    Assoc(before, s + g.afterType, tail);
  }

  // ---------------------------------------------------------------- The list without commas

  lemma ArgAtNothing(s: string)
    requires s != "" && !WordChar(s[0]) && s[0] != '"'
    ensures ParseArgsRegex(s) == ParseArgsRegex(s[1..])
  {
    NotQuoted(s);
    assert "" + s == s;
  }

  lemma {:induction false} RegexSkipsGap(gap: string, rest: string)
    requires AllBlank(gap)
    ensures ParseArgsRegex(gap + rest) == ParseArgsRegex(rest)
    decreases |gap|
  {
    if gap == "" {
      assert gap + rest == rest;
    } else {
      assert gap[0] in gap && (gap + rest)[1..] == gap[1..] + rest;
      ArgAtNothing(gap + rest);
      RegexSkipsGap(gap[1..], rest);
    }
  }

  /** Nothing starts inside a word that no colon follows. */
  lemma {:induction false} RegexSkipsWord(word: string, rest: string)
    requires (forall c | c in word :: WordChar(c)) && EndsWord(rest) && !StartsWith(SkipBlank(rest), ':')
    ensures ParseArgsRegex(word + rest) == ParseArgsRegex(rest)
    decreases |word|
  {
    if word == "" {
      assert word + rest == rest;
    } else {
      assert word[0] in word && (word + rest)[1..] == word[1..] + rest;
      NotQuoted(word + rest);
      HeadIs(word, rest);
      RegexSkipsWord(word[1..], rest);
    }
  }

  lemma RegexSkipsMark(mark: char, rest: string)
    requires mark == '[' || mark == ']' || mark == '!' || mark == ':' || mark == ','
    ensures ParseArgsRegex([mark] + rest) == ParseArgsRegex(rest)
    ensures EndsWord([mark] + rest) && SkipBlank([mark] + rest) == [mark] + rest
  {
    ArgAtNothing([mark] + rest);
    assert ([mark] + rest)[1..] == rest;
  }

  /** Nothing starts inside a type. */
  lemma {:induction false} RegexSkipsType(t: Type, rest: string)
    requires WellTyped(t) && EndsWord(rest) && !StartsWith(SkipBlank(rest), ':')
    ensures ParseArgsRegex(TypeText(t) + rest) == ParseArgsRegex(rest)
    decreases t
  {
    match t
    case Named(name) =>
      RegexSkipsWord(name, rest);
    case ListOf(inner) =>
      ListRegroup(TypeText(inner), rest);
      RegexSkipsMark('[', TypeText(inner) + ("]" + rest));
      RegexSkipsMark(']', rest);
      RegexSkipsType(inner, "]" + rest);
    case NonNull(inner) =>
      Assoc(TypeText(inner), "!", rest);
      RegexSkipsMark('!', rest);
      RegexSkipsType(inner, "!" + rest);
  }

  lemma ListRegroup(s: string, rest: string)
    ensures ("[" + (s + "]")) + rest == "[" + (s + ("]" + rest))
  {
  }

  predicate TypeEnds(rest: string) { rest == "" || Blank(rest[0]) || rest[0] == ',' }

  function Bang(bang: bool): string { if bang then "!" else "" }

  lemma SuffixOfName(bang: bool, rest: string)
    requires TypeEnds(rest)
    ensures SuffixLength(Bang(bang) + rest) == |Bang(bang)|
    ensures EndsWord(Bang(bang) + rest)
  {
    var s := Bang(bang) + rest;
    if bang {
      assert s[0] == '!' && s[1..] == rest;
      assert rest[0..] == rest;
    } else {
      assert s == rest && s[0..] == s;
    }
  }

  lemma CloseThenBang(outer: bool, rest: string)
    requires TypeEnds(rest)
    ensures SuffixLength("]" + (Bang(outer) + rest)) == 1 + |Bang(outer)|
    ensures One(Bang(outer) + rest, '!') == |Bang(outer)|
  {
    var s := "]" + (Bang(outer) + rest);
    assert "" + rest == rest;
    assert s[0..] == s && s[1..] == Bang(outer) + rest;
  }

  lemma SuffixOfList(inner: bool, outer: bool, rest: string)
    requires TypeEnds(rest)
    ensures SuffixLength(Bang(inner) + ("]" + (Bang(outer) + rest))) == |Bang(inner)| + 1 + |Bang(outer)|
    ensures EndsWord(Bang(inner) + ("]" + (Bang(outer) + rest)))
  {
    CloseThenBang(outer, rest);
    var close := "]" + (Bang(outer) + rest);
    if inner {
      var s := "!" + close;
      assert s[1..] == close && s[2..] == Bang(outer) + rest;
    } else {
      assert "" + close == close;
    }
  }

  lemma BaseThenBang(t: Type, rest: string)
    ensures TypeText(t) + rest == TypeText(Base(t)) + (Bang(t.NonNull?) + rest)
    ensures TypeText(t) == TypeText(Base(t)) + Bang(t.NonNull?)
  {
    Assoc(TypeText(Base(t)), Bang(t.NonNull?), rest);
  }

  /** `\[?\w+!?\]?!?` matches the whole of a type with at most one list layer, and nothing of another. */
  lemma TypeMatches(t: Type, rest: string)
    requires WellTyped(t) && TypeEnds(rest)
    ensures TypeLength(TypeText(t) + rest) == if OneLayer(t) then |TypeText(t)| else 0
  {
    BaseThenBang(t, rest);
    if Base(t).Named? {
      NamedMatches(Base(t).name, t.NonNull?, rest);
    } else {
      ListRegroup(TypeText(Base(t).inner), Bang(t.NonNull?) + rest);
      ListMatches(Base(t).inner, t.NonNull?, rest);
    }
  }

  lemma NamedMatches(name: string, bang: bool, rest: string)
    requires IsWord(name) && TypeEnds(rest)
    ensures TypeLength(name + (Bang(bang) + rest)) == |name| + |Bang(bang)|
  {
    SuffixOfName(bang, rest);
    JustName(name, Bang(bang) + rest);
  }

  lemma JustName(name: string, close: string)
    requires IsWord(name) && EndsWord(close)
    ensures TypeLength(name + close) == |name| + SuffixLength(close)
  {
    var s := name + close;
    assert name[0] in name && s[0] == name[0] && s[0..] == s;
    RunIs(name, close, WordChar);
  }

  lemma ListOfName(name: string, close: string)
    requires IsWord(name) && EndsWord(close)
    ensures TypeLength("[" + (name + close)) == 1 + |name| + SuffixLength(close)
  {
    var s := "[" + (name + close);
    assert s[1..] == name + close;
    RunIs(name, close, WordChar);
  }

  lemma ListOfList(s: string)
    requires StartsWith(s, '[')
    ensures TypeLength("[" + s) == 0
  {
    assert ("[" + s)[1..] == s;
  }

  lemma ListMatches(t: Type, bang: bool, rest: string)
    requires WellTyped(t) && TypeEnds(rest)
    ensures TypeLength("[" + (TypeText(t) + ("]" + (Bang(bang) + rest)))) ==
      if Base(t).Named? then 1 + |TypeText(t)| + 1 + |Bang(bang)| else 0
  {
    var end := "]" + (Bang(bang) + rest);
    BaseThenBang(t, end);
    if Base(t).Named? {
      SuffixOfList(t.NonNull?, bang, rest);
      ListOfName(Base(t).name, Bang(t.NonNull?) + end);
    } else {
      ListOfList(TypeText(t) + end);
    }
  }

  // ---------------------------------------------------------------- parseArgsRegex on a whole list

  lemma NamedTypeIs(name: string, gap: string, gap2: string, t: string)
    requires IsWord(name) && AllBlank(gap) && AllBlank(gap2) && StartsSolid(t)
    ensures NamedType(name + (gap + (":" + (gap2 + t)))) ==
      if TypeLength(t) == 0 then None else Some((name, t[..TypeLength(t)], t[TypeLength(t)..]))
  {
    NameColon(name, gap, gap2, t);
  }

  lemma PlainArgAt(s: string)
    requires s != "" && s[0] != '"'
    ensures ArgAt(s) ==
      if NamedType(s).None? then None
      else
        var (name, kind, after) := NamedType(s).value;
        Some((Arg(name, kind, "", EndsWith(kind, "!")), after))
  {
    NotQuoted(s);
    assert Spaced(Words(Trim(""))) == "";
  }

  lemma NamedTypeOfParam(p: Param, g: ParamGaps, rest: string)
    requires IsWord(p.name) && WellTyped(p.kind) && BlankGaps(g) && TypeEnds(rest) && OneLayer(p.kind)
    ensures NamedType(ParamText(p, g, rest)) == Some((p.name, TypeText(p.kind), rest))
  {
    var kind := TypeText(p.kind);
    TypeIsSolid(p.kind);
    TypeMatches(p.kind, rest);
    NamedTypeIs(p.name, g.beforeColon, g.afterColon, kind + rest);
    assert (kind + rest)[..|kind|] == kind && (kind + rest)[|kind|..] == rest;
  }

  lemma ParamArgAt(p: Param, g: ParamGaps, rest: string)
    requires IsWord(p.name) && WellTyped(p.kind) && BlankGaps(g) && TypeEnds(rest) && OneLayer(p.kind)
    ensures ArgAt(ParamText(p, g, rest)) == Some((ArgOf(p), rest))
  {
    NamedTypeOfParam(p, g, rest);
    TypeBang(p.kind);
    assert p.name[0] in p.name;
    PlainArgAt(ParamText(p, g, rest));
  }

  lemma RegexReadsParam(p: Param, g: ParamGaps, rest: string)
    requires IsWord(p.name) && WellTyped(p.kind) && BlankGaps(g) && TypeEnds(rest) && OneLayer(p.kind)
    ensures ParseArgsRegex(ParamText(p, g, rest)) == [ArgOf(p)] + ParseArgsRegex(rest)
  {
    ParamArgAt(p, g, rest);
  }

  lemma RegexMissesParam(p: Param, g: ParamGaps, rest: string)
    requires IsWord(p.name) && WellTyped(p.kind) && BlankGaps(g) && TypeEnds(rest) && !OneLayer(p.kind)
    requires !StartsWith(SkipBlank(rest), ':')
    ensures ParseArgsRegex(ParamText(p, g, rest)) == ParseArgsRegex(rest)
  {
    RegexMissesName(p.name, p.kind, g, rest);
    RegexSkipsColonAndType(p.kind, g, rest);
  }

  lemma RegexSkipsColonAndType(t: Type, g: ParamGaps, rest: string)
    requires WellTyped(t) && BlankGaps(g) && TypeEnds(rest) && !StartsWith(SkipBlank(rest), ':')
    ensures ParseArgsRegex(g.beforeColon + (":" + (g.afterColon + (TypeText(t) + rest)))) == ParseArgsRegex(rest)
  {
    var text := TypeText(t) + rest;
    RegexSkipsType(t, rest);
    RegexSkipsGap(g.afterColon, text);
    RegexSkipsMark(':', g.afterColon + text);
    RegexSkipsGap(g.beforeColon, ":" + (g.afterColon + text));
  }

  lemma NoMatchHere(s: string)
    requires s != "" && s[0] != '"' && NamedType(s).None?
    ensures ParseArgsRegex(s) == ParseArgsRegex(s[1..])
  {
    PlainArgAt(s);
  }

  lemma NameIsNoMatch(word: string, t: Type, g: ParamGaps, rest: string)
    requires IsWord(word) && WellTyped(t) && BlankGaps(g) && TypeEnds(rest) && !OneLayer(t)
    ensures NamedType(word + (g.beforeColon + (":" + (g.afterColon + (TypeText(t) + rest))))).None?
  {
    TypeIsSolid(t);
    TypeMatches(t, rest);
    NamedTypeIs(word, g.beforeColon, g.afterColon, TypeText(t) + rest);
  }

  /** No part of the name can start a match, because the type cannot follow. */
  lemma {:induction false} RegexMissesName(word: string, t: Type, g: ParamGaps, rest: string)
    requires (forall c | c in word :: WordChar(c)) && WellTyped(t) && BlankGaps(g) && TypeEnds(rest) && !OneLayer(t)
    ensures
      var s := g.beforeColon + (":" + (g.afterColon + (TypeText(t) + rest)));
      ParseArgsRegex(word + s) == ParseArgsRegex(s)
    decreases |word|
  {
    var s := g.beforeColon + (":" + (g.afterColon + (TypeText(t) + rest)));
    if word == "" {
      assert word + s == s;
    } else {
      assert word[0] in word && (word + s)[1..] == word[1..] + s;
      NameIsNoMatch(word, t, g, rest);
      NoMatchHere(word + s);
      RegexMissesName(word[1..], t, g, rest);
    }
  }

  /** What separates two parameters is skipped. */
  lemma RegexSkipsSeparator(g: ParamGaps, more: string)
    requires BlankGaps(g)
    ensures ParseArgsRegex(Separated(g, more)) == ParseArgsRegex(more)
  {
    if g.comma {
      RegexSkipsGap(g.afterType, "," + (g.afterComma + more));
      assert "," + (g.afterComma + more) == [','] + (g.afterComma + more);
      RegexSkipsMark(',', g.afterComma + more);
      RegexSkipsGap(g.afterComma, more);
    } else {
      RegexSkipsGap(g.afterType, more);
    }
  }

  /** No type goes on into it. */
  lemma SeparatorEndsType(g: ParamGaps, more: string)
    requires BlankGaps(g) && (g.comma || g.afterType != "") && more != "" && WordChar(more[0])
    ensures TypeEnds(Separated(g, more)) && !StartsWith(SkipBlank(Separated(g, more)), ':')
  {
    GapEndsType(g.afterType, if g.comma then "," + (g.afterComma + more) else more);
  }

  lemma GapEndsType(gap: string, rest: string)
    requires AllBlank(gap) && rest != "" && (rest[0] == ',' || (gap != "" && WordChar(rest[0])))
    ensures TypeEnds(gap + rest) && !StartsWith(SkipBlank(gap + rest), ':')
  {
    assert gap != "" ==> gap[0] in gap && (gap + rest)[0] == gap[0];
    SkipGap(gap, rest);
  }

  /** The regular expression takes no notice of commas. */
  lemma {:induction false} RegexReadsList(ps: seq<Param>, gs: seq<ParamGaps>)
    requires |ps| == |gs| && ps != [] && ParamsFit(gs)
    requires forall p | p in ps :: IsWord(p.name) && WellTyped(p.kind)
    ensures ParseArgsRegex(ParamsText(ps, gs, "")) == OneLayerArgs(ps)
    decreases |ps|
  {
    var p, g := ps[0], gs[0];
    var rest := "";
    if |ps| > 1 {
      var more := ParamsText(ps[1..], gs[1..], "");
      rest := Separated(g, more);
      RegexReadsList(ps[1..], gs[1..]);
      assert ps[1].name[0] in ps[1].name;
      RegexSkipsSeparator(g, more);
      SeparatorEndsType(g, more);
    }
    if OneLayer(p.kind) {
      RegexReadsParam(p, g, rest);
    } else {
      RegexMissesParam(p, g, rest);
    }
  }
}
