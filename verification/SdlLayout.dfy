/**
 * How field definitions may be laid out over lines, and that the layout does not change what the
 * SDL parser reads (sections 3.6 and 3.6.1 of the GraphQL specification, October 2021): fields
 * without descriptions, directives or default values.
 */
module SdlLayout {
  import opened Prelude
  import opened SdlText
  import opened SdlScanner
  import opened SdlFields

  // ---------------------------------------------------------------- Definitions and their layouts

  datatype Type = Named(name: string) | ListOf(inner: Type) | NonNull(inner: Type)

  datatype Param = Param(name: string, kind: Type)

  /** A field; its result type is any text without white space, parentheses or '@'. */
  datatype Decl = Decl(name: string, params: seq<Param>, kind: string)

  function TypeText(t: Type): string {
    match t
    case Named(name) => name
    case ListOf(inner) => "[" + (TypeText(inner) + "]")
    case NonNull(inner) => TypeText(inner) + "!"
  }

  predicate WellTyped(t: Type) {
    match t
    case Named(name) => IsWord(name)
    case ListOf(inner) => WellTyped(inner)
    case NonNull(inner) => WellTyped(inner) && !inner.NonNull?
  }

  predicate WellFormed(d: Decl) {
    && IsWord(d.name)
    && (forall p | p in d.params :: IsWord(p.name) && WellTyped(p.kind))
    && d.kind != "" && forall c | c in d.kind :: !Space(c) && c != '@' && c != '(' && c != ')'
  }

  /** The white space of one parameter; what follows the type, a comma or none, only when another parameter
      comes next. */
  datatype ParamGaps = ParamGaps(
    beforeColon: string, afterColon: string, afterType: string, comma: bool, afterComma: string)

  /** The white space and commas of one field. */
  datatype Layout = Layout(
    afterName: string,
    afterOpen: string,
    params: seq<ParamGaps>,
    beforeClose: string,
    afterClose: string,
    afterColon: string)

  /** The parameters, followed by `rest`. */
  function ParamsText(ps: seq<Param>, gs: seq<ParamGaps>, rest: string): string
    requires |ps| == |gs|
  {
    if ps == [] then rest
    else if |ps| == 1 then ParamText(ps[0], gs[0], rest)
    else ParamText(ps[0], gs[0], Separated(gs[0], ParamsText(ps[1..], gs[1..], rest)))
  }

  function Separated(g: ParamGaps, more: string): string {
    if g.comma then g.afterType + ("," + (g.afterComma + more)) else g.afterType + more
  }

  function ParamText(p: Param, g: ParamGaps, rest: string): string {
    p.name + (g.beforeColon + (":" + (g.afterColon + (TypeText(p.kind) + rest))))
  }

  function ResultText(d: Decl, l: Layout): string { ":" + (l.afterColon + d.kind) }

  function Closing(d: Decl, l: Layout): string { ")" + (l.afterClose + ResultText(d, l)) }

  function FieldText(d: Decl, l: Layout): string
    requires |d.params| == |l.params|
  {
    if d.params == [] then d.name + (l.afterName + ResultText(d, l))
    else d.name + (l.afterName + ("(" + (l.afterOpen +
           ParamsText(d.params, l.params, l.beforeClose + Closing(d, l)))))
  }

  predicate BlankGaps(g: ParamGaps) {
    AllBlank(g.beforeColon) && AllBlank(g.afterColon) && AllBlank(g.afterType) && AllBlank(g.afterComma)
  }

  /** Any white space between the tokens; parameters need a comma or a gap between them. */
  predicate Fits(d: Decl, l: Layout) {
    && |d.params| == |l.params|
    && AllBlank(l.afterName) && AllBlank(l.afterOpen) && AllBlank(l.beforeClose)
    && AllBlank(l.afterClose) && AllBlank(l.afterColon)
    && ParamsFit(l.params)
  }

  predicate ParamsFit(gs: seq<ParamGaps>) {
    && (forall i | 0 <= i < |gs| :: BlankGaps(gs[i]))
    && (forall i | 0 <= i < |gs| - 1 :: gs[i].comma || gs[i].afterType != "")
  }

  /** Lines are broken only between the parentheses. */
  predicate BreaksInside(l: Layout) {
    '\n' !in l.afterName && '\n' !in l.afterClose && '\n' !in l.afterColon
  }

  // ---------------------------------------------------------------- What is to be read

  function ArgOf(p: Param): Arg { Arg(p.name, TypeText(p.kind), "", p.kind.NonNull?) }

  /** A type without its final `!`. */
  function Base(t: Type): Type { if t.NonNull? then t.inner else t }

  /** At most one list layer. */
  predicate OneLayer(t: Type) { Base(t).ListOf? ==> Base(Base(t).inner).Named? }

  function AllArgs(ps: seq<Param>): seq<Arg> {
    if ps == [] then [] else [ArgOf(ps[0])] + AllArgs(ps[1..])
  }

  function OneLayerArgs(ps: seq<Param>): seq<Arg> {
    if ps == [] then []
    else (if OneLayer(ps[0].kind) then [ArgOf(ps[0])] else []) + OneLayerArgs(ps[1..])
  }

  /** There is a comma between two of the parameters. */
  predicate HasComma(gs: seq<ParamGaps>) { exists i | 0 <= i < |gs| - 1 :: gs[i].comma }

  /** There is a comma between any two of the parameters. */
  predicate AllCommas(gs: seq<ParamGaps>) { forall i | 0 <= i < |gs| - 1 :: gs[i].comma }

  /** The parameter at `i` has no other one between its commas. */
  predicate Alone(gs: seq<ParamGaps>, i: nat)
    requires i < |gs|
  {
    (i == 0 || gs[i - 1].comma) && (i == |gs| - 1 || gs[i].comma)
  }

  /** The arguments that are alone between their commas; `first` says whether a part of the list starts here. */
  function LoneArgs(ps: seq<Param>, gs: seq<ParamGaps>, first: bool): seq<Arg>
    requires |ps| == |gs|
  {
    if ps == [] then []
    else
      var lone := first && (|ps| == 1 || gs[0].comma);
      (if lone then [ArgOf(ps[0])] else []) + LoneArgs(ps[1..], gs[1..], gs[0].comma)
  }

  /** A comma makes the parser split the list; if it then reads nothing, a regular expression looks for arguments. */
  function ReadArgs(ps: seq<Param>, gs: seq<ParamGaps>): seq<Arg>
    requires |ps| == |gs|
  {
    if HasComma(gs) && LoneArgs(ps, gs, true) != [] then LoneArgs(ps, gs, true) else OneLayerArgs(ps)
  }

  function FieldOf(d: Decl, l: Layout): Field
    requires |d.params| == |l.params|
  {
    Field(d.name, "", d.kind, ReadArgs(d.params, l.params))
  }

  // ---------------------------------------------------------------- Characters of types and names

  predicate TypeLetter(c: char) { WordChar(c) || c == '[' || c == ']' || c == '!' }

  predicate TypeLetters(s: string) { forall c | c in s :: TypeLetter(c) }

  lemma JoinTypeLetters(s: string, t: string)
    requires TypeLetters(s) && TypeLetters(t)
    ensures TypeLetters(s + t)
  {
  }

  lemma {:induction false} TypeChars(t: Type)
    requires WellTyped(t)
    ensures TypeText(t) != "" && TypeLetters(TypeText(t))
  {
    match t
    case Named(name) =>
    case ListOf(inner) =>
      TypeChars(inner);
      JoinTypeLetters(TypeText(inner), "]");
      JoinTypeLetters("[", TypeText(inner) + "]");
    case NonNull(inner) =>
      TypeChars(inner);
      JoinTypeLetters(TypeText(inner), "!");
  }

  lemma TypeBang(t: Type)
    requires WellTyped(t)
    ensures EndsWith(TypeText(t), "!") <==> t.NonNull?
  {
    TypeChars(t);
    var s := TypeText(t);
    assert s[|s| - 1..] == [s[|s| - 1]];
    assert t.Named? ==> s[|s| - 1] in s;
  }

  lemma {:induction false} TypeNesting(t: Type)
    requires WellTyped(t)
    ensures Nesting(TypeText(t)) == 0
  {
    match t
    case Named(name) => FlatNesting(name);
    case ListOf(inner) =>
      TypeNesting(inner);
      NestingOfConcat(TypeText(inner), "]");
      NestingOfConcat("[", TypeText(inner) + "]");
      BracketNesting();
    case NonNull(inner) =>
      TypeNesting(inner);
      NestingOfConcat(TypeText(inner), "!");
      FlatNesting("!");
  }

  lemma BracketNesting()
    ensures Nesting("[") == 1 && Nesting("]") == -1
  {
    assert "["[..0] == "" && "]"[..0] == "";
  }

  lemma {:induction false} FlatNesting(s: string)
    requires forall c | c in s :: Bracket(c) == 0
    ensures Nesting(s) == 0
  {
    if s != "" {
      assert s[|s| - 1] in s;
      FlatNesting(s[..|s| - 1]);
    }
  }

  lemma NoSpaceIsSolid(s: string)
    requires s != "" && forall c | c in s :: !Space(c)
    ensures Solid(s) && '\n' !in s
  {
    assert s[0] in s && s[|s| - 1] in s;
  }

  lemma TypeIsSolid(t: Type)
    requires WellTyped(t)
    ensures Solid(TypeText(t)) && '\n' !in TypeText(t)
  {
    TypeChars(t);
    TypeCharsAreSolid(TypeText(t));
  }

  lemma TypeCharsAreSolid(s: string)
    requires s != "" && TypeLetters(s)
    ensures Solid(s) && '\n' !in s
  {
    NoSpaceIsSolid(s);
  }

  // ---------------------------------------------------------------- Joining the lines of a field

  function SquashedGaps(g: ParamGaps): ParamGaps {
    ParamGaps(Squash(g.beforeColon), Squash(g.afterColon), Squash(g.afterType), g.comma, Squash(g.afterComma))
  }

  function SquashedParams(gs: seq<ParamGaps>): (r: seq<ParamGaps>)
    ensures |r| == |gs|
  {
    if gs == [] then [] else [SquashedGaps(gs[0])] + SquashedParams(gs[1..])
  }

  /** The layout that is left when the lines are joined. */
  function Squashed(l: Layout): Layout {
    Layout(Squash(l.afterName), Squash(l.afterOpen), SquashedParams(l.params),
           Squash(l.beforeClose), Squash(l.afterClose), Squash(l.afterColon))
  }

  /** A punctuator, a gap and what follows. */
  lemma RejoinMark(mark: string, gap: string, rest: string)
    requires mark == ":" || mark == ")" || mark == "(" || mark == ","
    requires AllBlank(gap) && StartsSolid(rest)
    ensures Rejoin(mark + (gap + rest)) == mark + (Squash(gap) + Rejoin(rest)) && StartsSolid(mark + (gap + rest))
  {
    RejoinToken(mark, gap, rest);
  }

  lemma RejoinParam(p: Param, g: ParamGaps, gap: string, rest: string)
    requires IsWord(p.name) && WellTyped(p.kind) && BlankGaps(g) && AllBlank(gap) && StartsSolid(rest)
    ensures Rejoin(ParamText(p, g, gap + rest)) == ParamText(p, SquashedGaps(g), Squash(gap) + Rejoin(rest))
    ensures StartsSolid(ParamText(p, g, gap + rest))
  {
    NoSpaceIsSolid(p.name);
    TypeIsSolid(p.kind);
    var kind := TypeText(p.kind);
    RejoinToken(kind, gap, rest);
    RejoinMark(":", g.afterColon, kind + (gap + rest));
    RejoinToken(p.name, g.beforeColon, ":" + (g.afterColon + (kind + (gap + rest))));
  }

  lemma RejoinSeparated(p: Param, g: ParamGaps, more: string)
    requires IsWord(p.name) && WellTyped(p.kind) && BlankGaps(g) && StartsSolid(more)
    ensures Rejoin(ParamText(p, g, Separated(g, more))) ==
            ParamText(p, SquashedGaps(g), Separated(SquashedGaps(g), Rejoin(more)))
    ensures StartsSolid(ParamText(p, g, Separated(g, more)))
  {
    if g.comma {
      RejoinMark(",", g.afterComma, more);
      RejoinParam(p, g, g.afterType, "," + (g.afterComma + more));
    } else {
      RejoinParam(p, g, g.afterType, more);
    }
  }

  lemma {:induction false} RejoinParams(ps: seq<Param>, gs: seq<ParamGaps>, gap: string, rest: string)
    requires |ps| == |gs| && ps != [] && ParamsFit(gs) && AllBlank(gap) && StartsSolid(rest)
    requires forall p | p in ps :: IsWord(p.name) && WellTyped(p.kind)
    ensures Rejoin(ParamsText(ps, gs, gap + rest)) == ParamsText(ps, SquashedParams(gs), Squash(gap) + Rejoin(rest))
    ensures StartsSolid(ParamsText(ps, gs, gap + rest))
    decreases |ps|
  {
    if |ps| == 1 {
      RejoinParam(ps[0], gs[0], gap, rest);
    } else {
      RejoinParams(ps[1..], gs[1..], gap, rest);
      RejoinSeparated(ps[0], gs[0], ParamsText(ps[1..], gs[1..], gap + rest));
    }
  }

  lemma RejoinLast(token: string)
    requires Solid(token) && '\n' !in token
    ensures Rejoin(token) == token
  {
    assert "" + (token + "") == token;
    TrimSolid("", token, "");
    RejoinLine(token, "");
  }

  lemma RejoinResult(afterColon: string, kind: string)
    requires AllBlank(afterColon) && kind != "" && forall c | c in kind :: !Space(c)
    ensures Rejoin(":" + (afterColon + kind)) == ":" + (Squash(afterColon) + kind)
  {
    NoSpaceIsSolid(kind);
    RejoinLast(kind);
    RejoinMark(":", afterColon, kind);
  }

  lemma RejoinClosing(afterClose: string, afterColon: string, kind: string)
    requires AllBlank(afterClose) && AllBlank(afterColon) && kind != "" && forall c | c in kind :: !Space(c)
    ensures Rejoin(")" + (afterClose + (":" + (afterColon + kind)))) ==
            ")" + (Squash(afterClose) + (":" + (Squash(afterColon) + kind)))
  {
    RejoinResult(afterColon, kind);
    RejoinMark(")", afterClose, ":" + (afterColon + kind));
  }

  lemma RejoinOpening(name: string, afterName: string, afterOpen: string, params: string)
    requires IsWord(name) && AllBlank(afterName) && AllBlank(afterOpen) && StartsSolid(params)
    ensures Rejoin(name + (afterName + ("(" + (afterOpen + params)))) ==
            name + (Squash(afterName) + ("(" + (Squash(afterOpen) + Rejoin(params))))
  {
    NoSpaceIsSolid(name);
    RejoinMark("(", afterOpen, params);
    RejoinToken(name, afterName, "(" + (afterOpen + params));
  }

  lemma RejoinPlain(d: Decl, l: Layout)
    requires WellFormed(d) && Fits(d, l) && d.params == []
    ensures Rejoin(FieldText(d, l)) == FieldText(d, Squashed(l))
  {
    RejoinResult(l.afterColon, d.kind);
    NoSpaceIsSolid(d.name);
    RejoinToken(d.name, l.afterName, ResultText(d, l));
  }

  lemma RejoinWithParams(d: Decl, l: Layout)
    requires WellFormed(d) && Fits(d, l) && d.params != []
    ensures Rejoin(FieldText(d, l)) == FieldText(d, Squashed(l))
  {
    RejoinClosing(l.afterClose, l.afterColon, d.kind);
    RejoinParams(d.params, l.params, l.beforeClose, Closing(d, l));
    RejoinOpening(d.name, l.afterName, l.afterOpen, ParamsText(d.params, l.params, l.beforeClose + Closing(d, l)));
  }

  /** Joining the lines of a field only changes its layout. */
  lemma RejoinField(d: Decl, l: Layout)
    requires WellFormed(d) && Fits(d, l)
    ensures Rejoin(FieldText(d, l)) == FieldText(d, Squashed(l))
  {
    if d.params == [] {
      RejoinPlain(d, l);
    } else {
      RejoinWithParams(d, l);
    }
  }

  lemma SquashedGapsAreBlank(g: ParamGaps)
    requires BlankGaps(g)
    ensures BlankGaps(SquashedGaps(g)) && (SquashedGaps(g).afterType == "" <==> g.afterType == "")
  {
    SquashIsBlank(g.beforeColon);
    SquashIsBlank(g.afterColon);
    SquashIsBlank(g.afterType);
    SquashIsBlank(g.afterComma);
  }

  lemma {:induction false} SquashedParamsFit(gs: seq<ParamGaps>)
    requires ParamsFit(gs)
    ensures ParamsFit(SquashedParams(gs))
  {
    if gs != [] {
      SquashedGapsAreBlank(gs[0]);
      SquashedParamsFit(gs[1..]);
    }
  }

  lemma SquashedFits(d: Decl, l: Layout)
    requires Fits(d, l)
    ensures Fits(d, Squashed(l))
  {
    SquashIsBlank(l.afterName);
    SquashIsBlank(l.afterOpen);
    SquashIsBlank(l.beforeClose);
    SquashIsBlank(l.afterClose);
    SquashIsBlank(l.afterColon);
    SquashedParamsFit(l.params);
  }
}
