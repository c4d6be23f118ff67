/**
 * Type bodies whose fields have descriptions and comments before them (cmd/fetchactions-graphql/sdl.go,
 * parseFieldsFromBlock): each field takes the description that stands before it, and comments are skipped.
 */
module SdlDescriptions {
  import opened Prelude
  import opened SdlText
  import opened SdlFields
  import opened SdlLayout
  import opened SdlReading
  import opened SdlFieldReading
  import opened SdlBlocks

  // ---------------------------------------------------------------- Descriptions and their texts

  /**
   * No description, a quoted one, one between triple quotes on its line, or a block between two lines
   * that start with triple quotes; what else stands on these two lines is not part of the description.
   */
  datatype Doc =
    | Undocumented
    | Quoted(text: string)
    | OneLine(text: string)
    | Block(opening: string, lines: seq<string>, closing: string)

  /** What stands before a field: remarks, the description behind an indentation, remarks again. */
  datatype Lead = Lead(before: seq<string>, indent: string, doc: Doc, trail: string, after: seq<string>)

  /** An empty line or a comment. */
  ghost predicate IsRemark(line: string) {
    '\n' !in line && (AllBlank(line) || exists indent, text :: IsComment(line, indent, text))
  }

  predicate IsComment(line: string, indent: string, text: string) {
    AllBlank(indent) && line == indent + ("#" + text)
  }

  predicate WellQuoted(doc: Doc) {
    match doc
    case Undocumented => true
    case Quoted(text) => '\n' !in text && text != "" && text[0] != '"'
    case OneLine(text) => '\n' !in text
    case Block(opening, lines, closing) =>
      && '\n' !in opening && NoQuotes(opening) && '\n' !in closing
      && forall line | line in lines :: '\n' !in line && !(QUOTES <= Trim(line))
  }

  predicate NoQuotes(s: string) { '"' !in s }

  function LinesOf(lead: Lead): seq<string> { lead.before + (DocLines(lead) + lead.after) }

  function DocLines(lead: Lead): seq<string> {
    match lead.doc
    case Undocumented => []
    case Quoted(text) => [lead.indent + (("\"" + (text + "\"")) + lead.trail)]
    case OneLine(text) => [lead.indent + ((QUOTES + (text + QUOTES)) + lead.trail)]
    case Block(opening, lines, closing) =>
      [lead.indent + (QUOTES + opening)] + (lines + [lead.indent + (QUOTES + closing)])
  }

  ghost predicate IsLead(lead: Lead) {
    && (forall line | line in lead.before :: IsRemark(line)) && (forall line | line in lead.after :: IsRemark(line))
    && AllBlank(lead.indent) && AllBlank(lead.trail) && '\n' !in lead.indent && '\n' !in lead.trail
    && WellQuoted(lead.doc)
  }

  /** Lines, each with its line break, followed by `rest`. */
  function Broken(lines: seq<string>, rest: string): string {
    if lines == [] then rest else lines[0] + ("\n" + Broken(lines[1..], rest))
  }

  /** The texts that are not empty once trimmed, trimmed. */
  function Contents(lines: seq<string>): seq<string> {
    if lines == [] then []
    else (if Trim(lines[0]) == "" then [] else [Trim(lines[0])]) + Contents(lines[1..])
  }

  /** The description that a field is to have. */
  function Said(doc: Doc): string {
    match doc
    case Undocumented => ""
    case Quoted(text) => Trim(TrimQuotesRight(text))
    case OneLine(text) => Trim(text)
    case Block(_, lines, _) => Spaced(Contents(lines))
  }

  /** A quoted description is the text between the quotes exactly when that does not itself end in one. */
  lemma QuotedIsWholeExactlyWhen(text: string)
    requires WellQuoted(Quoted(text))
    ensures Said(Quoted(text)) == Trim(text) <==> text[|text| - 1] != '"'
  {
    if text[|text| - 1] == '"' {
      QuotesCut(text);
    } else {
      assert text[|text| - 1..] == [text[|text| - 1]];
    }
  }

  lemma {:induction false} TrimQuotesShortens(s: string)
    ensures |TrimQuotesRight(s)| <= |s| && TrimQuotesRight(s) == s[..|TrimQuotesRight(s)|]
  {
    if EndsWith(s, "\"") {
      TrimQuotesShortens(s[..|s| - 1]);
    }
  }

  lemma {:induction false} TrimLength(s: string, t: string)
    requires |t| < |s| && t == s[..|t|] && EndsSolid(s)
    ensures |Trim(t)| < |Trim(s)|
    decreases |s|
  {
    if Space(s[0]) {
      if t == "" {
        TrimEndsSolid(s);
      } else {
        assert t[1..] == s[1..][..|t| - 1];
        TrimLength(s[1..], t[1..]);
      }
    } else {
      TrimIsSame(s);
      TrimNotLonger(t);
    }
  }

  lemma {:induction false} TrimRightNotLonger(s: string)
    ensures |TrimRight(s)| <= |s|
  {
    if s != "" && Space(s[|s| - 1]) {
      TrimRightNotLonger(s[..|s| - 1]);
    }
  }

  lemma TrimNotLonger(s: string)
    ensures |Trim(s)| <= |s|
  {
    TrimLeftShortens(s);
    TrimRightNotLonger(TrimLeft(s));
  }

  lemma {:induction false} TrimEndsSolid(s: string)
    requires EndsSolid(s)
    ensures Trim(s) != ""
  {
    if Space(s[0]) {
      TrimEndsSolid(s[1..]);
    } else {
      TrimIsSame(s);
    }
  }

  lemma QuotesCut(text: string)
    requires text != "" && text[|text| - 1] == '"'
    ensures Trim(TrimQuotesRight(text)) != Trim(text)
  {
    QuoteIsCut(text);
    TrimLength(text, TrimQuotesRight(text));
  }

  lemma QuoteIsCut(text: string)
    requires text != "" && text[|text| - 1] == '"'
    ensures var cut := TrimQuotesRight(text); |cut| < |text| && cut == text[..|cut|]
  {
    var front := text[..|text| - 1];
    assert text[|text| - 1..] == "\"";
    TrimQuotesShortens(front);
    assert front[..|TrimQuotesRight(front)|] == text[..|TrimQuotesRight(front)|];
  }

  // ---------------------------------------------------------------- Remarks

  lemma RemarkIsSkipped(scan: Scan, line: string)
    requires Idle(scan) && IsRemark(line)
    ensures LineStep(scan, line) == scan
  {
    if AllBlank(line) {
      TrimBlank(line);
    } else {
      var indent, text :| IsComment(line, indent, text);
      TrimLeftDrops(indent, "#" + text);
      TrimRightStart("#" + text);
      NotQuoted(Trim(line));
    }
  }

  lemma {:induction false} RemarksAreSkipped(scan: Scan, lines: seq<string>, rest: string)
    requires Idle(scan) && forall line | line in lines :: IsRemark(line)
    ensures RunText(scan, Broken(lines, rest)) == RunText(scan, rest)
  {
    if lines != [] {
      assert lines[0] in lines;
      RemarkIsSkipped(scan, lines[0]);
      RunBreak(scan, lines[0], Broken(lines[1..], rest));
      RemarksAreSkipped(scan, lines[1..], rest);
    }
  }

  lemma {:induction false} BrokenJoins(lines: seq<string>, more: seq<string>, rest: string)
    ensures Broken(lines + more, rest) == Broken(lines, Broken(more, rest))
    decreases |lines|
  {
    if lines == [] {
      assert [] + more == more;
    } else {
      assert (lines + more)[1..] == lines[1..] + more;
      BrokenJoins(lines[1..], more, rest);
    }
  }

  // ---------------------------------------------------------------- One-line descriptions

  lemma TrimMiddle(indent: string, s: string, trail: string)
    requires AllBlank(indent) && AllBlank(trail) && Solid(s)
    ensures Trim(indent + (s + trail)) == s
  {
    TrimSolid(indent, s, trail);
  }

  lemma QuotedEnds(text: string)
    ensures
      var s := "\"" + (text + "\"");
      Solid(s) && s[1..] == text + "\"" && (text != "" && text[0] != '"' ==> !("\"\"" <= s) && !(QUOTES <= s))
  {
    var s := "\"" + (text + "\"");
    assert text != "" ==> s[1] == text[0];
  }

  lemma QuotedIsTaken(scan: Scan, indent: string, text: string, trail: string)
    requires Idle(scan) && WellQuoted(Quoted(text)) && AllBlank(indent) && AllBlank(trail)
    ensures LineStep(scan, indent + (("\"" + (text + "\"")) + trail)) == scan.(description := TrimQuotesRight(text))
  {
    var s := "\"" + (text + "\"");
    QuotedEnds(text);
    TrimMiddle(indent, s, trail);
    assert s[0] == '"' && (text + "\"")[0] == text[0];
    assert TrimQuotesLeft(s) == TrimQuotesLeft(text + "\"") == text + "\"";
    assert (text + "\"")[|text|..] == "\"" && (text + "\"")[..|text|] == text;
  }

  lemma {:induction false} FindIsThere(s: string, what: string, more: string)
    ensures Find(s + (what + more), what).Some?
    decreases |s|
  {
    if s != "" {
      assert (s + (what + more))[1..] == s[1..] + (what + more);
      FindIsThere(s[1..], what, more);
    } else {
      assert s + (what + more) == what + more;
    }
  }

  lemma OneLineIsTaken(scan: Scan, indent: string, text: string, trail: string)
    requires Idle(scan) && AllBlank(indent) && AllBlank(trail)
    ensures LineStep(scan, indent + ((QUOTES + (text + QUOTES)) + trail)) == scan.(description := Trim(text))
  {
    var s := QUOTES + (text + QUOTES);
    assert s[..3] == QUOTES && s[3..] == text + QUOTES;
    TrimMiddle(indent, s, trail);
    FindIsThere(text, QUOTES, "");
    assert QUOTES + "" == QUOTES;
    var d := text + QUOTES;
    assert d[|d| - 3..] == QUOTES && d[..|d| - 3] == text;
  }

  // ---------------------------------------------------------------- Block descriptions

  lemma {:induction false} NothingToFind(s: string)
    requires NoQuotes(s)
    ensures Find(s, QUOTES).None?
  {
    if s != "" {
      assert s[0] in s;
      NothingToFind(s[1..]);
    }
  }

  lemma {:induction false} TrimRightIsPrefix(s: string)
    ensures |TrimRight(s)| <= |s| && TrimRight(s) == s[..|TrimRight(s)|]
  {
    if s != "" && Space(s[|s| - 1]) {
      TrimRightIsPrefix(s[..|s| - 1]);
    }
  }

  lemma {:induction false} TrimRightStops(s: string, t: string)
    requires s != "" && !Space(s[|s| - 1])
    ensures TrimRight(s + t) == s + TrimRight(t)
    decreases |t|
  {
    if t == "" {
      assert s + t == s;
    } else if Space(t[|t| - 1]) {
      assert (s + t)[..|s + t| - 1] == s + t[..|t| - 1];
      TrimRightStops(s, t[..|t| - 1]);
    }
  }

  lemma TrimOpening(indent: string, opening: string)
    requires AllBlank(indent)
    ensures Trim(indent + (QUOTES + opening)) == QUOTES + TrimRight(opening)
  {
    TrimLeftDrops(indent, QUOTES + opening);
    TrimRightStops(QUOTES, opening);
  }

  lemma BlockIsOpened(scan: Scan, indent: string, opening: string)
    requires Idle(scan) && AllBlank(indent) && NoQuotes(opening)
    ensures LineStep(scan, indent + (QUOTES + opening)) == scan.(inBlock := true, description := "")
  {
    TrimOpening(indent, opening);
    var s := QUOTES + TrimRight(opening);
    assert s[..3] == QUOTES && s[3..] == TrimRight(opening);
    TrimRightIsPrefix(opening);
    NothingToFind(TrimRight(opening));
  }

  predicate InBlock(scan: Scan) { scan.accumulated == "" && scan.inBlock && scan.depth == 0 }

  lemma BlockIsClosed(scan: Scan, indent: string, closing: string)
    requires InBlock(scan) && AllBlank(indent)
    ensures LineStep(scan, indent + (QUOTES + closing)) == scan.(inBlock := false)
  {
    TrimOpening(indent, closing);
    var s := QUOTES + TrimRight(closing);
    assert s[..3] == QUOTES;
  }

  /** Each text followed by a space. */
  function SpaceAfterEach(words: seq<string>): string {
    if words == [] then "" else words[0] + (" " + SpaceAfterEach(words[1..]))
  }

  lemma BlockLineIsKept(scan: Scan, line: string)
    requires InBlock(scan) && !(QUOTES <= Trim(line))
    ensures LineStep(scan, line) ==
      if Trim(line) == "" then scan else scan.(description := scan.description + (Trim(line) + " "))
  {
    Assoc(scan.description, Trim(line), " ");
  }

  lemma {:induction false} BlockLinesAreKept(scan: Scan, lines: seq<string>, rest: string)
    requires InBlock(scan) && forall line | line in lines :: '\n' !in line && !(QUOTES <= Trim(line))
    ensures RunText(scan, Broken(lines, rest)) ==
            RunText(scan.(description := scan.description + SpaceAfterEach(Contents(lines))), rest)
    decreases |lines|
  {
    if lines == [] {
      assert scan.description + "" == scan.description;
    } else {
      var line, more := lines[0], SpaceAfterEach(Contents(lines[1..]));
      assert line in lines;
      BlockLineIsKept(scan, line);
      RunBreak(scan, line, Broken(lines[1..], rest));
      BlockLinesAreKept(LineStep(scan, line), lines[1..], rest);
      OneMoreWord(Trim(line), Contents(lines[1..]));
      Assoc(scan.description, Trim(line) + " ", more);
      Assoc(Trim(line), " ", more);
    }
  }

  lemma OneMoreWord(word: string, words: seq<string>)
    ensures SpaceAfterEach([word] + words) == word + (" " + SpaceAfterEach(words))
    ensures [] + words == words
  {
    assert ([word] + words)[1..] == words;
  }

  lemma {:induction false} ContentsAreSolid(lines: seq<string>)
    ensures forall word | word in Contents(lines) :: Solid(word)
  {
    if lines != [] {
      TrimTwice(lines[0]);
      ContentsAreSolid(lines[1..]);
    }
  }

  lemma {:induction false} SpacedIsSolid(words: seq<string>)
    requires words != [] && forall word | word in words :: Solid(word)
    ensures Solid(Spaced(words)) && SpaceAfterEach(words) == Spaced(words) + " "
    decreases |words|
  {
    assert words[0] in words;
    if |words| == 1 {
      assert words[1..] == [];
      assert words[0] + (" " + "") == words[0] + " ";
    } else {
      SpacedIsSolid(words[1..]);
      Assoc(words[0] + " ", Spaced(words[1..]), " ");
      Assoc(words[0], " ", Spaced(words[1..]) + " ");
    }
  }

  lemma BlockIsSaid(lines: seq<string>)
    ensures Trim(SpaceAfterEach(Contents(lines))) == Spaced(Contents(lines))
  {
    var words := Contents(lines);
    ContentsAreSolid(lines);
    if words != [] {
      SpacedIsSolid(words);
      var s := Spaced(words);
      assert "" + (s + " ") == s + " ";
      TrimSolid("", s, " ");
    } else {
      assert Trim("") == "";
    }
  }

  // ---------------------------------------------------------------- What stands before a field

  /** The description that is pending after the lead, before it is trimmed. */
  function Pending(doc: Doc): string {
    match doc
    case Undocumented => ""
    case Quoted(text) => TrimQuotesRight(text)
    case OneLine(text) => Trim(text)
    case Block(_, lines, _) => SpaceAfterEach(Contents(lines))
  }

  lemma PendingIsSaid(doc: Doc)
    ensures Trim(Pending(doc)) == Said(doc)
  {
    match doc
    case Undocumented => assert Trim("") == "";
    case Quoted(_) =>
    case OneLine(text) => TrimTwice(text);
    case Block(_, lines, _) => BlockIsSaid(lines);
  }

  lemma BlockRuns(scan: Scan, indent: string, opening: string, lines: seq<string>, closing: string, rest: string)
    requires Idle(scan) && AllBlank(indent) && '\n' !in indent && WellQuoted(Block(opening, lines, closing))
    ensures RunText(scan, Broken([indent + (QUOTES + opening)] + (lines + [indent + (QUOTES + closing)]), rest)) ==
            RunText(scan.(description := SpaceAfterEach(Contents(lines))), rest)
  {
    var first, last := indent + (QUOTES + opening), indent + (QUOTES + closing);
    var more := lines + [last];
    assert ([first] + more)[1..] == more;
    BrokenJoins(lines, [last], rest);
    BlockIsOpened(scan, indent, opening);
    RunBreak(scan, first, Broken(more, rest));
    var inside := scan.(inBlock := true, description := "");
    BlockLinesAreKept(inside, lines, Broken([last], rest));
    var kept := inside.(description := "" + SpaceAfterEach(Contents(lines)));
    assert kept.description == SpaceAfterEach(Contents(lines));
    assert [last][1..] == [] && Broken([last], rest) == last + ("\n" + rest);
    BlockIsClosed(kept, indent, closing);
    RunBreak(kept, last, rest);
  }

  lemma DocRuns(scan: Scan, lead: Lead, rest: string)
    requires Idle(scan) && scan.description == "" && IsLead(lead)
    ensures RunText(scan, Broken(DocLines(lead), rest)) == RunText(scan.(description := Pending(lead.doc)), rest)
  {
    match lead.doc
    case Undocumented =>
    case Quoted(text) =>
      var line := lead.indent + (("\"" + (text + "\"")) + lead.trail);
      QuotedIsTaken(scan, lead.indent, text, lead.trail);
      OneLineRuns(scan, line, rest);
    case OneLine(text) =>
      var line := lead.indent + ((QUOTES + (text + QUOTES)) + lead.trail);
      OneLineIsTaken(scan, lead.indent, text, lead.trail);
      OneLineRuns(scan, line, rest);
    case Block(opening, lines, closing) =>
      BlockRuns(scan, lead.indent, opening, lines, closing, rest);
  }

  lemma OneLineRuns(scan: Scan, line: string, rest: string)
    requires '\n' !in line
    ensures RunText(scan, Broken([line], rest)) == RunText(LineStep(scan, line), rest)
  {
    assert [line][1..] == [];
    RunBreak(scan, line, rest);
  }

  /** The lead leaves its description pending. */
  lemma LeadRuns(scan: Scan, lead: Lead, rest: string)
    requires Idle(scan) && scan.description == "" && IsLead(lead)
    ensures RunText(scan, Broken(LinesOf(lead), rest)) == RunText(scan.(description := Pending(lead.doc)), rest)
  {
    BrokenJoins(lead.before, DocLines(lead) + lead.after, rest);
    BrokenJoins(DocLines(lead), lead.after, rest);
    RemarksAreSkipped(scan, lead.before, Broken(DocLines(lead), Broken(lead.after, rest)));
    DocRuns(scan, lead, Broken(lead.after, rest));
    RemarksAreSkipped(scan.(description := Pending(lead.doc)), lead.after, rest);
  }

  // ---------------------------------------------------------------- Whole bodies

  /** The fields, each behind its lead and followed by its gap, and remarks at the end. */
  function DocumentedText(
    leads: seq<Lead>, ds: seq<Decl>, ls: seq<Layout>, gaps: seq<string>, remarks: seq<string>): string
    requires |leads| == |ds| == |ls| == |gaps|
    requires forall i | 0 <= i < |ds| :: |ds[i].params| == |ls[i].params|
  {
    if ds == [] then Broken(remarks, "")
    else Broken(LinesOf(leads[0]), FieldText(ds[0], ls[0]) +
           (gaps[0] + DocumentedText(leads[1..], ds[1..], ls[1..], gaps[1..], remarks)))
  }

  /** As in a body without leads; every gap ends the line of its field, but for the last one at the end. */
  ghost predicate IsDocumented(
    leads: seq<Lead>, ds: seq<Decl>, ls: seq<Layout>, gaps: seq<string>, remarks: seq<string>) {
    && |leads| == |ds| && IsBody(ds, ls, gaps)
    && (forall i | 0 <= i < |leads| :: IsLead(leads[i]))
    && (forall line | line in remarks :: IsRemark(line))
    && (remarks != [] && ds != [] ==> '\n' in gaps[|gaps| - 1])
  }

  function DocumentedFields(leads: seq<Lead>, ds: seq<Decl>, ls: seq<Layout>): seq<Field>
    requires |leads| == |ds| == |ls|
    requires forall i | 0 <= i < |ds| :: |ds[i].params| == |ls[i].params|
  {
    if ds == [] then []
    else [FieldOf(ds[0], ls[0]).(description := Said(leads[0].doc))] + DocumentedFields(leads[1..], ds[1..], ls[1..])
  }

  lemma OneDocumentedRuns(scan: Scan, lead: Lead, d: Decl, l: Layout, gap: string, rest: string)
    requires Idle(scan) && scan.description == "" && IsLead(lead)
    requires WellFormed(d) && Fits(d, l) && BreaksInside(l) && AllBlank(gap) && ('\n' in gap || rest == "")
    ensures RunText(scan, Broken(LinesOf(lead), FieldText(d, l) + (gap + rest))) ==
            RunText(scan.(fields := scan.fields + [FieldOf(d, l).(description := Said(lead.doc))]), rest)
  {
    var described := scan.(description := Pending(lead.doc));
    LeadRuns(scan, lead, FieldText(d, l) + (gap + rest));
    OneFieldRuns(described, d, l, gap, rest);
    PendingIsSaid(lead.doc);
    assert WithField(described, FieldOf(d, l))
        == scan.(fields := scan.fields + [FieldOf(d, l).(description := Said(lead.doc))]);
  }

  lemma DocumentedTail(leads: seq<Lead>, ds: seq<Decl>, ls: seq<Layout>, gaps: seq<string>, remarks: seq<string>)
    requires IsDocumented(leads, ds, ls, gaps, remarks) && ds != []
    ensures IsDocumented(leads[1..], ds[1..], ls[1..], gaps[1..], remarks)
    ensures '\n' in gaps[0] || DocumentedText(leads[1..], ds[1..], ls[1..], gaps[1..], remarks) == ""
  {
    BodyTail(ds, ls, gaps);
  }

  lemma {:induction false} DocumentedRuns(
    scan: Scan, leads: seq<Lead>, ds: seq<Decl>, ls: seq<Layout>, gaps: seq<string>, remarks: seq<string>)
    requires Idle(scan) && scan.description == "" && IsDocumented(leads, ds, ls, gaps, remarks)
    ensures RunText(scan, DocumentedText(leads, ds, ls, gaps, remarks)) ==
            WithFields(scan, DocumentedFields(leads, ds, ls))
    decreases |ds|
  {
    if ds == [] {
      RemarksAreSkipped(scan, remarks, "");
      RunLine(scan, "", "");
      IdleSkipsBlank(scan, "");
      assert "" + "" == "" && scan.fields + [] == scan.fields;
    } else {
      var field := FieldOf(ds[0], ls[0]).(description := Said(leads[0].doc));
      var next := scan.(fields := scan.fields + [field]);
      var more := DocumentedFields(leads[1..], ds[1..], ls[1..]);
      DocumentedTail(leads, ds, ls, gaps, remarks);
      BodyTail(ds, ls, gaps);
      OneDocumentedRuns(scan, leads[0], ds[0], ls[0], gaps[0],
                        DocumentedText(leads[1..], ds[1..], ls[1..], gaps[1..], remarks));
      DocumentedRuns(next, leads[1..], ds[1..], ls[1..], gaps[1..], remarks);
      FieldsJoin(scan, field, more);
    }
  }

  lemma FieldsJoin(scan: Scan, field: Field, more: seq<Field>)
    ensures WithFields(scan.(fields := scan.fields + [field]), more) == WithFields(scan, [field] + more)
  {
    assert (scan.fields + [field]) + more == scan.fields + ([field] + more);
  }

  /**
   * Main theorem: a body whose fields have remarks and descriptions before them is read back, in order,
   * from every layout, each field with its own description and no other.
   */
  lemma DocumentedBodyIsRead(
    before: string, leads: seq<Lead>, ds: seq<Decl>, ls: seq<Layout>, gaps: seq<string>, remarks: seq<string>)
    requires IsDocumented(leads, ds, ls, gaps, remarks) && AllBlank(before)
    ensures FieldsIn(before + DocumentedText(leads, ds, ls, gaps, remarks)) == DocumentedFields(leads, ds, ls)
  {
    IdleSkipsGap(START, before, DocumentedText(leads, ds, ls, gaps, remarks));
    DocumentedRuns(START, leads, ds, ls, gaps, remarks);
    assert [] + DocumentedFields(leads, ds, ls) == DocumentedFields(leads, ds, ls);
  }

  /** A description and its field on one line: the whole line is taken as the description, and the field is lost. */
  lemma FieldBehindDescriptionIsLost(indent: string, rest: string)
    requires AllBlank(indent) && '\n' !in indent && '\n' !in rest
    ensures FieldsIn(indent + (QUOTES + rest)) == []
    ensures rest != "" && rest[0] != '"' ==> FieldsIn(indent + ("\"" + rest)) == []
  {
    TrimOpening(indent, rest);
    LoneLine(indent + (QUOTES + rest));
    var s := QUOTES + TrimRight(rest);
    assert s[..3] == QUOTES;
    if rest != "" && rest[0] != '"' {
      TrimLeftDrops(indent, "\"" + rest);
      TrimRightStops("\"", rest);
      LoneLine(indent + ("\"" + rest));
      var t := "\"" + TrimRight(rest);
      assert t[0] == '"' && !(QUOTES <= t) && !("\"\"" <= t) by {
        TrimRightIsPrefix(rest);
        assert |t| > 1 ==> t[1] == rest[0];
      }
    }
  }

  lemma LoneLine(line: string)
    requires '\n' !in line
    ensures FieldsIn(line) == Flush(LineStep(START, line)).fields
  {
    RunLine(START, line, "");
    assert line + "" == line;
  }
}
