/**
 * Parsing the fields of an SDL type body (cmd/fetchactions-graphql/sdl.go): parseFieldsFromBlock,
 * parseFieldLine, parseArgs, parseOneArg and parseArgsRegex. Each regular expression is written out
 * as a matcher; it only ever sees text without line breaks.
 */
module SdlFields {
  import opened Prelude
  import opened SdlText
  import opened SdlScanner

  datatype Arg = Arg(name: string, kind: string, description: string, required: bool)

  datatype Field = Field(name: string, description: string, kind: string, args: seq<Arg>)

  const QUOTES := "\"\"\""

  function Head(s: string): string { s[..Run(s, WordChar)] }

  function Tail(s: string): string { s[Run(s, WordChar)..] }

  predicate StartsWith(s: string, c: char) { s != "" && s[0] == c }

  predicate EndsWith(s: string, suffix: string) {
    |s| >= |suffix| && s[|s| - |suffix|..] == suffix
  }

  /** Where `what` first occurs in `s`. */
  function Find(s: string, what: string): (r: Option<nat>)
    ensures r.Some? ==> r.value <= |s| && what <= s[r.value..]
  {
    if what <= s then Some(0)
    else if s == "" then None
    else
      var r := Find(s[1..], what);
      if r.Some? then assert s[r.value + 1..] == s[1..][r.value..]; Some(r.value + 1) else None
  }

  // ---------------------------------------------------------------- parseOneArg

  /** The text after a leading description, and the description. */
  function StripDescription(s: string): (string, string) {
    if QUOTES <= s then
      var end := Find(s[3..], QUOTES);
      if end.Some? then (Trim(s[3..][end.value + 3..]), Trim(s[3..][..end.value])) else (s, "")
    else if StartsWith(s, '"') then
      var end := Find(s[1..], "\"");
      if end.Some? then (Trim(s[1..][end.value + 1..]), Trim(s[1..][..end.value])) else (s, "")
    else (s, "")
  }

  /** Drops what the optional group `"""[^"]*"""\s*` matches. */
  function SkipQuoted(s: string): string {
    if QUOTES <= s then
      var end := IndexOf(s[3..], '"');
      if QUOTES <= s[3..][end..] then SkipBlank(s[3..][end..][3..]) else s
    else s
  }

  predicate TypeChar(c: char) { !Blank(c) && c != '=' }

  /** `[^\s=]+(?:\s*=\s*.+)?$` */
  predicate IsTypeWithDefault(t: string) {
    var rest := t[Run(t, TypeChar)..];
    && Run(t, TypeChar) > 0
    && (rest == "" || (StartsWith(SkipBlank(rest), '=') && |SkipBlank(rest)| > 1))
  }

  function BeforeDefault(t: string): string {
    var i := IndexOf(t, '=');
    if i < |t| then Trim(t[..i]) else t
  }

  /** A match of argRe without its optional group: name, colon, type and default value. */
  function NamedArg(s: string, description: string): Option<Arg> {
    var name, rest := Head(s), SkipBlank(Tail(s));
    if name == "" || !StartsWith(rest, ':') then None
    else
      var t := SkipBlank(rest[1..]);
      if !IsTypeWithDefault(t) then None
      else
        var kind := BeforeDefault(t);
        Some(Arg(name, kind, description, EndsWith(kind, "!")))
  }

  function ParseOneArg(part: string): Option<Arg> {
    var (s, description) := StripDescription(Trim(part));
    NamedArg(SkipQuoted(s), description)
  }

  // ---------------------------------------------------------------- parseArgsRegex

  function Words(s: string): seq<string>
    decreases |s|
  {
    var t := TrimLeft(s);
    TrimLeftShortens(s);
    if t == "" then []
    else
      var n := Run(t, c => !Space(c));
      TrimLeftStops(s);
      [t[..n]] + Words(t[n..])
  }

  lemma TrimLeftShortens(s: string)
    ensures |TrimLeft(s)| <= |s|
  {
  }

  lemma TrimLeftStops(s: string)
    ensures TrimLeft(s) != "" ==> !Space(TrimLeft(s)[0])
  {
  }

  function Spaced(words: seq<string>): string {
    if words == [] then ""
    else if |words| == 1 then words[0]
    else words[0] + " " + Spaced(words[1..])
  }

  /** The length of what `((?:[^"]|"[^"]|""[^"])*)` matches before `"""`. */
  function QuotedLength(s: string): (r: Option<nat>)
    ensures r.Some? ==> r.value + 3 <= |s|
    decreases |s|
  {
    if QUOTES <= s then Some(0)
    else
      var n := if !StartsWith(s, '"') then 1 else if |s| > 1 && s[1] != '"' then 2 else 3;
      if |s| < n then None
      else
        var r := QuotedLength(s[n..]);
        if r.Some? then Some(r.value + n) else None
  }

  function One(s: string, c: char): (n: nat)
    ensures n <= |s|
  {
    if StartsWith(s, c) then 1 else 0
  }

  /** How many characters `!?\]?!?` matches. */
  function SuffixLength(s: string): (n: nat)
    ensures n <= |s|
  {
    var bang := One(s, '!');
    var close := bang + One(s[bang..], ']');
    close + One(s[close..], '!')
  }

  /** How many characters `\[?\w+!?\]?!?` matches; 0 for no match. */
  function TypeLength(s: string): (n: nat)
    ensures n <= |s|
  {
    var open := One(s, '[');
    var word := Run(s[open..], WordChar);
    if word == 0 then 0 else open + word + SuffixLength(s[open..][word..])
  }

  /** A match of `(\w+)\s*:\s*(\[?\w+!?\]?!?)` at the start: name, type, and what follows. */
  function NamedType(s: string): (r: Option<(string, string, string)>)
    ensures r.Some? ==> |r.value.2| < |s|
  {
    var name, rest := Head(s), SkipBlank(Tail(s));
    if name == "" || !StartsWith(rest, ':') then None
    else
      var t := SkipBlank(rest[1..]);
      if TypeLength(t) == 0 then None else Some((name, t[..TypeLength(t)], t[TypeLength(t)..]))
  }

  /** The description that `(?:"""(…)"""\s+)?` matches, and what follows; None when the text then cannot match. */
  function Described(s: string): (r: Option<(string, string)>)
    ensures r.Some? ==> |r.value.1| <= |s|
  {
    if !(QUOTES <= s) then Some(("", s))
    else
      var length := QuotedLength(s[3..]);
      if length.None? then None
      else
        var rest := s[3..][length.value + 3..];
        if rest == "" || !Blank(rest[0]) then None else Some((s[3..][..length.value], SkipBlank(rest)))
  }

  /** A match of sdlArgFinder at the start of the text: the argument, and what follows it. */
  function ArgAt(s: string): (r: Option<(Arg, string)>)
    ensures r.Some? ==> |r.value.1| < |s|
  {
    var described := Described(s);
    var m := if described.Some? then NamedType(described.value.1) else None;
    if m.None? then None
    else
      var (name, kind, after) := m.value;
      Some((Arg(name, kind, Spaced(Words(Trim(described.value.0))), EndsWith(kind, "!")), after))
  }

  function ParseArgsRegex(s: string): seq<Arg>
    decreases |s|
  {
    if s == "" then []
    else
      var m := ArgAt(s);
      if m.Some? then [m.value.0] + ParseArgsRegex(m.value.1) else ParseArgsRegex(s[1..])
  }

  // ---------------------------------------------------------------- parseArgs

  /** What one part of the split list contributes. */
  function ArgsOfPart(part: string): seq<Arg> {
    var arg := if Trim(part) == "" then None else ParseOneArg(Trim(part));
    if arg.Some? then [arg.value] else []
  }

  function ArgsOf(parts: seq<string>): seq<Arg>
    decreases |parts|
  {
    if parts == [] then [] else ArgsOfPart(parts[0]) + ArgsOf(parts[1..])
  }

  function ArgsIn(argsStr: string): seq<Arg> {
    var s := Trim(argsStr);
    if s == "" then []
    else if ',' in s && ArgsOf(Parts(s)) != [] then ArgsOf(Parts(s))
    else ParseArgsRegex(s)
  }

  /** The loop over the comma-separated parts. */
  method ParseParts(parts: seq<string>) returns (args: seq<Arg>)
    ensures args == ArgsOf(parts)
  {
    args := [];
    assert parts[0..] == parts;
    for i := 0 to |parts|
      invariant args + ArgsOf(parts[i..]) == ArgsOf(parts)
    {
      NextPart(args, parts, i);
      var part := Trim(parts[i]);
      if part == "" {
        continue;
      }
      var arg := ParseOneArg(part);
      if arg.Some? {
        args := args + [arg.value];
      }
    }
  }

  lemma NextPart(args: seq<Arg>, parts: seq<string>, i: nat)
    requires i < |parts|
    ensures args + ArgsOf(parts[i..]) == (args + ArgsOfPart(parts[i])) + ArgsOf(parts[i + 1..])
    ensures args + [] == args
  {
    assert parts[i..][1..] == parts[i + 1..];
  }

  method ParseArgs(argsStr: string) returns (args: seq<Arg>)
    ensures args == ArgsIn(argsStr)
  {
    var s := Trim(argsStr);
    if s == "" {
      return [];
    }
    if ',' in s {
      var parts := SplitArgs(s);
      args := ParseParts(parts);
      if |args| > 0 {
        return;
      }
    }
    args := ParseArgsRegex(s);
  }

  // ---------------------------------------------------------------- parseFieldLine

  /** The text can be nothing but trailing directives: `(?:\s*@.*)?$`. */
  predicate OnlyDirectives(s: string) { s == "" || StartsWith(SkipBlank(s), '@') }

  /** Where the lazy `.+?` stops. */
  function TypeEnd(t: string, k: nat): (end: nat)
    requires k <= |t|
    ensures k <= end <= |t|
    decreases |t| - k
  {
    if OnlyDirectives(t[k..]) then k else TypeEnd(t, k + 1)
  }

  /** What stands between the parentheses, and what follows them; without parentheses, "". */
  function Parenthesised(s: string): Option<(string, string)> {
    if !StartsWith(s, '(') then Some(("", s))
    else
      var close := IndexOf(s[1..], ')');
      if close == |s[1..]| then None else Some((s[1..][..close], s[1..][close + 1..]))
  }

  /** A match of `\s*:\s*(.+?)(?:\s*@.*)?$`: the field's type. */
  function KindIn(after: string): Option<string> {
    var rest := SkipBlank(after);
    if !StartsWith(rest, ':') then None
    else
      var t := SkipBlank(rest[1..]);
      if t == "" then None else Some(Trim(t[..TypeEnd(t, 1)]))
  }

  function FieldIn(text: string, description: string): Option<Field> {
    var line := Trim(text);
    var name, m := Head(line), Parenthesised(SkipBlank(Tail(line)));
    if name == "" || m.None? then None
    else
      var (args, after) := m.value;
      var kind := KindIn(after);
      if kind.None? then None
      else Some(Field(name, Trim(description), kind.value, if args == "" then [] else ArgsIn(args)))
  }

  // ---------------------------------------------------------------- parseFieldsFromBlock

  datatype Scan = Scan(fields: seq<Field>, description: string, accumulated: string, inBlock: bool, depth: int)

  const START := Scan([], "", "", false, 0)

  function ParenWeight(c: char): int { if c == '(' then 1 else if c == ')' then -1 else 0 }

  function Parens(s: string): int {
    if s == "" then 0 else Parens(s[..|s| - 1]) + ParenWeight(s[|s| - 1])
  }

  function Flush(scan: Scan): Scan {
    if scan.accumulated == "" then scan
    else
      var field := FieldIn(Trim(scan.accumulated), Trim(scan.description));
      scan.(accumulated := "", description := "",
            fields := if field.Some? then scan.fields + [field.value] else scan.fields)
  }

  /** One more line of a field definition. */
  function Accumulate(scan: Scan, trimmed: string): Scan {
    var depth := scan.depth + Parens(trimmed);
    var more := scan.(accumulated := (if scan.accumulated == "" then "" else scan.accumulated + " ") + trimmed);
    if depth <= 0 then Flush(more.(depth := 0)) else more.(depth := depth)
  }

  function TrimQuotesLeft(s: string): string {
    if StartsWith(s, '"') then TrimQuotesLeft(s[1..]) else s
  }

  function TrimQuotesRight(s: string): string {
    if EndsWith(s, "\"") then TrimQuotesRight(s[..|s| - 1]) else s
  }

  function WithoutQuotes(s: string): string
    requires QUOTES <= s
  {
    var d := s[3..];
    Trim(if EndsWith(d, QUOTES) then d[..|d| - 3] else d)
  }

  function LineStep(scan: Scan, line: string): Scan {
    var trimmed := Trim(line);
    if trimmed == "" && scan.depth == 0 then scan
    else if QUOTES <= trimmed && scan.depth == 0 then
      if scan.inBlock then scan.(inBlock := false)
      else if Find(trimmed[3..], QUOTES).Some? then scan.(description := WithoutQuotes(trimmed))
      else scan.(inBlock := true, description := "")
    else if scan.inBlock then scan.(description := scan.description + trimmed + " ")
    else if StartsWith(trimmed, '"') && !("\"\"" <= trimmed) && scan.depth == 0 then
      scan.(description := TrimQuotesRight(TrimQuotesLeft(trimmed)))
    else if StartsWith(trimmed, '#') && scan.depth == 0 then scan
    else Accumulate(scan, trimmed)
  }

  function RunLines(scan: Scan, lines: seq<string>): Scan
    decreases |lines|
  {
    if lines == [] then scan else RunLines(LineStep(scan, lines[0]), lines[1..])
  }

  function FieldsIn(block: string): seq<Field> {
    Flush(RunLines(START, Lines(block))).fields
  }

  /** The end of the loop body of parseFieldsFromBlock: a line of a field definition. */
  method AccumulateLine(scan: Scan, trimmed: string) returns (next: Scan)
    ensures next == Accumulate(scan, trimmed)
  {
    next := scan;
    if next.accumulated != "" {
      next := next.(accumulated := next.accumulated + " ");
    }
    next := next.(accumulated := next.accumulated + trimmed);
    var parenDepth := scan.depth;
    for i := 0 to |trimmed|
      invariant parenDepth == scan.depth + Parens(trimmed[..i])
    {
      assert trimmed[..i + 1][..i] == trimmed[..i];
      if trimmed[i] == '(' {
        parenDepth := parenDepth + 1;
      } else if trimmed[i] == ')' {
        parenDepth := parenDepth - 1;
      }
    }
    assert trimmed[..|trimmed|] == trimmed;
    if parenDepth <= 0 {
      next := Flush(next.(depth := 0));
    } else {
      next := next.(depth := parenDepth);
    }
  }

  method ParseFieldsFromBlock(block: string) returns (fields: seq<Field>)
    ensures fields == FieldsIn(block)
  {
    var lines := Lines(block);
    var scan := START;
    for i := 0 to |lines|
      invariant RunLines(scan, lines[i..]) == RunLines(START, lines)
    {
      var trimmed := Trim(lines[i]);
      if trimmed == "" && scan.depth == 0 {
        continue;
      }
      if QUOTES <= trimmed && scan.depth == 0 {
        if scan.inBlock {
          scan := scan.(inBlock := false);
        } else if Find(trimmed[3..], QUOTES).Some? {
          scan := scan.(description := WithoutQuotes(trimmed));
        } else {
          scan := scan.(inBlock := true, description := "");
        }
        continue;
      }
      if scan.inBlock {
        scan := scan.(description := scan.description + trimmed + " ");
        continue;
      }
      if StartsWith(trimmed, '"') && !("\"\"" <= trimmed) && scan.depth == 0 {
        scan := scan.(description := TrimQuotesRight(TrimQuotesLeft(trimmed)));
        continue;
      }
      if StartsWith(trimmed, '#') && scan.depth == 0 {
        continue;
      }
      scan := AccumulateLine(scan, trimmed);
    }
    fields := Flush(scan).fields;
  }
}
