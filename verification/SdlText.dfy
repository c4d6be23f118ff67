/** Text helpers of the SDL parser: white space, runs of characters, and lines. */
module SdlText {

  /** The class \s of the regular expressions. */
  predicate Blank(c: char) { c == ' ' || c == '\t' || c == '\n' || c == '\r' || c as int == 12 }

  /** What strings.TrimSpace trims: Unicode's white space. */
  predicate Space(c: char) {
    var n := c as int;
    || Blank(c) || n == 0x0B || n == 0x85 || n == 0xA0 || n == 0x1680 || 0x2000 <= n <= 0x200A
    || n == 0x2028 || n == 0x2029 || n == 0x202F || n == 0x205F || n == 0x3000
  }

  /** The class \w. */
  predicate WordChar(c: char) {
    '0' <= c <= '9' || 'A' <= c <= 'Z' || 'a' <= c <= 'z' || c == '_'
  }

  predicate AllBlank(s: string) { forall c | c in s :: Blank(c) }

  predicate IsWord(s: string) { s != "" && forall c | c in s :: WordChar(c) }

  /** Starts and ends with something other than white space. */
  predicate Solid(s: string) { s != "" && !Space(s[0]) && !Space(s[|s| - 1]) }

  predicate StartsSolid(s: string) { s != "" && !Space(s[0]) }

  // ---------------------------------------------------------------- Trimming

  function TrimLeft(s: string): string {
    if s != "" && Space(s[0]) then TrimLeft(s[1..]) else s
  }

  function TrimRight(s: string): string {
    if s != "" && Space(s[|s| - 1]) then TrimRight(s[..|s| - 1]) else s
  }

  function Trim(s: string): string { TrimRight(TrimLeft(s)) }

  lemma {:induction false} TrimLeftDrops(gap: string, s: string)
    requires AllBlank(gap)
    ensures TrimLeft(gap + s) == TrimLeft(s)
    decreases |gap|
  {
    if gap == "" {
      assert gap + s == s;
    } else {
      assert gap[0] in gap && (gap + s)[1..] == gap[1..] + s;
      TrimLeftDrops(gap[1..], s);
    }
  }

  lemma {:induction false} TrimRightDrops(s: string, gap: string)
    requires AllBlank(gap)
    ensures TrimRight(s + gap) == TrimRight(s)
    decreases |gap|
  {
    if gap == "" {
      assert s + gap == s;
    } else {
      assert gap[|gap| - 1] in gap && (s + gap)[..|s + gap| - 1] == s + gap[..|gap| - 1];
      TrimRightDrops(s, gap[..|gap| - 1]);
    }
  }

  /** White space around a solid text is trimmed, and nothing else. */
  lemma TrimSolid(before: string, s: string, after: string)
    requires AllBlank(before) && AllBlank(after) && Solid(s)
    ensures Trim(before + (s + after)) == s
  {
    TrimLeftDrops(before, s + after);
    TrimRightDrops(s, after);
  }

  lemma TrimBlank(gap: string)
    requires AllBlank(gap)
    ensures Trim(gap) == ""
  {
    TrimLeftDrops(gap, "");
    assert gap + "" == gap;
  }

  /** Trimming a text that starts solid only cuts its end. */
  lemma {:induction false} TrimRightOfConcat(s: string, t: string)
    requires StartsSolid(t)
    ensures TrimRight(s + t) == s + TrimRight(t) && StartsSolid(TrimRight(t))
    decreases |t|
  {
    if Space(t[|t| - 1]) {
      assert (s + t)[..|s + t| - 1] == s + t[..|t| - 1];
      TrimRightOfConcat(s, t[..|t| - 1]);
    }
  }

  // ---------------------------------------------------------------- Runs of characters

  /** The length of the longest prefix whose characters all satisfy `p`. */
  function Run(s: string, p: char -> bool): (n: nat)
    ensures n <= |s|
  {
    if s != "" && p(s[0]) then 1 + Run(s[1..], p) else 0
  }

  lemma {:induction false} RunIs(s: string, rest: string, p: char -> bool)
    requires forall c | c in s :: p(c)
    requires rest == "" || !p(rest[0])
    ensures Run(s + rest, p) == |s| && (s + rest)[|s|..] == rest && (s + rest)[..|s|] == s
    decreases |s|
  {
    if s == "" {
      assert s + rest == rest;
    } else {
      assert s[0] in s && (s + rest)[1..] == s[1..] + rest;
      RunIs(s[1..], rest, p);
    }
  }

  function SkipBlank(s: string): string { s[Run(s, Blank)..] }

  lemma SkipGap(gap: string, rest: string)
    requires AllBlank(gap) && (rest == "" || !Blank(rest[0]))
    ensures SkipBlank(gap + rest) == rest
  {
    RunIs(gap, rest, Blank);
  }

  function IndexOf(s: string, c: char): (i: nat)
    ensures i <= |s| && (i < |s| ==> s[i] == c)
  {
    if s == "" || s[0] == c then 0 else 1 + IndexOf(s[1..], c)
  }

  lemma {:induction false} IndexOfIs(s: string, rest: string, c: char)
    requires c !in s && (rest == "" || rest[0] == c)
    ensures IndexOf(s + rest, c) == |s| && (s + rest)[..|s|] == s && (s + rest)[|s|..] == rest
    decreases |s|
  {
    if s == "" {
      assert s + rest == rest;
    } else {
      assert s[0] in s && (s + rest)[1..] == s[1..] + rest;
      IndexOfIs(s[1..], rest, c);
    }
  }

  lemma {:induction false} BeforeIndex(s: string, c: char)
    ensures c !in s[..IndexOf(s, c)]
    ensures IndexOf(s, c) == |s| <==> c !in s
  {
    if s != "" && s[0] != c {
      BeforeIndex(s[1..], c);
      assert s[..IndexOf(s, c)] == [s[0]] + s[1..][..IndexOf(s[1..], c)];
      assert s == [s[0]] + s[1..];
    }
  }

  // ---------------------------------------------------------------- Lines

  function Lines(text: string): (lines: seq<string>)
    ensures lines != []
    decreases |text|
  {
    var i := IndexOf(text, '\n');
    if i == |text| then [text] else [text[..i]] + Lines(text[i + 1..])
  }

  /** The trimmed lines of a text, joined by single spaces. */
  function Rejoin(text: string): string
    decreases |text|
  {
    var i := IndexOf(text, '\n');
    if i == |text| then Trim(text) else Trim(text[..i]) + (" " + Rejoin(text[i + 1..]))
  }

  lemma RejoinLine(line: string, rest: string)
    requires '\n' !in line
    ensures Rejoin(line + ("\n" + rest)) == Trim(line) + (" " + Rejoin(rest))
    ensures Rejoin(line) == Trim(line)
  {
    IndexOfIs(line, "\n" + rest, '\n');
    IndexOfIs(line, "", '\n');
    assert line + "" == line;
    var text := line + ("\n" + rest);
    assert text[|line| + 1..] == rest;
  }

  /** What joining the lines makes of a gap: a line break becomes a space, what surrounds it goes. */
  function Squash(gap: string): (r: string)
    decreases |gap|
  {
    var i := IndexOf(gap, '\n');
    if i == |gap| then gap else " " + After(gap[i + 1..])
  }

  /** The same for a gap at the start of a line. */
  function After(gap: string): (r: string)
    decreases |gap|
  {
    var i := IndexOf(gap, '\n');
    if i == |gap| then "" else " " + After(gap[i + 1..])
  }

  lemma {:induction false} AfterIsBlank(gap: string)
    ensures AllBlank(After(gap))
    decreases |gap|
  {
    var i := IndexOf(gap, '\n');
    if i < |gap| {
      AfterIsBlank(gap[i + 1..]);
    }
  }

  lemma SquashIsBlank(gap: string)
    requires AllBlank(gap)
    ensures AllBlank(Squash(gap)) && (Squash(gap) == "" <==> gap == "") && '\n' !in Squash(gap)
  {
    BeforeIndex(gap, '\n');
    var i := IndexOf(gap, '\n');
    if i < |gap| {
      AfterIsBlank(gap[i + 1..]);
      AfterHasNoBreak(gap[i + 1..]);
    }
  }

  lemma {:induction false} AfterHasNoBreak(gap: string)
    ensures '\n' !in After(gap)
    decreases |gap|
  {
    var i := IndexOf(gap, '\n');
    if i < |gap| {
      AfterHasNoBreak(gap[i + 1..]);
    }
  }

  /** A gap at the start of a text. */
  lemma {:induction false} RejoinAfter(gap: string, rest: string)
    requires AllBlank(gap) && StartsSolid(rest)
    ensures Rejoin(gap + rest) == After(gap) + Rejoin(rest)
    decreases |gap|
  {
    var i := IndexOf(gap, '\n');
    BeforeIndex(gap, '\n');
    if i == |gap| {
      RejoinLeading(gap, rest);
      assert After(gap) + Rejoin(rest) == Rejoin(rest);
    } else {
      RejoinAfter(gap[i + 1..], rest);
      RejoinBreak(gap[..i], gap[i + 1..], rest);
      GapAtBreak(gap, i, rest);
    }
  }

  lemma GapAtBreak(gap: string, i: nat, rest: string)
    requires i < |gap| && gap[i] == '\n'
    ensures gap + rest == gap[..i] + ("\n" + (gap[i + 1..] + rest))
  {
  }

  lemma RejoinBreak(front: string, back: string, rest: string)
    requires AllBlank(front) && '\n' !in front && Rejoin(back + rest) == After(back) + Rejoin(rest)
    ensures Rejoin(front + ("\n" + (back + rest))) == (" " + After(back)) + Rejoin(rest)
  {
    TrimBlank(front);
    RejoinLine(front, back + rest);
    assert "" + (" " + (After(back) + Rejoin(rest))) == (" " + After(back)) + Rejoin(rest);
  }

  /** White space at the start of the first line is trimmed. */
  lemma RejoinLeading(gap: string, rest: string)
    requires AllBlank(gap) && '\n' !in gap
    ensures Rejoin(gap + rest) == Rejoin(rest)
  {
    if '\n' in rest {
      var line, back := FirstLine(rest);
      Assoc(gap, line, "\n" + back);
      RejoinLine(gap + line, back);
      RejoinLine(line, back);
      TrimLeftDrops(gap, line);
    } else {
      RejoinLine(gap + rest, "");
      RejoinLine(rest, "");
      TrimLeftDrops(gap, rest);
    }
  }

  lemma Assoc(a: string, b: string, c: string)
    ensures (a + b) + c == a + (b + c)
  {
  }

  lemma TrimOfConcat(start: string, line: string)
    requires StartsSolid(start) && StartsSolid(line)
    ensures Trim(start + line) == start + Trim(line)
  {
    TrimRightOfConcat(start, line);
  }

  /** The first line of a text, and what follows the line break. */
  lemma FirstLine(text: string) returns (line: string, back: string)
    requires '\n' in text
    ensures '\n' !in line && text == line + ("\n" + back)
    ensures StartsSolid(text) ==> StartsSolid(line)
  {
    var i := IndexOf(text, '\n');
    BeforeIndex(text, '\n');
    line, back := text[..i], text[i + 1..];
    if StartsSolid(text) {
      assert text[0] != '\n';
      assert line[0] == text[0];
    }
  }

  lemma RejoinFirstLine(start: string, rest: string)
    requires StartsSolid(start) && '\n' !in start && StartsSolid(rest)
    ensures Rejoin(start + rest) == start + Rejoin(rest)
  {
    if '\n' in rest {
      var line, back := FirstLine(rest);
      Assoc(start, line, "\n" + back);
      RejoinLine(start + line, back);
      RejoinLine(line, back);
      TrimOfConcat(start, line);
      Assoc(start, Trim(line), " " + Rejoin(back));
    } else {
      RejoinLine(start + rest, "");
      RejoinLine(rest, "");
      TrimOfConcat(start, rest);
    }
  }

  lemma SquashOfLine(front: string, back: string)
    requires '\n' !in front
    ensures Squash(front + ("\n" + back)) == " " + After(back)
  {
    IndexOfIs(front, "\n" + back, '\n');
    assert (front + ("\n" + back))[|front| + 1..] == back;
  }

  lemma TokenBreaks(token: string, front: string, back: string, rest: string)
    requires Solid(token) && '\n' !in token && AllBlank(front) && '\n' !in front && AllBlank(back) && StartsSolid(rest)
    ensures Rejoin((token + front) + ("\n" + (back + rest))) == token + ((" " + After(back)) + Rejoin(rest))
  {
    assert "" + (token + front) == token + front;
    TrimSolid("", token, front);
    RejoinLine(token + front, back + rest);
    RejoinAfter(back, rest);
    Assoc(" ", After(back), Rejoin(rest));
  }

  /** A token without line breaks at the start of a text stays as it is, before whatever follows it. */
  lemma RejoinToken(token: string, gap: string, rest: string)
    requires Solid(token) && '\n' !in token && AllBlank(gap) && StartsSolid(rest)
    ensures Rejoin(token + (gap + rest)) == token + (Squash(gap) + Rejoin(rest))
  {
    if '\n' in gap {
      var front, back := FirstLine(gap);
      TokenBreaks(token, front, back, rest);
      SquashOfLine(front, back);
      Assoc(front, "\n" + back, rest);
      Assoc("\n", back, rest);
      Assoc(token, front, "\n" + (back + rest));
    } else {
      BeforeIndex(gap, '\n');
      Assoc(token, gap, rest);
      RejoinFirstLine(token + gap, rest);
      Assoc(token, gap, Rejoin(rest));
    }
  }
}
