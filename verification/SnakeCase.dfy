/**
 * The name normaliser toSnakeCase (cmd/fetchactions-oas3/naming.go), one function for each of its
 * passes. Unicode's character classes are a parameter: the result depends on them only through the
 * facts of `Standard`.
 */
module SnakeCase {

  datatype Classes = Classes(upper: char -> bool, lower: char -> bool, digit: char -> bool, toLower: char -> char)

  predicate AsciiUpper(c: char) { 'A' <= c <= 'Z' }

  predicate AsciiLower(c: char) { 'a' <= c <= 'z' }

  predicate AsciiDigit(c: char) { '0' <= c <= '9' }

  predicate AlphaNum(c: char) { AsciiUpper(c) || AsciiLower(c) || AsciiDigit(c) }

  /** A letter of a finished key; between them stand single underscores. */
  predicate KeyChar(c: char) { AsciiLower(c) || AsciiDigit(c) }

  /** On ASCII the classes are the usual ones, and lower-casing never yields an ASCII capital. */
  ghost predicate Standard(u: Classes) {
    && (forall c | c as int < 128 ::
          u.upper(c) == AsciiUpper(c) && (u.toLower(c) == c || AsciiUpper(c)))
    && (forall c :: !AsciiUpper(u.toLower(c)))
  }

  // ---------------------------------------------------------------- The passes

  function Underscore(b: bool): string { if b then "_" else "" }

  function Separator(c: char): char {
    if c == '/' || c == '-' || c == '.' then '_' else c
  }

  function ReplaceSeparators(s: string): string {
    if s == "" then "" else [Separator(s[0])] + ReplaceSeparators(s[1..])
  }

  /** Whether an underscore goes in front of the capital at `i`. */
  predicate Breaks(u: Classes, s: string, i: nat)
    requires i < |s|
  {
    u.upper(s[i]) && i > 0 &&
    (|| u.lower(s[i - 1]) || u.digit(s[i - 1])
     || (u.upper(s[i - 1]) && i + 1 < |s| && u.lower(s[i + 1])))
  }

  /** The first `n` characters, split at capitals and lower-cased. */
  function Split(u: Classes, s: string, n: nat): string
    requires n <= |s|
  {
    if n == 0 then ""
    else Split(u, s, n - 1) + Underscore(Breaks(u, s, n - 1)) + [u.toLower(s[n - 1])]
  }

  method SplitCamelCase(u: Classes, s: string) returns (r: string)
    ensures r == Split(u, s, |s|)
  {
    r := "";
    for i := 0 to |s|
      invariant r == Split(u, s, i)
    {
      if u.upper(s[i]) && i > 0 {
        var prev := s[i - 1];
        if u.lower(prev) || u.digit(prev) {
          r := r + "_";
        } else if u.upper(prev) && i + 1 < |s| && u.lower(s[i + 1]) {
          r := r + "_";
        }
      }
      r := r + [u.toLower(s[i])];
    }
  }

  /** Each run of characters outside [a-zA-Z0-9] becomes one underscore; `inRun`: one has been written. */
  function Collapse(s: string, inRun: bool): string {
    if s == "" then ""
    else if AlphaNum(s[0]) then [s[0]] + Collapse(s[1..], false)
    else (if inRun then "" else "_") + Collapse(s[1..], true)
  }

  function TrimLeft(s: string): string {
    if s != "" && s[0] == '_' then TrimLeft(s[1..]) else s
  }

  function TrimRight(s: string): string {
    if s != "" && s[|s| - 1] == '_' then TrimRight(s[..|s| - 1]) else s
  }

  function ToSnakeCase(u: Classes, s: string): string {
    var separated := ReplaceSeparators(s);
    TrimRight(TrimLeft(Collapse(Split(u, separated, |separated|), false)))
  }

  // ---------------------------------------------------------------- What a key looks like

  predicate SingleUnderscores(s: string) {
    forall i | 0 < i < |s| :: s[i] != '_' || s[i - 1] != '_'
  }

  ghost predicate IsKey(s: string) {
    && (forall c | c in s :: KeyChar(c) || c == '_')
    && SingleUnderscores(s)
    && (s != "" ==> s[0] != '_' && s[|s| - 1] != '_')
  }

  lemma {:induction false} SplitHasNoCapitals(u: Classes, s: string, n: nat)
    requires Standard(u) && n <= |s|
    ensures forall c | c in Split(u, s, n) :: !AsciiUpper(c)
  {
    if n > 0 {
      SplitHasNoCapitals(u, s, n - 1);
    }
  }

  lemma {:induction false} CollapseIsTidy(s: string, inRun: bool)
    requires forall c | c in s :: !AsciiUpper(c)
    ensures forall c | c in Collapse(s, inRun) :: KeyChar(c) || c == '_'
    ensures SingleUnderscores(Collapse(s, inRun))
    ensures inRun && Collapse(s, inRun) != "" ==> Collapse(s, inRun)[0] != '_'
  {
    if s != "" {
      CollapseIsTidy(s[1..], !AlphaNum(s[0]));
    }
  }

  lemma {:induction false} TrimLeftKeeps(s: string)
    ensures exists n | 0 <= n <= |s| :: TrimLeft(s) == s[n..]
    ensures TrimLeft(s) != "" ==> TrimLeft(s)[0] != '_'
  {
    if s != "" && s[0] == '_' {
      TrimLeftKeeps(s[1..]);
      var n :| 0 <= n <= |s| - 1 && TrimLeft(s[1..]) == s[1..][n..];
      assert TrimLeft(s) == s[n + 1..];
    } else {
      assert s == s[0..];
    }
  }

  lemma {:induction false} TrimRightKeeps(s: string)
    ensures exists n | 0 <= n <= |s| :: TrimRight(s) == s[..n]
    ensures TrimRight(s) != "" ==> TrimRight(s)[|TrimRight(s)| - 1] != '_'
  {
    if s != "" && s[|s| - 1] == '_' {
      TrimRightKeeps(s[..|s| - 1]);
      var n :| 0 <= n <= |s| - 1 && TrimRight(s[..|s| - 1]) == s[..|s| - 1][..n];
      assert TrimRight(s) == s[..n];
    } else {
      assert s == s[..|s|];
    }
  }

  /** Every result is a key: over [a-z0-9_], without a leading, trailing or doubled underscore. */
  lemma ResultIsKey(u: Classes, s: string)
    requires Standard(u)
    ensures IsKey(ToSnakeCase(u, s))
  {
    var separated := ReplaceSeparators(s);
    var split := Split(u, separated, |separated|);
    SplitHasNoCapitals(u, separated, |separated|);
    CollapseIsTidy(split, false);
    TrimLeftKeeps(Collapse(split, false));
    TrimRightKeeps(TrimLeft(Collapse(split, false)));
  }

  // ---------------------------------------------------------------- Keys are fixed points

  lemma {:induction false} SeparatorsKeepKeys(s: string)
    requires forall c | c in s :: KeyChar(c) || c == '_'
    ensures ReplaceSeparators(s) == s
  {
    if s != "" {
      assert s[0] in s && s == [s[0]] + s[1..];
      SeparatorsKeepKeys(s[1..]);
    }
  }

  lemma {:induction false} SplitKeepsKeys(u: Classes, s: string, n: nat)
    requires Standard(u) && n <= |s|
    requires forall c | c in s :: KeyChar(c) || c == '_'
    ensures Split(u, s, n) == s[..n]
  {
    if n > 0 {
      SplitKeepsKeys(u, s, n - 1);
      assert s[n - 1] in s;
      assert s[..n] == s[..n - 1] + [s[n - 1]];
    }
  }

  lemma {:induction false} CollapseKeepsKeys(s: string, inRun: bool)
    requires (forall c | c in s :: KeyChar(c) || c == '_') && SingleUnderscores(s)
    requires inRun && s != "" ==> s[0] != '_'
    ensures Collapse(s, inRun) == s
  {
    if s != "" {
      assert SingleUnderscores(s[1..]);
      assert s[0] in s;
      CollapseKeepsKeys(s[1..], s[0] == '_');
    }
  }

  /** The keys are exactly the fixed points. */
  lemma KeysAreFixedPoints(u: Classes, s: string)
    requires Standard(u)
    ensures ToSnakeCase(u, s) == s <==> IsKey(s)
  {
    ResultIsKey(u, s);
    if IsKey(s) {
      SeparatorsKeepKeys(s);
      SplitKeepsKeys(u, s, |s|);
      assert s[..|s|] == s;
      CollapseKeepsKeys(s, false);
    }
  }

  /** Normalising twice is normalising once. */
  lemma Idempotent(u: Classes, s: string)
    requires Standard(u)
    ensures ToSnakeCase(u, ToSnakeCase(u, s)) == ToSnakeCase(u, s)
  {
    ResultIsKey(u, s);
    KeysAreFixedPoints(u, ToSnakeCase(u, s));
  }

  // ---------------------------------------------------------------- Nothing else is lost

  /** The letters and digits of a text, in order. */
  function Kept(s: string): string {
    if s == "" then "" else Kept(s[..|s| - 1]) + (if AlphaNum(s[|s| - 1]) then [s[|s| - 1]] else "")
  }

  lemma {:induction false} KeptOfConcat(s: string, t: string)
    ensures Kept(s + t) == Kept(s) + Kept(t)
    decreases |t|
  {
    if t == "" {
      assert s + t == s;
    } else {
      assert (s + t)[..|s + t| - 1] == s + t[..|t| - 1];
      KeptOfConcat(s, t[..|t| - 1]);
    }
  }

  function Lowered(u: Classes, s: string): string {
    seq(|s|, i requires 0 <= i < |s| => u.toLower(s[i]))
  }

  lemma LoweredOneMore(u: Classes, s: string, n: nat)
    requires 0 < n <= |s|
    ensures Lowered(u, s[..n]) == Lowered(u, s[..n - 1]) + [u.toLower(s[n - 1])]
  {
  }

  lemma KeptOneMore(front: string, gap: bool, x: char)
    ensures Kept(front + Underscore(gap) + [x]) == Kept(front + [x])
  {
    KeptOfConcat(front, Underscore(gap));
    KeptOfConcat(front + Underscore(gap), [x]);
    KeptOfConcat(front, [x]);
    assert Kept(Underscore(gap)) == "";
  }

  lemma {:induction false} SplitKeepsLetters(u: Classes, s: string, n: nat)
    requires n <= |s|
    ensures Kept(Split(u, s, n)) == Kept(Lowered(u, s[..n]))
  {
    if n > 0 {
      var x := u.toLower(s[n - 1]);
      SplitKeepsLetters(u, s, n - 1);
      KeptOneMore(Split(u, s, n - 1), Breaks(u, s, n - 1), x);
      KeptOfConcat(Split(u, s, n - 1), [x]);
      KeptOfConcat(Lowered(u, s[..n - 1]), [x]);
      LoweredOneMore(u, s, n);
    }
  }

  lemma {:induction false} CollapseKeepsLetters(s: string, inRun: bool)
    ensures Kept(Collapse(s, inRun)) == Kept(s)
  {
    if s != "" {
      var first := if AlphaNum(s[0]) then [s[0]] else if inRun then "" else "_";
      CollapseKeepsLetters(s[1..], !AlphaNum(s[0]));
      KeptOfConcat(first, Collapse(s[1..], !AlphaNum(s[0])));
      KeptOfConcat([s[0]], s[1..]);
      assert s == [s[0]] + s[1..];
    }
  }

  lemma {:induction false} TrimKeepsLetters(s: string)
    ensures Kept(TrimLeft(s)) == Kept(s) && Kept(TrimRight(s)) == Kept(s)
  {
    if s != "" {
      TrimKeepsLetters(s[1..]);
      TrimKeepsLetters(s[..|s| - 1]);
      KeptOfConcat([s[0]], s[1..]);
      assert s == [s[0]] + s[1..];
    }
  }

  lemma {:induction false} SeparatorsKeepLetters(u: Classes, s: string)
    requires Standard(u)
    ensures Kept(Lowered(u, ReplaceSeparators(s))) == Kept(Lowered(u, s))
  {
    if s != "" {
      var c, rest := Separator(s[0]), ReplaceSeparators(s[1..]);
      SeparatorsKeepLetters(u, s[1..]);
      assert Lowered(u, [c] + rest) == [u.toLower(c)] + Lowered(u, rest);
      assert Lowered(u, s) == [u.toLower(s[0])] + Lowered(u, s[1..]);
      KeptOfConcat([u.toLower(c)], Lowered(u, rest));
      KeptOfConcat([u.toLower(s[0])], Lowered(u, s[1..]));
    }
  }

  /** The key holds the lower-cased letters and digits of the input, all of them and in order. */
  lemma LettersSurvive(u: Classes, s: string)
    requires Standard(u)
    ensures Kept(ToSnakeCase(u, s)) == Kept(Lowered(u, s))
  {
    var separated := ReplaceSeparators(s);
    var split := Split(u, separated, |separated|);
    TrimKeepsLetters(TrimLeft(Collapse(split, false)));
    TrimKeepsLetters(Collapse(split, false));
    CollapseKeepsLetters(split, false);
    SplitKeepsLetters(u, separated, |separated|);
    assert separated[..|separated|] == separated;
    SeparatorsKeepLetters(u, s);
  }

  // ---------------------------------------------------------------- Where the underscores are

  lemma {:induction false} SeparatedAt(s: string, i: nat)
    requires i < |s|
    ensures |ReplaceSeparators(s)| == |s| && ReplaceSeparators(s)[i] == Separator(s[i])
  {
    if i == 0 {
      SeparatedLength(s);
    } else {
      SeparatedAt(s[1..], i - 1);
    }
  }

  lemma {:induction false} SeparatedLength(s: string)
    ensures |ReplaceSeparators(s)| == |s|
  {
    if s != "" {
      SeparatedLength(s[1..]);
    }
  }

  /** The character at `i` leaves a letter or digit in the key. */
  predicate Leaves(u: Classes, t: string, i: nat)
    requires i < |t|
  {
    AlphaNum(u.toLower(t[i]))
  }

  /** Positions of the text, in order. */
  predicate Rising(t: string, at: seq<nat>) {
    (forall n | 0 <= n < |at| :: at[n] < |t|) && forall m, n | 0 <= m < n < |at| :: at[m] < at[n]
  }

  /** `at` are the positions that leave a letter, in order. */
  ghost predicate AreLetters(u: Classes, t: string, at: seq<nat>) {
    && Rising(t, at)
    && (forall n | 0 <= n < |at| :: Leaves(u, t, at[n]))
    && (forall i: nat | i < |t| && Leaves(u, t, i) :: i in at)
  }

  /** Two neighbouring letters are kept apart: something was dropped between them, or a word starts. */
  predicate Apart(u: Classes, t: string, i: nat, j: nat)
    requires i < j < |t|
  {
    j > i + 1 || Breaks(u, t, j)
  }

  /** Where the `n`-th letter stands when those kept apart have one character between them. */
  function Place(u: Classes, t: string, at: seq<nat>, n: nat): nat
    requires Rising(t, at) && n < |at|
  {
    if n == 0 then 0 else Place(u, t, at, n - 1) + (if Apart(u, t, at[n - 1], at[n]) then 2 else 1)
  }

  /** The key `r` holds the `n`-th letter in its place, an underscore behind it if the next one is kept
      apart, and nothing behind the last one. */
  predicate Placed(u: Classes, t: string, at: seq<nat>, r: string, n: nat)
    requires Rising(t, at) && n < |at|
  {
    var place := Place(u, t, at, n);
    && place < |r| && r[place] == u.toLower(t[at[n]])
    && (if n == |at| - 1 then |r| == place + 1
        else Apart(u, t, at[n], at[n + 1]) ==> place + 1 < |r| && r[place + 1] == '_')
  }

  function LettersFrom(u: Classes, t: string, i: nat): (at: seq<nat>)
    requires i <= |t|
    ensures Rising(t, at) && (at != [] ==> i <= at[0])
    decreases |t| - i
  {
    if i == |t| then []
    else if Leaves(u, t, i) then [i] + LettersFrom(u, t, i + 1)
    else LettersFrom(u, t, i + 1)
  }

  lemma {:induction false} LetterLeaves(u: Classes, t: string, i: nat, n: nat)
    requires i <= |t| && n < |LettersFrom(u, t, i)|
    ensures Leaves(u, t, LettersFrom(u, t, i)[n])
    decreases |t| - i
  {
    if !Leaves(u, t, i) {
      LetterLeaves(u, t, i + 1, n);
    } else if n > 0 {
      LetterLeaves(u, t, i + 1, n - 1);
    }
  }

  lemma {:induction false} LetterIsListed(u: Classes, t: string, i: nat, k: nat)
    requires i <= k < |t| && Leaves(u, t, k)
    ensures k in LettersFrom(u, t, i)
    decreases k - i
  {
    if i < k {
      LetterIsListed(u, t, i + 1, k);
    }
  }

  lemma LettersFromAreLetters(u: Classes, t: string)
    ensures AreLetters(u, t, LettersFrom(u, t, 0))
  {
    forall n: nat | n < |LettersFrom(u, t, 0)| ensures Leaves(u, t, LettersFrom(u, t, 0)[n]) {
      LetterLeaves(u, t, 0, n);
    }
    forall k: nat | k < |t| && Leaves(u, t, k) ensures k in LettersFrom(u, t, 0) {
      LetterIsListed(u, t, 0, k);
    }
  }

  /** The letters at these positions, with an underscore between those kept apart. */
  function Joined(u: Classes, t: string, at: seq<nat>): string
    requires Rising(t, at)
  {
    if at == [] then "" else JoinedHead(u, t, at) + Joined(u, t, at[1..])
  }

  /** The first letter, and the underscore behind it. */
  function JoinedHead(u: Classes, t: string, at: seq<nat>): string
    requires Rising(t, at) && at != []
  {
    [u.toLower(t[at[0]])] + Underscore(|at| > 1 && Apart(u, t, at[0], at[1]))
  }

  /** What the camel-case split makes of the text from position `i` on. */
  function SplitFrom(u: Classes, t: string, i: nat): string
    requires i <= |t|
    decreases |t| - i
  {
    if i == |t| then "" else Underscore(Breaks(u, t, i)) + ([u.toLower(t[i])] + SplitFrom(u, t, i + 1))
  }

  lemma {:induction false} SplitInTwo(u: Classes, t: string, n: nat)
    requires n <= |t|
    ensures Split(u, t, |t|) == Split(u, t, n) + SplitFrom(u, t, n)
    decreases |t| - n
  {
    if n < |t| {
      SplitInTwo(u, t, n + 1);
      var gap := Underscore(Breaks(u, t, n));
      assert (Split(u, t, n) + gap + [u.toLower(t[n])]) + SplitFrom(u, t, n + 1)
          == Split(u, t, n) + (gap + ([u.toLower(t[n])] + SplitFrom(u, t, n + 1)));
    } else {
      assert Split(u, t, n) + "" == Split(u, t, n);
    }
  }

  /** Something stands before the first letter. */
  predicate Leads(u: Classes, t: string, i: nat, inRun: bool)
    requires i <= |t|
  {
    var at := LettersFrom(u, t, i);
    at != [] && !inRun && (at[0] > i || Breaks(u, t, at[0]))
  }

  /** Something stands behind the last one. */
  predicate Trails(u: Classes, t: string, i: nat, inRun: bool)
    requires i <= |t|
  {
    var at := LettersFrom(u, t, i);
    if at == [] then i < |t| && !inRun else at[|at| - 1] + 1 < |t|
  }

  lemma CollapseLetter(gap: bool, x: char, rest: string, inRun: bool)
    requires AlphaNum(x)
    ensures Collapse(Underscore(gap) + ([x] + rest), inRun) == Underscore(gap && !inRun) + ([x] + Collapse(rest, false))
  {
    assert ([x] + rest)[1..] == rest;
    if gap {
      assert ("_" + ([x] + rest))[1..] == [x] + rest;
    } else {
      assert "" + ([x] + rest) == [x] + rest;
    }
  }

  lemma CollapseOther(gap: bool, x: char, rest: string, inRun: bool)
    requires !AlphaNum(x)
    ensures Collapse(Underscore(gap) + ([x] + rest), inRun) == Underscore(!inRun) + Collapse(rest, true)
  {
    assert ([x] + rest)[1..] == rest;
    if gap {
      assert ("_" + ([x] + rest))[1..] == [x] + rest;
    } else {
      assert "" + ([x] + rest) == [x] + rest;
    }
  }

  lemma {:induction false} CollapseJoins(u: Classes, t: string, i: nat, inRun: bool)
    requires i <= |t|
    ensures
      Collapse(SplitFrom(u, t, i), inRun)
      == Underscore(Leads(u, t, i, inRun))
         + (Joined(u, t, LettersFrom(u, t, i)) + Underscore(Trails(u, t, i, inRun)))
    decreases |t| - i
  {
    if i < |t| {
      var x, rest := u.toLower(t[i]), SplitFrom(u, t, i + 1);
      if Leaves(u, t, i) {
        CollapseLetter(Breaks(u, t, i), x, rest, inRun);
        CollapseJoins(u, t, i + 1, false);
        JoinOneMore(u, t, i, inRun);
      } else {
        CollapseOther(Breaks(u, t, i), x, rest, inRun);
        CollapseJoins(u, t, i + 1, true);
        DropOneMore(u, t, i, inRun);
      }
    }
  }

  lemma DropOneMore(u: Classes, t: string, i: nat, inRun: bool)
    requires i < |t| && !Leaves(u, t, i)
    ensures
      var joined := Joined(u, t, LettersFrom(u, t, i + 1));
      Underscore(!inRun) + (Underscore(Leads(u, t, i + 1, true)) + (joined + Underscore(Trails(u, t, i + 1, true))))
        == Underscore(Leads(u, t, i, inRun))
           + (Joined(u, t, LettersFrom(u, t, i)) + Underscore(Trails(u, t, i, inRun)))
  {
    var at := LettersFrom(u, t, i + 1);
    if at == [] {
      NothingJoined(!inRun);
    } else {
      NothingBetween(Underscore(!inRun), Joined(u, t, at) + Underscore(Trails(u, t, i, inRun)));
    }
  }

  lemma NothingJoined(b: bool)
    ensures Underscore(b) + ("" + ("" + "")) == "" + ("" + Underscore(b))
  {
  }

  lemma NothingBetween(a: string, b: string)
    ensures a + ("" + b) == a + b
  {
  }

  lemma JoinOneMore(u: Classes, t: string, i: nat, inRun: bool)
    requires i < |t| && Leaves(u, t, i)
    ensures
      var more := LettersFrom(u, t, i + 1);
      Underscore(Breaks(u, t, i) && !inRun)
        + ([u.toLower(t[i])]
           + (Underscore(Leads(u, t, i + 1, false)) + (Joined(u, t, more) + Underscore(Trails(u, t, i + 1, false)))))
        == Underscore(Leads(u, t, i, inRun))
           + (Joined(u, t, LettersFrom(u, t, i)) + Underscore(Trails(u, t, i, inRun)))
  {
    var more := LettersFrom(u, t, i + 1);
    JoinedFrom(u, t, i, inRun);
    Regroup([u.toLower(t[i])], Underscore(Leads(u, t, i + 1, false)), Joined(u, t, more),
            Underscore(Trails(u, t, i, inRun)));
  }

  lemma Regroup(a: string, b: string, c: string, d: string)
    ensures ((a + b) + c) + d == a + (b + (c + d))
  {
  }

  /** One more letter in front. */
  lemma JoinedFrom(u: Classes, t: string, i: nat, inRun: bool)
    requires i < |t| && Leaves(u, t, i)
    ensures Joined(u, t, LettersFrom(u, t, i))
         == ([u.toLower(t[i])] + Underscore(Leads(u, t, i + 1, false))) + Joined(u, t, LettersFrom(u, t, i + 1))
    ensures Leads(u, t, i, inRun) == (Breaks(u, t, i) && !inRun)
    ensures Trails(u, t, i, inRun) == Trails(u, t, i + 1, false)
  {
    var at, more := LettersFrom(u, t, i), LettersFrom(u, t, i + 1);
    assert at[1..] == more;
    assert more != [] ==> at[1] == more[0] && at[|at| - 1] == more[|more| - 1];
  }

  lemma TrimLead(lead: bool, s: string)
    requires s != "" && s[0] != '_'
    ensures TrimLeft(Underscore(lead) + s) == s
  {
    if lead {
      assert ("_" + s)[1..] == s;
    } else {
      assert "" + s == s;
    }
  }

  lemma TrimTrail(r: string, trail: bool)
    requires r != "" && r[|r| - 1] != '_'
    ensures TrimRight(r + Underscore(trail)) == r
  {
    if trail {
      assert (r + "_")[..|r|] == r;
    } else {
      assert r + "" == r;
    }
  }

  lemma TrimBoth(lead: bool, r: string, trail: bool)
    requires r != "" && r[0] != '_' && r[|r| - 1] != '_'
    ensures TrimRight(TrimLeft(Underscore(lead) + (r + Underscore(trail)))) == r
  {
    TrimLead(lead, r + Underscore(trail));
    TrimTrail(r, trail);
  }

  lemma TrimNothing(trail: bool)
    ensures TrimRight(TrimLeft("" + ("" + Underscore(trail)))) == ""
  {
    var s := "" + ("" + Underscore(trail));
    assert s == Underscore(trail);
    assert trail ==> s[1..] == "";
  }

  lemma KeyIsJoined(u: Classes, s: string)
    ensures
      var t := ReplaceSeparators(s);
      var at := LettersFrom(u, t, 0);
      ToSnakeCase(u, s) == Joined(u, t, at)
  {
    var t := ReplaceSeparators(s);
    var at := LettersFrom(u, t, 0);
    SplitIsSplitFrom(u, t);
    CollapseJoins(u, t, 0, false);
    if at == [] {
      TrimNothing(Trails(u, t, 0, false));
    } else {
      JoinedEnds(u, t, at);
      TrimBoth(Leads(u, t, 0, false), Joined(u, t, at), Trails(u, t, 0, false));
    }
  }

  lemma SplitIsSplitFrom(u: Classes, t: string)
    ensures Split(u, t, |t|) == SplitFrom(u, t, 0)
  {
    SplitInTwo(u, t, 0);
    assert "" + SplitFrom(u, t, 0) == SplitFrom(u, t, 0);
  }

  lemma JoinedEnds(u: Classes, t: string, at: seq<nat>)
    requires at == LettersFrom(u, t, 0) && at != []
    ensures var r := Joined(u, t, at); r != "" && r[0] != '_' && r[|r| - 1] != '_'
  {
    LetterLeaves(u, t, 0, 0);
    LetterLeaves(u, t, 0, |at| - 1);
    JoinedIsPlaced(u, t, at, 0);
    JoinedIsPlaced(u, t, at, |at| - 1);
  }

  lemma {:induction false} PlaceBehind(u: Classes, t: string, at: seq<nat>, n: nat)
    requires Rising(t, at) && 0 < n < |at|
    ensures Rising(t, at[1..])
    ensures Place(u, t, at, n) == |JoinedHead(u, t, at)| + Place(u, t, at[1..], n - 1)
  {
    if n > 1 {
      PlaceBehind(u, t, at, n - 1);
      assert at[1..][n - 2] == at[n - 1] && at[1..][n - 1] == at[n];
    }
  }

  lemma {:induction false} JoinedIsPlaced(u: Classes, t: string, at: seq<nat>, n: nat)
    requires Rising(t, at) && n < |at|
    ensures Placed(u, t, at, Joined(u, t, at), n)
    decreases n
  {
    if n > 0 {
      PlaceBehind(u, t, at, n);
      JoinedIsPlaced(u, t, at[1..], n - 1);
      PlacedBehind(u, t, at, Joined(u, t, at[1..]), n);
    }
  }

  lemma PlacedBehind(u: Classes, t: string, at: seq<nat>, r: string, n: nat)
    requires Rising(t, at) && 0 < n < |at| && Rising(t, at[1..]) && Placed(u, t, at[1..], r, n - 1)
    requires Place(u, t, at, n) == |JoinedHead(u, t, at)| + Place(u, t, at[1..], n - 1)
    ensures Placed(u, t, at, JoinedHead(u, t, at) + r, n)
  {
    assert at[1..][n - 1] == at[n];
    assert n < |at| - 1 ==> at[1..][n] == at[n + 1];
  }

  /**
   * Main theorem: the key is the letters of the input, and between two neighbouring ones stands one
   * underscore exactly when a character between them was dropped or the second one starts a word.
   */
  lemma UnderscoresExactlyWhere(u: Classes, s: string) returns (at: seq<nat>)
    ensures AreLetters(u, ReplaceSeparators(s), at)
    ensures at == [] ==> ToSnakeCase(u, s) == ""
    ensures forall n: nat | n < |at| :: Placed(u, ReplaceSeparators(s), at, ToSnakeCase(u, s), n)
  {
    var t := ReplaceSeparators(s);
    KeyIsJoined(u, s);
    LettersFromAreLetters(u, t);
    at := LettersFrom(u, t, 0);
    forall n: nat | n < |at| ensures Placed(u, t, at, ToSnakeCase(u, s), n) {
      JoinedIsPlaced(u, t, at, n);
    }
  }

  /** On ASCII the classes are the usual ones throughout. */
  ghost predicate Ascii(u: Classes) {
    Standard(u) && forall c | c as int < 128 :: u.lower(c) == AsciiLower(c) && u.digit(c) == AsciiDigit(c)
  }

  /** In an ASCII text a word starts at a capital behind a small letter or a digit, and at a capital between
      a capital and a small letter; nowhere else. */
  lemma WordStartsExactlyWhen(u: Classes, s: string, i: nat)
    requires Ascii(u) && i < |s| && forall c | c in s :: c as int < 128
    ensures |ReplaceSeparators(s)| == |s|
    ensures Breaks(u, ReplaceSeparators(s), i) <==>
      && i > 0 && AsciiUpper(s[i])
      && (|| AsciiLower(s[i - 1]) || AsciiDigit(s[i - 1])
          || (AsciiUpper(s[i - 1]) && i + 1 < |s| && AsciiLower(s[i + 1])))
  {
    SeparatedAt(s, i);
    assert s[i] in s;
    if i > 0 {
      SeparatedAt(s, i - 1);
      assert s[i - 1] in s;
    }
    if i + 1 < |s| {
      SeparatedAt(s, i + 1);
      assert s[i + 1] in s;
    }
  }
}
