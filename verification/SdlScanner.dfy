/** The bracket scanners of the SDL parser (cmd/fetchactions-graphql/sdl.go): extractBraceBlock and splitArgs. */
module SdlScanner {

  // ---------------------------------------------------------------- extractBraceBlock

  function Weight(c: char): int {
    if c == '{' then 1 else if c == '}' then -1 else 0
  }

  /** Opening braces minus closing braces. */
  function Depth(s: string): int {
    if s == "" then 0 else Depth(s[..|s| - 1]) + Weight(s[|s| - 1])
  }

  lemma {:induction false} DepthCounts(s: string)
    ensures Depth(s) + multiset(s)['}'] == multiset(s)['{']
  {
    if s != "" {
      DepthCounts(s[..|s| - 1]);
      assert s == s[..|s| - 1] + [s[|s| - 1]];
    }
  }

  lemma DepthStep(s: string, i: nat)
    requires i < |s|
    ensures Depth(s[..i + 1]) == Depth(s[..i]) + Weight(s[i])
  {
    assert s[..i + 1][..i] == s[..i];
  }

  lemma {:induction false} DepthOfConcat(s: string, t: string)
    ensures Depth(s + t) == Depth(s) + Depth(t)
    decreases |t|
  {
    if t == "" {
      assert s + t == s;
    } else {
      assert (s + t)[..|s + t| - 1] == s + t[..|t| - 1];
      DepthOfConcat(s, t[..|t| - 1]);
    }
  }

  /** The brace at `i` closes everything that was open. */
  ghost predicate ClosesAll(s: string, i: nat) {
    i < |s| && s[i] == '}' && Depth(s[..i + 1]) == 0
  }

  /** The braces at `open` and `close` match, and `close` is the first brace to close everything. */
  ghost predicate IsFirstBlock(s: string, open: nat, close: nat) {
    && open < close < |s|
    && s[open] == '{' && Depth(s[..open]) == 0
    && ClosesAll(s, close)
    && (forall k | open < k <= close :: Depth(s[..k]) >= 1)
    && (forall i: nat | i < close :: !ClosesAll(s, i))
  }

  /** `start` is an int because the program starts it at -1; slicing with -1 would be an error. */
  method ExtractBraceBlock(s: string) returns (block: string)
    ensures
      || (exists open: nat, close: nat :: IsFirstBlock(s, open, close) && block == s[open + 1..close])
      || (block == "" && forall i: nat :: !ClosesAll(s, i))
  {
    var depth, start: int := 0, -1;
    for i := 0 to |s|
      invariant depth == Depth(s[..i])
      invariant depth >= 1 ==>
                  && 1 <= start <= i && s[start - 1] == '{' && Depth(s[..start - 1]) == 0
                  && forall k | start <= k <= i :: Depth(s[..k]) >= 1
      invariant forall j: nat | j < i :: !ClosesAll(s, j)
    {
      DepthStep(s, i);
      if s[i] == '{' {
        if depth == 0 {
          start := i + 1;
        }
        depth := depth + 1;
      } else if s[i] == '}' {
        depth := depth - 1;
        if depth == 0 {
          assert IsFirstBlock(s, start - 1, i);
          return s[start..i];
        }
      }
    }
    block := "";
  }

  /** What is returned is brace-balanced, and no prefix of it closes more than it opens. */
  lemma BlockIsBalanced(s: string, open: nat, close: nat, k: nat)
    requires IsFirstBlock(s, open, close) && k <= close - open - 1
    ensures Depth(s[open + 1..close]) == 0 && Depth(s[open + 1..close][..k]) >= 0
  {
    DepthStep(s, open);
    DepthStep(s, close);
    DepthOfConcat(s[..open + 1], s[open + 1..close]);
    assert s[..close] == s[..open + 1] + s[open + 1..close];
    DepthOfConcat(s[..open + 1], s[open + 1..close][..k]);
    assert s[..open + 1 + k] == s[..open + 1] + s[open + 1..close][..k];
  }

  lemma {:induction false} DepthWithoutBraces(s: string)
    ensures '{' !in s ==> Depth(s) <= 0 && (Depth(s) == 0 <==> '}' !in s)
    ensures '}' !in s ==> Depth(s) >= 0 && (Depth(s) == 0 <==> '{' !in s)
  {
    if s != "" {
      DepthWithoutBraces(s[..|s| - 1]);
      assert s == s[..|s| - 1] + [s[|s| - 1]];
    }
  }

  lemma {:induction false} FallsToZero(s: string, i: nat, end: nat)
    requires i <= end <= |s| && Depth(s[..i]) >= 1 && Depth(s[..end]) <= 0
    ensures exists j: nat :: i <= j < end && ClosesAll(s, j)
    decreases end - i
  {
    DepthStep(s, i);
    if !ClosesAll(s, i) {
      FallsToZero(s, i + 1, end);
    }
  }

  /**
   * The block starts at the first opening brace exactly when no closing brace stands before that
   * brace; then it ends at the brace that matches it.
   */
  lemma StartsAtFirstBraceExactlyWhen(s: string, open: nat, close: nat, first: nat)
    requires IsFirstBlock(s, open, close)
    requires first < |s| && s[first] == '{' && forall k | 0 <= k < first :: s[k] != '{'
    ensures open == first <==> '}' !in s[..first]
  {
    DepthWithoutBraces(s[..first]);
    if '}' !in s[..first] {
      DepthStep(s, first);
      if open > first {
        FallsToZero(s, first + 1, open);
      }
    }
  }

  /** The closing brace at `close` is the match of the opening one at `open`. */
  ghost predicate Matches(s: string, open: nat, close: nat) {
    && open < close < |s| && s[open] == '{' && s[close] == '}'
    && Depth(s[..close + 1]) == Depth(s[..open])
    && forall k | open < k <= close :: Depth(s[..k]) > Depth(s[..open])
  }

  /** The first opening brace, when it has a match, starts the block that is returned exactly when no
      closing brace stands before it; its match then ends the block. */
  lemma FirstBraceIsTakenExactlyWhen(s: string, first: nat, close: nat)
    requires Matches(s, first, close) && forall k | 0 <= k < first :: s[k] != '{'
    ensures IsFirstBlock(s, first, close) <==> '}' !in s[..first]
  {
    DepthWithoutBraces(s[..first]);
    if '}' !in s[..first] {
      forall i: nat | i < close ensures !ClosesAll(s, i) {
        assert i < first ==> s[..first][i] == s[i];
        DepthStep(s, i);
      }
    }
  }

  /** There is one first block at most, so that the two lemmas above speak of what is returned. */
  lemma FirstBlockIsUnique(s: string, open: nat, close: nat, open2: nat, close2: nat)
    requires IsFirstBlock(s, open, close) && IsFirstBlock(s, open2, close2)
    ensures open == open2 && close == close2
  {
    assert close == close2 by {
      assert ClosesAll(s, close) && ClosesAll(s, close2);
    }
    assert Depth(s[..open]) == 0 && Depth(s[..open2]) == 0;
  }

  /** With a stray closing brace before it, a balanced block is not found at all. */
  lemma StrayBraceHidesBlock(i: nat)
    ensures Matches("type T}{a}", 7, 9) && !ClosesAll("type T}{a}", i)
  {
    var s := "type T}{a}";
    DepthWithoutBraces(s[..6]);
    DepthStep(s, 6);
    DepthStep(s, 7);
    DepthStep(s, 8);
    DepthStep(s, 9);
    if i < 6 {
      assert s[i] != '}';
    }
  }

  // ---------------------------------------------------------------- splitArgs

  function Bracket(c: char): int {
    if c == '(' || c == '[' then 1 else if c == ')' || c == ']' then -1 else 0
  }

  function Nesting(s: string): int {
    if s == "" then 0 else Nesting(s[..|s| - 1]) + Bracket(s[|s| - 1])
  }

  /** Opening round and square brackets minus closing ones. */
  lemma {:induction false} NestingCounts(s: string)
    ensures Nesting(s) + multiset(s)[')'] + multiset(s)[']'] == multiset(s)['('] + multiset(s)['[']
  {
    if s != "" {
      NestingCounts(s[..|s| - 1]);
      assert s == s[..|s| - 1] + [s[|s| - 1]];
    }
  }

  lemma {:induction false} NestingOfConcat(s: string, t: string)
    ensures Nesting(s + t) == Nesting(s) + Nesting(t)
    decreases |t|
  {
    if t == "" {
      assert s + t == s;
    } else {
      assert (s + t)[..|s + t| - 1] == s + t[..|t| - 1];
      NestingOfConcat(s, t[..|t| - 1]);
    }
  }

  ghost predicate TopComma(s: string, i: nat) {
    i < |s| && s[i] == ',' && Nesting(s[..i]) == 0
  }

  ghost predicate NoTopComma(s: string) {
    forall i: nat :: !TopComma(s, i)
  }

  /** The first comma at or after `i` that is outside all brackets, or the end of the text. */
  function FirstTop(s: string, i: nat): (r: nat)
    requires i <= |s|
    ensures i <= r <= |s|
    decreases |s| - i
  {
    if i == |s| || (s[i] == ',' && Nesting(s[..i]) == 0) then i else FirstTop(s, i + 1)
  }

  function Parts(s: string): (parts: seq<string>)
    ensures parts != []
    decreases |s|
  {
    var i := FirstTop(s, 0);
    if i == |s| then [s] else [s[..i]] + Parts(s[i + 1..])
  }

  lemma {:induction false} FirstTopIs(s: string, i: nat, r: nat)
    requires i <= r <= |s| && (r < |s| ==> TopComma(s, r))
    requires forall j: nat | i <= j < r :: !TopComma(s, j)
    ensures FirstTop(s, i) == r
    decreases r - i
  {
    if i < r {
      assert !TopComma(s, i);
      FirstTopIs(s, i + 1, r);
    }
  }

  lemma PartsOfOne(p: string)
    requires NoTopComma(p)
    ensures Parts(p) == [p]
  {
    FirstTopIs(p, 0, |p|);
  }

  lemma FirstTopOfMore(p: string, rest: string)
    requires NoTopComma(p) && Nesting(p) == 0
    ensures FirstTop(p + ("," + rest), 0) == |p|
  {
    var s := p + ("," + rest);
    assert s[..|p|] == p;
    forall j: nat | j < |p| ensures !TopComma(s, j) {
      assert s[..j] == p[..j];
      assert !TopComma(p, j);
    }
    FirstTopIs(s, 0, |p|);
  }

  lemma PartsOfMore(p: string, rest: string)
    requires NoTopComma(p) && Nesting(p) == 0
    ensures Parts(p + ("," + rest)) == [p] + Parts(rest)
  {
    var s := p + ("," + rest);
    FirstTopOfMore(p, rest);
    assert s[..|p|] == p && s[|p| + 1..] == rest;
  }

  /** The state of the loop of splitArgs: `parts` are done, and the next one starts at `start`. */
  ghost predicate Splitting(s: string, parts: seq<string>, start: nat, i: nat, depth: int) {
    && start <= i <= |s| && depth == Nesting(s[start..i])
    && NoTopComma(s[start..i])
    && Parts(s) == parts + Parts(s[start..])
  }

  method SplitArgs(s: string) returns (parts: seq<string>)
    ensures parts == Parts(s)
  {
    parts := [];
    var depth, start := 0, 0;
    assert s[0..] == s;
    for i := 0 to |s|
      invariant 0 <= start && Splitting(s, parts, start, i, depth)
    {
      NextCharacter(s, parts, start, i, depth);
      if s[i] == '(' || s[i] == '[' {
        depth := depth + 1;
      } else if s[i] == ')' || s[i] == ']' {
        depth := depth - 1;
      } else if s[i] == ',' && depth == 0 {
        parts := parts + [s[start..i]];
        start := i + 1;
      }
    }
    assert s[start..] == s[start..|s|];
    PartsOfOne(s[start..]);
    parts := parts + [s[start..]];
  }

  lemma NextCharacter(s: string, parts: seq<string>, start: nat, i: nat, depth: int)
    requires Splitting(s, parts, start, i, depth) && i < |s|
    ensures
      if s[i] == ',' && depth == 0 then Splitting(s, parts + [s[start..i]], i + 1, i + 1, 0)
      else Splitting(s, parts, start, i + 1, depth + Bracket(s[i]))
  {
    OneMore(s, start, i);
    if s[i] == ',' && depth == 0 {
      PartsFrom(s, start, i);
      PartsRegroup(parts, s[start..i], Parts(s[i + 1..]));
    }
  }

  lemma PartsRegroup(parts: seq<string>, part: string, rest: seq<string>)
    ensures parts + ([part] + rest) == (parts + [part]) + rest
  {
  }

  lemma PartsFrom(s: string, start: nat, i: nat)
    requires start <= i < |s| && s[i] == ',' && NoTopComma(s[start..i]) && Nesting(s[start..i]) == 0
    ensures Parts(s[start..]) == [s[start..i]] + Parts(s[i + 1..])
  {
    assert s[start..] == s[start..i] + ("," + s[i + 1..]);
    PartsOfMore(s[start..i], s[i + 1..]);
  }

  lemma OneMore(s: string, start: nat, i: nat)
    requires start <= i < |s| && NoTopComma(s[start..i])
    ensures Nesting(s[start..i + 1]) == Nesting(s[start..i]) + Bracket(s[i])
    ensures NoTopComma(s[start..i + 1]) || (s[i] == ',' && Nesting(s[start..i]) == 0)
    ensures NoTopComma(s[i + 1..i + 1]) && Nesting(s[i + 1..i + 1]) == 0
  {
    var part := s[start..i];
    assert s[start..i + 1] == part + [s[i]] && (part + [s[i]])[..|part|] == part;
    if !(s[i] == ',' && Nesting(part) == 0) {
      NoTopCommaExtends(part, s[i]);
    }
  }

  lemma NoTopCommaExtends(part: string, c: char)
    requires NoTopComma(part) && !(c == ',' && Nesting(part) == 0)
    ensures NoTopComma(part + [c])
  {
    forall i: nat ensures !TopComma(part + [c], i) {
      if i < |part| {
        assert (part + [c])[..i] == part[..i];
        assert !TopComma(part, i);
      } else {
        assert (part + [c])[..|part|] == part;
      }
    }
  }

  function Join(parts: seq<string>): string {
    if parts == [] then ""
    else if |parts| == 1 then parts[0]
    else parts[0] + ("," + Join(parts[1..]))
  }

  /** The parts make up the text, and end at exactly the commas outside all brackets. */
  ghost predicate IsSplit(s: string, parts: seq<string>) {
    && parts != [] && Join(parts) == s
    && (forall p | p in parts :: NoTopComma(p))
    && (forall k | 0 <= k < |parts| - 1 :: Nesting(parts[k]) == 0)
  }

  lemma {:induction false} FirstTopIsTop(s: string, i: nat)
    requires i <= |s|
    ensures FirstTop(s, i) < |s| ==> TopComma(s, FirstTop(s, i))
    ensures forall j: nat | i <= j < FirstTop(s, i) :: !TopComma(s, j)
    decreases |s| - i
  {
    if FirstTop(s, i) > i {
      FirstTopIsTop(s, i + 1);
    }
  }

  /** splitArgs computes the one and only split. */
  lemma PartsAreTheSplit(s: string, parts: seq<string>)
    ensures IsSplit(s, parts) <==> parts == Parts(s)
  {
    SplitExists(s);
    if IsSplit(s, parts) {
      SplitIsUnique(s, parts);
    }
  }

  lemma {:induction false} SplitExists(s: string)
    ensures IsSplit(s, Parts(s))
    decreases |s|
  {
    var i := FirstTop(s, 0);
    FirstTopIsTop(s, 0);
    forall j: nat ensures !TopComma(s[..i], j) {
      if j < i {
        assert s[..i][..j] == s[..j];
        assert !TopComma(s, j);
      }
    }
    if i == |s| {
      assert s[..i] == s;
    } else {
      SplitExists(s[i + 1..]);
      assert s == s[..i] + ("," + s[i + 1..]);
    }
  }

  lemma {:induction false} SplitIsUnique(s: string, parts: seq<string>)
    requires IsSplit(s, parts)
    ensures parts == Parts(s)
    decreases |parts|
  {
    if |parts| == 1 {
      PartsOfOne(parts[0]);
    } else {
      SplitIsUnique(Join(parts[1..]), parts[1..]);
      PartsOfMore(parts[0], Join(parts[1..]));
    }
  }
}
