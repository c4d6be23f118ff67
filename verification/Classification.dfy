/**
 * Classifying operations by prefix: matchResourceByPath (cmd/fetchactions-oas3/parse.go) and
 * inferResourceType (cmd/fetchactions-graphql/parse.go). Both range over a map, so every order of
 * its keys is possible.
 */
module Classification {
  import opened Prelude

  datatype Resource = Resource(exactPaths: seq<string>, prefixes: seq<string>)

  /** `order` is one of the orders in which a map with these keys may be walked. */
  ghost predicate Enumerates(order: seq<string>, keys: set<string>) {
    && (forall k :: k in order <==> k in keys)
    && (forall i, j | 0 <= i < j < |order| :: order[i] != order[j])
  }

  lemma {:induction false} EnumerationExists(keys: set<string>) returns (order: seq<string>)
    ensures Enumerates(order, keys)
    decreases |keys|
  {
    if keys == {} {
      order := [];
    } else {
      var k :| k in keys;
      var rest := EnumerationExists(keys - {k});
      order := [k] + rest;
    }
  }

  lemma EnumerationFrom(keys: set<string>, first: string) returns (order: seq<string>)
    requires first in keys
    ensures Enumerates(order, keys) && order[0] == first
  {
    var rest := EnumerationExists(keys - {first});
    order := [first] + rest;
  }

  // ---------------------------------------------------------------- matchResourceByPath

  /** The length of the longest of these prefixes that the path starts with; 0 when there is none. */
  function Longest(path: string, prefixes: seq<string>): nat {
    if prefixes == [] then 0
    else
      var before, last := Longest(path, prefixes[..|prefixes| - 1]), prefixes[|prefixes| - 1];
      if last <= path && |last| > before then |last| else before
  }

  lemma {:induction false} LongestIsLongest(path: string, prefixes: seq<string>)
    ensures forall p | p in prefixes && p <= path :: |p| <= Longest(path, prefixes)
    ensures Longest(path, prefixes) > 0 ==>
      Longest(path, prefixes) <= |path| && path[..Longest(path, prefixes)] in prefixes
  {
    if prefixes != [] {
      var init := prefixes[..|prefixes| - 1];
      var last := prefixes[|prefixes| - 1];
      LongestIsLongest(path, init);
      assert prefixes == init + [last];
      assert last <= path ==> path[..|last|] == last;
    }
  }

  function ExactInOrder(path: string, resources: map<string, Resource>, order: seq<string>): Option<string>
    requires forall k | k in order :: k in resources
  {
    if order == [] then None
    else
      var before := ExactInOrder(path, resources, order[..|order| - 1]);
      var last := order[|order| - 1];
      if before.Some? then before else if path in resources[last].exactPaths then Some(last) else None
  }

  /** The first resource of `order` with the longest matching prefix, and that length. */
  function BestInOrder(path: string, resources: map<string, Resource>, order: seq<string>): (string, nat)
    requires forall k | k in order :: k in resources
  {
    if order == [] then ("", 0)
    else
      var before := BestInOrder(path, resources, order[..|order| - 1]);
      var last := order[|order| - 1];
      var length := Longest(path, resources[last].prefixes);
      if length > before.1 then (last, length) else before
  }

  function MatchInOrder(path: string, resources: map<string, Resource>, order: seq<string>): string
    requires forall k | k in order :: k in resources
  {
    var exact := ExactInOrder(path, resources, order);
    if exact.Some? then exact.value else BestInOrder(path, resources, order).0
  }

  /** The loop over exact paths, which leaves at the first hit. */
  method FindExact(path: string, resources: map<string, Resource>, order: seq<string>) returns (name: Option<string>)
    requires forall k | k in order :: k in resources
    ensures name == ExactInOrder(path, resources, order)
  {
    for i := 0 to |order|
      invariant ExactInOrder(path, resources, order[..i]).None?
    {
      assert order[..i + 1][..i] == order[..i];
      var exactPaths := resources[order[i]].exactPaths;
      for j := 0 to |exactPaths|
        invariant path !in exactPaths[..j]
      {
        if path == exactPaths[j] {
          ExactIsFirst(path, resources, order, i);
          return Some(order[i]);
        }
      }
      assert exactPaths[..|exactPaths|] == exactPaths;
    }
    assert order[..|order|] == order;
    name := None;
  }

  /** The loop over prefixes, which keeps the best so far. */
  method FindBest(path: string, resources: map<string, Resource>, order: seq<string>)
    returns (name: string, bestLen: nat)
    requires forall k | k in order :: k in resources
    ensures (name, bestLen) == BestInOrder(path, resources, order)
  {
    name, bestLen := "", 0;
    for i := 0 to |order|
      invariant (name, bestLen) == BestInOrder(path, resources, order[..i])
    {
      assert order[..i + 1][..i] == order[..i];
      var prefixes := resources[order[i]].prefixes;
      ghost var before := (name, bestLen);
      for j := 0 to |prefixes|
        invariant
          var length := Longest(path, prefixes[..j]);
          (name, bestLen) == if length > before.1 then (order[i], length) else before
      {
        assert prefixes[..j + 1][..j] == prefixes[..j];
        if prefixes[j] <= path && |prefixes[j]| > bestLen {
          name := order[i];
          bestLen := |prefixes[j]|;
        }
      }
      assert prefixes[..|prefixes|] == prefixes;
    }
    assert order[..|order|] == order;
  }

  method MatchResourceByPath(path: string, resources: map<string, Resource>, order: seq<string>) returns (name: string)
    requires Enumerates(order, resources.Keys)
    ensures name == MatchInOrder(path, resources, order)
    ensures if Winners(path, resources) == {} then name == "" else name in Winners(path, resources)
  {
    AnswerIsWinner(path, resources, order);
    var exact := FindExact(path, resources, order);
    if exact.Some? {
      return exact.value;
    }
    var bestLen;
    name, bestLen := FindBest(path, resources, order);
  }

  lemma {:induction false} ExactIsFirst(path: string, resources: map<string, Resource>, order: seq<string>, i: nat)
    requires (forall k | k in order :: k in resources) && i < |order|
    requires ExactInOrder(path, resources, order[..i]).None? && path in resources[order[i]].exactPaths
    ensures ExactInOrder(path, resources, order) == Some(order[i])
    decreases |order|
  {
    var init := order[..|order| - 1];
    if i < |init| {
      assert init[..i] == order[..i];
      ExactIsFirst(path, resources, init, i);
    }
  }

  function ExactOwners(path: string, resources: map<string, Resource>): set<string> {
    set k | k in resources && path in resources[k].exactPaths
  }

  /** The resources that the documentation allows as the answer: owners of the exact path, else of the
      longest prefix. */
  function Winners(path: string, resources: map<string, Resource>): set<string> {
    if ExactOwners(path, resources) != {} then ExactOwners(path, resources)
    else set k | k in resources && OwnsLongest(path, resources, k)
  }

  predicate OwnsLongest(path: string, resources: map<string, Resource>, name: string)
    requires name in resources
  {
    var length := Longest(path, resources[name].prefixes);
    length > 0 && forall k | k in resources :: Longest(path, resources[k].prefixes) <= length
  }

  lemma {:induction false} ExactAmong(path: string, resources: map<string, Resource>, order: seq<string>)
    requires forall k | k in order :: k in resources
    ensures
      var exact := ExactInOrder(path, resources, order);
      if exact.Some? then exact.value in order && path in resources[exact.value].exactPaths
      else forall k | k in order :: path !in resources[k].exactPaths
    ensures order != [] && path in resources[order[0]].exactPaths ==>
      ExactInOrder(path, resources, order) == Some(order[0])
  {
    if order != [] {
      var init := order[..|order| - 1];
      ExactAmong(path, resources, init);
      assert order == init + [order[|order| - 1]];
    }
  }

  lemma {:induction false} BestAmong(path: string, resources: map<string, Resource>, order: seq<string>)
    requires forall k | k in order :: k in resources
    ensures
      var best := BestInOrder(path, resources, order);
      && (forall k | k in order :: Longest(path, resources[k].prefixes) <= best.1)
      && (if best.1 == 0 then best.0 == "" else best.0 in order && Longest(path, resources[best.0].prefixes) == best.1)
  {
    if order != [] {
      var init := order[..|order| - 1];
      BestAmong(path, resources, init);
      assert order == init + [order[|order| - 1]];
    }
  }

  lemma {:induction false} FirstStaysBest(path: string, resources: map<string, Resource>, order: seq<string>)
    requires order != [] && forall k | k in order :: k in resources
    requires OwnsLongest(path, resources, order[0])
    ensures BestInOrder(path, resources, order) == (order[0], Longest(path, resources[order[0]].prefixes))
    decreases |order|
  {
    if |order| == 1 {
      assert order[..0] == [];
    } else {
      FirstStaysBest(path, resources, order[..|order| - 1]);
    }
  }

  lemma AnswerIsWinner(path: string, resources: map<string, Resource>, order: seq<string>)
    requires Enumerates(order, resources.Keys)
    ensures
      var name := MatchInOrder(path, resources, order);
      if Winners(path, resources) == {} then name == "" else name in Winners(path, resources)
  {
    ExactAmong(path, resources, order);
    BestAmong(path, resources, order);
    if ExactInOrder(path, resources, order).Some? {
      assert ExactInOrder(path, resources, order).value in ExactOwners(path, resources);
    } else {
      assert ExactOwners(path, resources) == {};
      var best := BestInOrder(path, resources, order);
      if best.1 > 0 {
        assert OwnsLongest(path, resources, best.0);
        assert best.0 in Winners(path, resources);
      }
    }
  }

  lemma WinnerCanAnswer(path: string, resources: map<string, Resource>, name: string) returns (order: seq<string>)
    requires name in Winners(path, resources)
    ensures Enumerates(order, resources.Keys) && MatchInOrder(path, resources, order) == name
  {
    order := EnumerationFrom(resources.Keys, name);
    ExactAmong(path, resources, order);
    if ExactOwners(path, resources) == {} {
      assert forall k | k in resources :: k !in ExactOwners(path, resources);
      FirstStaysBest(path, resources, order);
    }
  }

  /** Whatever order the map is walked in, the answer is the same. */
  ghost predicate OneAnswer(path: string, resources: map<string, Resource>) {
    forall o1, o2 | Enumerates(o1, resources.Keys) && Enumerates(o2, resources.Keys) ::
      MatchInOrder(path, resources, o1) == MatchInOrder(path, resources, o2)
  }

  /** The answer does not depend on the order exactly when at most one resource may win. */
  lemma OneAnswerExactlyWhen(path: string, resources: map<string, Resource>)
    ensures OneAnswer(path, resources) <==>
      forall a, b | a in Winners(path, resources) && b in Winners(path, resources) :: a == b
  {
    forall a, b | OneAnswer(path, resources) && a in Winners(path, resources) && b in Winners(path, resources)
      ensures a == b
    {
      var o1 := WinnerCanAnswer(path, resources, a);
      var o2 := WinnerCanAnswer(path, resources, b);
    }
    if forall a, b | a in Winners(path, resources) && b in Winners(path, resources) :: a == b {
      forall o1, o2 | Enumerates(o1, resources.Keys) && Enumerates(o2, resources.Keys)
        ensures MatchInOrder(path, resources, o1) == MatchInOrder(path, resources, o2)
      {
        AnswerIsWinner(path, resources, o1);
        AnswerIsWinner(path, resources, o2);
      }
    }
  }

  /** No exact path and no prefix is listed for two resources. */
  ghost predicate NothingShared(resources: map<string, Resource>) {
    forall a, b | a in resources && b in resources && a != b ::
      && (forall p | p in resources[a].exactPaths :: p !in resources[b].exactPaths)
      && (forall p | p in resources[a].prefixes :: p !in resources[b].prefixes)
  }

  lemma NothingSharedSuffices(path: string, resources: map<string, Resource>)
    requires NothingShared(resources)
    ensures OneAnswer(path, resources)
  {
    forall a, b | a in Winners(path, resources) && b in Winners(path, resources) ensures a == b {
      LongestIsLongest(path, resources[a].prefixes);
      LongestIsLongest(path, resources[b].prefixes);
    }
    OneAnswerExactlyWhen(path, resources);
  }

  // ---------------------------------------------------------------- inferResourceType

  /** What the loop has found after walking `order`: the longest matching prefix and its type. */
  function InferInOrder(field: string, prefixes: map<string, string>, order: seq<string>): (string, string)
    requires forall k | k in order :: k in prefixes
  {
    if order == [] then ("", "")
    else
      var before := InferInOrder(field, prefixes, order[..|order| - 1]);
      var last := order[|order| - 1];
      if last <= field && |last| > |before.0| then (last, prefixes[last]) else before
  }

  lemma {:induction false} InferIsLongest(field: string, prefixes: map<string, string>, order: seq<string>)
    requires forall k | k in order :: k in prefixes
    ensures
      var best := InferInOrder(field, prefixes, order);
      && (forall k | k in order && k <= field :: |k| <= |best.0|)
      && (if best.0 == "" then best.1 == "" else best.0 in order && best.0 <= field && best.1 == prefixes[best.0])
  {
    if order != [] {
      InferIsLongest(field, prefixes, order[..|order| - 1]);
      assert order == order[..|order| - 1] + [order[|order| - 1]];
    }
  }

  /** The type of the longest non-empty prefix of the field name, if there is one, and "" otherwise. */
  ghost predicate IsInferred(field: string, prefixes: map<string, string>, answer: string) {
    || (answer == "" && forall k | k in prefixes && k <= field :: k == "")
    || (exists best | best in prefixes && best != "" && best <= field :: 
          && answer == prefixes[best]
          && forall k | k in prefixes && k <= field :: k <= best)
  }

  method InferResourceType(field: string, prefixes: map<string, string>, order: seq<string>) returns (answer: string)
    requires Enumerates(order, prefixes.Keys)
    ensures IsInferred(field, prefixes, answer)
  {
    if |prefixes| == 0 {
      return "";
    }
    var bestMatch := "";
    answer := "";
    for i := 0 to |order|
      invariant (bestMatch, answer) == InferInOrder(field, prefixes, order[..i])
    {
      assert order[..i + 1][..i] == order[..i];
      if order[i] <= field && |order[i]| > |bestMatch| {
        bestMatch := order[i];
        answer := prefixes[order[i]];
      }
    }
    assert order[..|order|] == order;
    InferIsLongest(field, prefixes, order);
  }

  /** Two prefixes of one name with the same length are the same, so the order never matters. */
  lemma InferredIsUnique(field: string, prefixes: map<string, string>, a: string, b: string)
    requires IsInferred(field, prefixes, a) && IsInferred(field, prefixes, b)
    ensures a == b
  {
    if k :| k in prefixes && k != "" && k <= field {
      var best :| best in prefixes && best != "" && best <= field && a == prefixes[best] &&
        forall k | k in prefixes && k <= field :: k <= best;
      var other :| other in prefixes && other != "" && other <= field && b == prefixes[other] &&
        forall k | k in prefixes && k <= field :: k <= other;
      assert |best| == |other| && best == field[..|best|] && other == field[..|other|];
    }
  }
}
