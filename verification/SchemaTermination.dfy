/**
 * When flattening terminates (flattenV3Component, flattenV2Definition). Object cycles are harmless,
 * because an object is stored before its references are followed; an array is stored only after the
 * call for its items, so a cycle of arrays recurses forever. The evaluator below is the search with a
 * bound on the depth of the call stack, for a fixed iteration order.
 */
module SchemaTermination {
  import opened Prelude
  import opened SchemaFlattening

  /** The order in which the references of a component's properties are followed. */
  type Order = string -> seq<string>

  ghost predicate Orders(d: Document, order: Order) {
    forall n | Resolvable(d, n) :: (set ref | ref in order(n)) == PropertyRefs(FlatOf(d, n))
  }

  /** The keys stored when the call for `name` returns, or None if it needs more than `depth` stack frames. */
  function Eval(d: Document, order: Order, name: string, keys: set<string>, depth: nat): Option<set<string>>
    decreases depth, 0
  {
    if depth == 0 then None
    else if name in keys || !Resolvable(d, name) then Some(keys)
    else if ItemRef(d, name).Some? then
      match Eval(d, order, ItemRef(d, name).value, keys, depth - 1)
      case None => None
      case Some(more) => Some(more + {name})
    else EvalAll(d, order, order(name), keys + {name}, depth - 1)
  }

  function EvalAll(d: Document, order: Order, names: seq<string>, keys: set<string>, depth: nat): Option<set<string>>
    decreases depth, 1, |names|
  {
    if names == [] then Some(keys) else
    match Eval(d, order, names[0], keys, depth)
    case None => None
    case Some(more) => EvalAll(d, order, names[1..], more, depth)
  }

  ghost predicate Terminates(d: Document, order: Order, name: string, keys: set<string>) {
    exists depth :: Eval(d, order, name, keys, depth).Some?
  }

  // ---------------------------------------------------------------- More depth never hurts

  lemma {:induction false} DeeperEval(
    d: Document, order: Order, name: string, keys: set<string>, depth: nat, deeper: nat)
    requires Eval(d, order, name, keys, depth).Some? && depth <= deeper
    ensures Eval(d, order, name, keys, deeper) == Eval(d, order, name, keys, depth)
    decreases depth, 0
  {
    if name !in keys && Resolvable(d, name) {
      if ItemRef(d, name).Some? {
        DeeperEval(d, order, ItemRef(d, name).value, keys, depth - 1, deeper - 1);
      } else {
        DeeperEvalAll(d, order, order(name), keys + {name}, depth - 1, deeper - 1);
      }
    }
  }

  lemma {:induction false} DeeperEvalAll(
    d: Document, order: Order, names: seq<string>, keys: set<string>, depth: nat, deeper: nat)
    requires EvalAll(d, order, names, keys, depth).Some? && depth <= deeper
    ensures EvalAll(d, order, names, keys, deeper) == EvalAll(d, order, names, keys, depth)
    decreases depth, 1, |names|
  {
    if names != [] {
      DeeperEval(d, order, names[0], keys, depth, deeper);
      DeeperEvalAll(d, order, names[1..], Eval(d, order, names[0], keys, depth).value, depth, deeper);
    }
  }

  lemma {:induction false} EvalGrows(d: Document, order: Order, name: string, keys: set<string>, depth: nat)
    requires Eval(d, order, name, keys, depth).Some?
    ensures keys <= Eval(d, order, name, keys, depth).value
    decreases depth, 0
  {
    if name !in keys && Resolvable(d, name) {
      if ItemRef(d, name).Some? {
        EvalGrows(d, order, ItemRef(d, name).value, keys, depth - 1);
      } else {
        EvalAllGrows(d, order, order(name), keys + {name}, depth - 1);
      }
    }
  }

  lemma {:induction false} EvalAllGrows(d: Document, order: Order, names: seq<string>, keys: set<string>, depth: nat)
    requires EvalAll(d, order, names, keys, depth).Some?
    ensures keys <= EvalAll(d, order, names, keys, depth).value
    decreases depth, 1, |names|
  {
    if names != [] {
      EvalGrows(d, order, names[0], keys, depth);
      EvalAllGrows(d, order, names[1..], Eval(d, order, names[0], keys, depth).value, depth);
    }
  }

  // ---------------------------------------------------------------- Finite chains suffice

  lemma {:induction false} ChainsMakeItTerminate(
    d: Document, order: Order, name: string, keys: set<string>, k: nat) returns (depth: nat)
    requires Orders(d, order) && ChainsEnd(d, keys, name) && ChainEnds(d, keys, name, k)
    ensures Eval(d, order, name, keys, depth).Some?
    decreases |Missing(d, keys)|, 0, k
  {
    if name in keys || !Resolvable(d, name) {
      depth := 1;
    } else if ItemRef(d, name).Some? {
      var ref := ItemRef(d, name).value;
      ChainsEndOnward(d, keys, keys, name, ref);
      var inner := ChainsMakeItTerminate(d, order, ref, keys, k - 1);
      depth := inner + 1;
    } else {
      MissingShrinks(d, keys, keys + {name});
      var inner := ChainsMakeAllTerminate(d, order, name, order(name), keys, keys + {name});
      depth := inner + 1;
    }
  }

  lemma {:induction false} ChainsMakeAllTerminate(
    d: Document, order: Order, name: string, names: seq<string>, start: set<string>, keys: set<string>)
    returns (depth: nat)
    requires Orders(d, order) && start <= keys && ChainsEnd(d, start, name) && Resolvable(d, name)
    requires forall ref | ref in names :: ref in Refs(FlatOf(d, name))
    ensures EvalAll(d, order, names, keys, depth).Some?
    decreases |Missing(d, keys)|, 1, |names|
  {
    depth := 0;
    if names != [] {
      ChainsEndOnward(d, start, keys, name, names[0]);
      var k := ChainsEndHere(d, keys, names[0]);
      var first := ChainsMakeItTerminate(d, order, names[0], keys, k);
      EvalGrows(d, order, names[0], keys, first);
      var more := Eval(d, order, names[0], keys, first).value;
      MissingShrinks(d, keys, more);
      var rest := ChainsMakeAllTerminate(d, order, name, names[1..], start, more);
      depth := if first < rest then rest else first;
      DeeperEval(d, order, names[0], keys, first, depth);
      DeeperEvalAll(d, order, names[1..], more, rest, depth);
    }
  }

  // ---------------------------------------------------------------- Finite chains are necessary

  /** Everything stored beyond `keys` has a finite array chain. */
  ghost predicate AllChained(d: Document, keys: set<string>, stored: set<string>) {
    forall n | n in stored :: Chained(d, keys, n)
  }

  lemma {:induction false} ChainThroughStored(d: Document, keys: set<string>, stored: set<string>, n: string, k: nat)
    requires AllChained(d, keys, stored) && ChainEnds(d, stored, n, k)
    ensures Chained(d, keys, n)
    decreases k
  {
    if n in stored {
    } else if ItemRef(d, n).None? {
      assert ChainEnds(d, keys, n, 0);
    } else {
      ChainThroughStored(d, keys, stored, ItemRef(d, n).value, k - 1);
      ChainLonger(d, keys, n);
    }
  }

  lemma ChainLonger(d: Document, keys: set<string>, n: string)
    requires ItemRef(d, n).Some? && Chained(d, keys, ItemRef(d, n).value)
    ensures Chained(d, keys, n)
  {
    var k: nat :| ChainEnds(d, keys, ItemRef(d, n).value, k);
    assert ChainEnds(d, keys, n, k + 1);
  }

  /** What a returning call leaves behind: its name, a closed set, and only finite array chains. */
  lemma {:induction false} EvalLeaves(
    d: Document, order: Order, name: string, keys: set<string>, depth: nat, start: set<string>, pending: set<string>)
    requires Orders(d, order) && Eval(d, order, name, keys, depth).Some?
    requires AllChained(d, start, keys) && Closed(d, keys, pending) && pending <= keys
    ensures
      var after := Eval(d, order, name, keys, depth).value;
      && keys <= after && (Resolvable(d, name) ==> name in after)
      && AllChained(d, start, after) && Closed(d, after, pending)
      && Chained(d, start, name)
    decreases depth, 0
  {
    if name in keys {
    } else if !Resolvable(d, name) {
      assert ChainEnds(d, start, name, 0);
    } else if ItemRef(d, name).Some? {
      var ref := ItemRef(d, name).value;
      EvalLeaves(d, order, ref, keys, depth - 1, start, pending);
      ChainLonger(d, start, name);
      assert PropertyRefs(FlatOf(d, name)) == {};
    } else {
      assert ChainEnds(d, start, name, 0);
      EvalAllLeaves(d, order, order(name), keys + {name}, depth - 1, start, pending + {name});
      assert Refs(FlatOf(d, name)) == PropertyRefs(FlatOf(d, name));
      var after := EvalAll(d, order, order(name), keys + {name}, depth - 1).value;
      forall ref | ref in Refs(FlatOf(d, name)) && Resolvable(d, ref) ensures ref in after {
        assert ref in (set r | r in order(name));
      }
    }
  }

  lemma {:induction false} EvalAllLeaves(
    d: Document, order: Order, names: seq<string>, keys: set<string>, depth: nat, start: set<string>,
    pending: set<string>)
    requires Orders(d, order) && EvalAll(d, order, names, keys, depth).Some?
    requires AllChained(d, start, keys) && Closed(d, keys, pending) && pending <= keys
    ensures
      var after := EvalAll(d, order, names, keys, depth).value;
      && keys <= after && (forall name | name in names && Resolvable(d, name) :: name in after)
      && AllChained(d, start, after) && Closed(d, after, pending)
    decreases depth, 1, |names|
  {
    if names != [] {
      EvalLeaves(d, order, names[0], keys, depth, start, pending);
      EvalAllLeaves(d, order, names[1..], Eval(d, order, names[0], keys, depth).value, depth, start, pending);
      assert forall name | name in names :: name == names[0] || name in names[1..];
    }
  }

  /**
   * Main theorem: from a closed map, in every iteration order, flattening `name` terminates exactly
   * when every chain of array components reachable from it ends.
   */
  lemma TerminatesExactlyWhenChainsEnd(d: Document, order: Order, name: string, keys: set<string>)
    requires Orders(d, order) && Closed(d, keys, {})
    ensures Terminates(d, order, name, keys) <==> ChainsEnd(d, keys, name)
  {
    if ChainsEnd(d, keys, name) {
      var k := ChainsEndHere(d, keys, name);
      var depth := ChainsMakeItTerminate(d, order, name, keys, k);
    }
    if Terminates(d, order, name, keys) {
      var depth: nat :| Eval(d, order, name, keys, depth).Some?;
      forall n | n in keys ensures Chained(d, keys, n) {
        assert ChainEnds(d, keys, n, 0);
      }
      EvalLeaves(d, order, name, keys, depth, keys, {});
      var after := Eval(d, order, name, keys, depth).value;
      forall n | Reachable(d, name, n) ensures Chained(d, keys, n) {
        var path :| Linked(d, path) && path[0] == name && path[|path| - 1] == n;
        ClosedContainsReachable(d, after, name, n);
      }
    }
  }

  // ---------------------------------------------------------------- A cycle of arrays

  /** An array of itself. */
  function SelfArray(prefix: string, name: string): Document {
    Document(prefix, map[name := Some(Schema(["array"], Some(prefix + name), map[]))])
  }

  lemma {:induction false} SelfReferenceNeedsMore(
    d: Document, order: Order, name: string, keys: set<string>, depth: nat)
    requires ItemRef(d, name) == Some(name) && name !in keys
    ensures Eval(d, order, name, keys, depth).None?
  {
    if depth > 0 {
      SelfReferenceNeedsMore(d, order, name, keys, depth - 1);
    }
  }

  /** Flattening an array of itself never returns, in any order. */
  lemma SelfArrayNeverReturns(prefix: string, name: string, order: Order)
    requires name != ""
    ensures Resolvable(SelfArray(prefix, name), name)
    ensures !Terminates(SelfArray(prefix, name), order, name, {})
  {
    var d := SelfArray(prefix, name);
    assert (prefix + name)[|prefix|..] == name;
    assert FlatOf(d, name).items == Some(name);
    forall depth: nat ensures Eval(d, order, name, {}, depth).None? {
      SelfReferenceNeedsMore(d, order, name, {}, depth);
    }
  }
}
