/**
 * When the property paths of a schema come in one order only (internal/handler/actions.go): they are
 * sorted by path with an unstable sort, after a walk in Go's arbitrary map order.
 */
module SchemaPathOrder {
  import opened Prelude
  import opened SchemaPaths

  // ---------------------------------------------------------------- Sorted answers

  /** No path comes with two kinds. */
  ghost predicate OneKindPerPath(s: seq<Entry>) {
    forall i, j | 0 <= i < |s| && 0 <= j < |s| :: s[i].path == s[j].path ==> s[i] == s[j]
  }

  lemma HeadsAgree(s: seq<Entry>, t: seq<Entry>)
    requires Sorted(s) && Sorted(t) && multiset(s) == multiset(t) && OneKindPerPath(s) && s != [] && t != []
    ensures s[0] == t[0]
  {
    assert s[0] in multiset(t) && t[0] in multiset(s);
    var i :| 0 <= i < |t| && t[i] == s[0];
    var j :| 0 <= j < |s| && s[j] == t[0];
    LessIsTotal(s[0].path, t[0].path);
    assert s[0].path == t[0].path;
  }

  lemma TailsAgree(s: seq<Entry>, t: seq<Entry>)
    requires multiset(s) == multiset(t) && s != [] && t != [] && s[0] == t[0]
    ensures multiset(s[1..]) == multiset(t[1..])
  {
    assert s == [s[0]] + s[1..] && t == [t[0]] + t[1..];
    assert multiset(s[1..]) == multiset(s) - multiset{s[0]};
    assert multiset(t[1..]) == multiset(t) - multiset{t[0]};
  }

  /** When no path comes with two kinds, the answer does not depend on any iteration order. */
  lemma {:induction false} SortedAnswerIsUnique(s: seq<Entry>, t: seq<Entry>)
    requires Sorted(s) && Sorted(t) && multiset(s) == multiset(t) && OneKindPerPath(s)
    ensures s == t
    decreases |s|
  {
    assert |multiset(s)| == |s| && |multiset(t)| == |t|;
    if s != [] {
      HeadsAgree(s, t);
      TailsAgree(s, t);
      SortedAnswerIsUnique(s[1..], t[1..]);
      assert s == [s[0]] + s[1..] && t == [t[0]] + t[1..];
    }
  }

  lemma {:induction false} PositionFor(s: seq<Entry>, e: Entry, from: nat) returns (k: nat)
    requires from <= |s| && (from < |s| ==> !Less(s[from].path, e.path))
    ensures k <= |s|
    ensures k > 0 ==> !Less(e.path, s[k - 1].path)
    ensures k < |s| ==> !Less(s[k].path, e.path)
    decreases from
  {
    k := from;
    if from > 0 && Less(e.path, s[from - 1].path) {
      LessIsTotal(s[from - 1].path, e.path);
      k := PositionFor(s, e, from - 1);
    }
  }

  lemma {:induction false} SortedExists(m: multiset<Entry>) returns (s: seq<Entry>)
    ensures Sorted(s) && multiset(s) == m
    decreases |m|
  {
    if m == multiset{} {
      s := [];
    } else {
      var e :| e in m;
      var rest := SortedExists(m - multiset{e});
      var k := PositionFor(rest, e, |rest|);
      SortedBetween(rest, k, e);
      MultisetBetween(rest, k, e);
      s := rest[..k] + ([e] + rest[k..]);
    }
  }

  lemma Exchange(s: seq<Entry>, i: nat, j: nat) returns (t: seq<Entry>)
    requires Sorted(s) && i < j < |s| && s[i].path == s[j].path && s[i] != s[j]
    ensures Sorted(t) && multiset(t) == multiset(s) && t != s
  {
    t := s[i := s[j]][j := s[i]];
    assert forall k | 0 <= k < |s| :: t[k].path == s[k].path;
    assert t[i] != s[i];
  }

  // ---------------------------------------------------------------- Exactly when there is one answer

  /** What flattenSchemaPaths can return. */
  ghost predicate IsAnswer(schemas: Schemas, name: string, prefix: string, depth: int, s: seq<Entry>) {
    Sorted(s) && multiset(s) == Paths(schemas, name, prefix, depth)
  }

  ghost predicate OneAnswer(schemas: Schemas, name: string, prefix: string, depth: int) {
    forall s, t | IsAnswer(schemas, name, prefix, depth, s) && IsAnswer(schemas, name, prefix, depth, t) :: s == t
  }

  /** Two walks end at the same path with different kinds. */
  ghost predicate TwoKinds(schemas: Schemas, name: string, prefix: string, depth: int, d: Entry, e: Entry) {
    && d.path == e.path && d.kind != e.kind
    && IsWalkEntry(schemas, name, prefix, depth, d) && IsWalkEntry(schemas, name, prefix, depth, e)
  }

  /** Main theorem: the answer is the same in every iteration order exactly when no two walks over the
      schemas end at one path with different kinds. */
  lemma OneAnswerExactlyWhen(schemas: Schemas, name: string, prefix: string, depth: int)
    ensures OneAnswer(schemas, name, prefix, depth) <==>
      !(exists d, e :: TwoKinds(schemas, name, prefix, depth, d, e))
  {
    if d, e :| TwoKinds(schemas, name, prefix, depth, d, e) {
      TwoAnswers(schemas, name, prefix, depth, d, e);
    } else {
      forall s, t | IsAnswer(schemas, name, prefix, depth, s) && IsAnswer(schemas, name, prefix, depth, t)
        ensures s == t
      {
        AnswerHasOneKindPerPath(schemas, name, prefix, depth, s);
        SortedAnswerIsUnique(s, t);
      }
    }
  }

  lemma TwoAnswers(schemas: Schemas, name: string, prefix: string, depth: int, d: Entry, e: Entry)
    requires TwoKinds(schemas, name, prefix, depth, d, e)
    ensures !OneAnswer(schemas, name, prefix, depth)
  {
    EntriesAreWalks(schemas, name, prefix, depth, d);
    EntriesAreWalks(schemas, name, prefix, depth, e);
    var s := SortedExists(Paths(schemas, name, prefix, depth));
    assert d in multiset(s) && e in multiset(s);
    var i :| 0 <= i < |s| && s[i] == d;
    var j :| 0 <= j < |s| && s[j] == e;
    var t := Exchange(s, if i < j then i else j, if i < j then j else i);
    assert IsAnswer(schemas, name, prefix, depth, s) && IsAnswer(schemas, name, prefix, depth, t);
  }

  lemma AnswerHasOneKindPerPath(schemas: Schemas, name: string, prefix: string, depth: int, s: seq<Entry>)
    requires IsAnswer(schemas, name, prefix, depth, s)
    requires !(exists d, e :: TwoKinds(schemas, name, prefix, depth, d, e))
    ensures OneKindPerPath(s)
  {
    forall i, j | 0 <= i < |s| && 0 <= j < |s| && s[i].path == s[j].path ensures s[i] == s[j] {
      assert s[i] in multiset(s) && s[j] in multiset(s);
      EntriesAreWalks(schemas, name, prefix, depth, s[i]);
      EntriesAreWalks(schemas, name, prefix, depth, s[j]);
      assert !TwoKinds(schemas, name, prefix, depth, s[i], s[j]);
    }
  }

  // ---------------------------------------------------------------- Plain names

  predicate PlainName(p: string) { p != "" && '.' !in p }

  /** No property name is empty or has a dot in it. */
  ghost predicate PlainNames(schemas: Schemas) {
    forall name, p | name in schemas && p in schemas[name].properties :: PlainName(p)
  }

  predicate AllPlain(walk: seq<string>) { forall p | p in walk :: PlainName(p) }

  /** Names joined by dots. */
  function Dotted(walk: seq<string>): string
    requires walk != []
  {
    if |walk| == 1 then walk[0] else walk[0] + ("." + Dotted(walk[1..]))
  }

  lemma {:induction false} JoinIsDotted(prefix: string, walk: seq<string>)
    requires AllPlain(walk) && walk != []
    ensures Join(prefix, walk) == FullPath(prefix, Dotted(walk)) && Dotted(walk) != ""
    decreases |walk|
  {
    assert walk[0] in walk;
    if |walk| > 1 {
      JoinIsDotted(FullPath(prefix, walk[0]), walk[1..]);
      var rest := Dotted(walk[1..]);
      assert prefix + "." + walk[0] + "." + rest == prefix + "." + (walk[0] + ("." + rest));
      assert walk[0] + "." + rest == walk[0] + ("." + rest);
    }
  }

  /** What stands before the first dot is known. */
  lemma FirstNames(a: string, rest: string, b: string, rest2: string)
    requires '.' !in a && '.' !in b && a + rest == b + rest2
    requires (rest == "" || rest[0] == '.') && (rest2 == "" || rest2[0] == '.')
    ensures a == b && rest == rest2
  {
    var text := a + rest;
    assert |a| < |text| ==> text[|a|] == '.';
    assert |b| < |text| ==> text[|b|] == '.';
    assert forall k | 0 <= k < |a| :: text[k] == a[k] != '.';
    assert forall k | 0 <= k < |b| :: text[k] == b[k] != '.';
    assert a == text[..|a|] && b == text[..|b|];
    assert rest == text[|a|..] && rest2 == text[|b|..];
  }

  function DottedTail(walk: seq<string>): string
    requires walk != []
  {
    if |walk| == 1 then "" else "." + Dotted(walk[1..])
  }

  lemma {:induction false} DottedIsInjective(v: seq<string>, w: seq<string>)
    requires AllPlain(v) && AllPlain(w) && v != [] && w != [] && Dotted(v) == Dotted(w)
    ensures v == w
    decreases |v|
  {
    assert v[0] in v && w[0] in w;
    assert Dotted(v) == v[0] + DottedTail(v) && Dotted(w) == w[0] + DottedTail(w);
    FirstNames(v[0], DottedTail(v), w[0], DottedTail(w));
    if |v| > 1 && |w| > 1 {
      assert DottedTail(v)[1..] == Dotted(v[1..]) && DottedTail(w)[1..] == Dotted(w[1..]);
      DottedIsInjective(v[1..], w[1..]);
      assert v == [v[0]] + v[1..] && w == [w[0]] + w[1..];
    }
  }

  lemma {:induction false} WalksArePlain(schemas: Schemas, name: string, walk: seq<string>, target: string)
    requires PlainNames(schemas) && Leads(schemas, name, walk, target)
    ensures AllPlain(walk)
    decreases |walk|
  {
    if walk != [] {
      WalksArePlain(schemas, schemas[name].properties[walk[0]].schemaRef, walk[1..], target);
      assert walk == [walk[0]] + walk[1..];
    }
  }

  lemma {:induction false} WalkDetermines(schemas: Schemas, name: string, walk: seq<string>, t: string, u: string)
    requires Leads(schemas, name, walk, t) && Leads(schemas, name, walk, u)
    ensures t == u
    decreases |walk|
  {
    if walk != [] {
      WalkDetermines(schemas, schemas[name].properties[walk[0]].schemaRef, walk[1..], t, u);
    }
  }

  /** A walk ends by following one property of the schema before. */
  lemma {:induction false} LastStep(schemas: Schemas, name: string, walk: seq<string>, target: string)
    returns (before: string)
    requires walk != [] && Leads(schemas, name, walk, target)
    ensures Leads(schemas, name, walk[..|walk| - 1], before)
    ensures before in schemas && schemas[before].kind != "array"
    ensures
      var p := walk[|walk| - 1];
      && p in schemas[before].properties && Descends(schemas[before].properties[p])
      && schemas[before].properties[p].schemaRef == target
    decreases |walk|
  {
    if |walk| == 1 {
      before := name;
    } else {
      var next := schemas[name].properties[walk[0]].schemaRef;
      before := LastStep(schemas, next, walk[1..], target);
      assert walk[1..][..|walk| - 2] == walk[..|walk| - 1][1..];
    }
  }

  lemma {:induction false} JoinOneMore(prefix: string, walk: seq<string>, p: string)
    ensures Join(prefix, walk + [p]) == FullPath(Join(prefix, walk), p)
    decreases |walk|
  {
    if walk == [] {
      assert [] + [p] == [p] && [p][1..] == [];
    } else {
      assert (walk + [p])[1..] == walk[1..] + [p];
      JoinOneMore(FullPath(prefix, walk[0]), walk[1..], p);
    }
  }

  /** An array schema is reached through some property. */
  ghost predicate ReachesArray(schemas: Schemas, name: string, depth: int, walk: seq<string>, target: string) {
    && walk != [] && |walk| < depth && Leads(schemas, name, walk, target)
    && target in schemas && schemas[target].kind == "array"
  }

  lemma ArrayHasTwoKinds(schemas: Schemas, name: string, depth: int, walk: seq<string>, target: string)
    requires PlainNames(schemas) && ReachesArray(schemas, name, depth, walk, target)
    ensures exists d, e :: TwoKinds(schemas, name, "", depth, d, e)
  {
    var n := |walk| - 1;
    var path := Join("", walk);
    var before := LastStep(schemas, name, walk, target);
    WalksArePlain(schemas, name, walk, target);
    JoinIsDotted("", walk);
    assert walk == walk[..n] + [walk[n]];
    JoinOneMore("", walk[..n], walk[n]);
    var d, e := Entry(path, "array"), Entry(path, "object");
    assert ArrayEntry(schemas, name, "", depth, d, walk, target);
    assert PropertyEntry(schemas, name, "", depth, e, walk[..n], before, walk[n]);
    assert TwoKinds(schemas, name, "", depth, d, e);
  }

  /** Two properties with the same path are the same property. */
  lemma SamePathSameProperty(
    schemas: Schemas, name: string, depth: int, d: Entry, e: Entry,
    v: seq<string>, t: string, p: string, w: seq<string>, u: string, q: string)
    requires PlainNames(schemas) && d.path == e.path
    requires PropertyEntry(schemas, name, "", depth, d, v, t, p)
    requires PropertyEntry(schemas, name, "", depth, e, w, u, q)
    ensures d == e
  {
    WalksArePlain(schemas, name, v, t);
    WalksArePlain(schemas, name, w, u);
    JoinOneMore("", v, p);
    JoinOneMore("", w, q);
    JoinIsDotted("", v + [p]);
    JoinIsDotted("", w + [q]);
    DottedIsInjective(v + [p], w + [q]);
    assert (v + [p])[..|v|] == v && (w + [q])[..|v|] == w;
    WalkDetermines(schemas, name, v, t, u);
  }

  lemma EntryKinds(schemas: Schemas, name: string, depth: int, e: Entry)
    requires IsWalkEntry(schemas, name, "", depth, e)
    requires !(exists walk, target :: ReachesArray(schemas, name, depth, walk, target))
    ensures e.kind == "array" || exists walk, target, p :: PropertyEntry(schemas, name, "", depth, e, walk, target, p)
    ensures name in schemas && schemas[name].kind == "array" ==> e.kind == "array"
    ensures !(exists walk, target, p :: PropertyEntry(schemas, name, "", depth, e, walk, target, p)) ==>
      name in schemas && schemas[name].kind == "array"
  {
    if walk, target :| ArrayEntry(schemas, name, "", depth, e, walk, target) {
      assert walk == [] by {
        assert !ReachesArray(schemas, name, depth, walk, target);
      }
    }
  }

  /** Main theorem: with plain property names, the answer is the same in every iteration order exactly when
      no property leads to an array schema within the depth: its path would come as object and as array. */
  lemma OneAnswerWithPlainNames(schemas: Schemas, name: string, depth: int)
    requires PlainNames(schemas)
    ensures OneAnswer(schemas, name, "", depth) <==>
      !(exists walk, target :: ReachesArray(schemas, name, depth, walk, target))
  {
    OneAnswerExactlyWhen(schemas, name, "", depth);
    if walk, target :| ReachesArray(schemas, name, depth, walk, target) {
      ArrayHasTwoKinds(schemas, name, depth, walk, target);
    } else if d, e :| TwoKinds(schemas, name, "", depth, d, e) {
      EntryKinds(schemas, name, depth, d);
      EntryKinds(schemas, name, depth, e);
      var v, t, p :| PropertyEntry(schemas, name, "", depth, d, v, t, p);
      var w, u, q :| PropertyEntry(schemas, name, "", depth, e, w, u, q);
      SamePathSameProperty(schemas, name, depth, d, e, v, t, p, w, u, q);
    }
  }
}
