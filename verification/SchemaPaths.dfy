/**
 * Depth-bounded enumeration of the property paths of a schema (internal/handler/actions.go,
 * flattenSchemaPaths): schemas may refer to each other in cycles, and Go visits the properties of each
 * one in an arbitrary order.
 */
module SchemaPaths {
  import opened Prelude

  datatype Property = Property(kind: string, schemaRef: string)

  datatype Schema = Schema(kind: string, properties: map<string, Property>)

  datatype Entry = Entry(path: string, kind: string)

  type Schemas = map<string, Schema>

  function FullPath(prefix: string, name: string): string {
    if prefix != "" then prefix + "." + name else name
  }

  /** A property whose schema is entered. */
  predicate Descends(p: Property) {
    p.schemaRef != "" && p.kind == "object"
  }

  // ---------------------------------------------------------------- The entries, regardless of order

  /** The entries of a schema as a multiset. */
  ghost function Paths(schemas: Schemas, name: string, prefix: string, depth: int): multiset<Entry>
    decreases Max0(depth), 2
  {
    if depth <= 0 || name !in schemas then multiset{}
    else if schemas[name].kind == "array" then multiset{Entry(if prefix == "" then name else prefix, "array")}
    else PathsOf(schemas, schemas[name], schemas[name].properties.Keys, prefix, depth)
  }

  /** The entries one property contributes: itself, and those of the schema it refers to. */
  ghost function PathsAt(schemas: Schemas, p: Property, full: string, depth: int): multiset<Entry>
    requires depth > 0
    decreases depth, 0
  {
    multiset{Entry(full, p.kind)}
    + if Descends(p) then Paths(schemas, p.schemaRef, full, depth - 1) else multiset{}
  }

  ghost function PathsOf(schemas: Schemas, s: Schema, names: set<string>, prefix: string, depth: int): multiset<Entry>
    requires depth > 0 && names <= s.properties.Keys
    decreases depth, 1, |names|
  {
    if names == {} then multiset{} else
    var name :| name in names;
    PathsAt(schemas, s.properties[name], FullPath(prefix, name), depth)
    + PathsOf(schemas, s, names - {name}, prefix, depth)
  }

  /** Any property may be visited first. */
  lemma {:induction false} PathsOfAnyOrder(
    schemas: Schemas, s: Schema, names: set<string>, prefix: string, depth: int, name: string)
    requires depth > 0 && names <= s.properties.Keys && name in names
    ensures PathsOf(schemas, s, names, prefix, depth)
         == PathsAt(schemas, s.properties[name], FullPath(prefix, name), depth)
            + PathsOf(schemas, s, names - {name}, prefix, depth)
    decreases |names|
  {
    var first :| first in names && PathsOf(schemas, s, names, prefix, depth)
      == PathsAt(schemas, s.properties[first], FullPath(prefix, first), depth)
         + PathsOf(schemas, s, names - {first}, prefix, depth);
    if first != name {
      PathsOfAnyOrder(schemas, s, names - {first}, prefix, depth, name);
      PathsOfAnyOrder(schemas, s, names - {name}, prefix, depth, first);
      assert names - {first} - {name} == names - {name} - {first};
      Swap(PathsAt(schemas, s.properties[first], FullPath(prefix, first), depth),
           PathsAt(schemas, s.properties[name], FullPath(prefix, name), depth),
           PathsOf(schemas, s, names - {name} - {first}, prefix, depth));
    }
  }

  lemma Swap(a: multiset<Entry>, b: multiset<Entry>, c: multiset<Entry>)
    ensures a + (b + c) == b + (a + c)
  {
  }

  // ---------------------------------------------------------------- Entries are walks

  /** Following object references along property names leads from schema `name` to schema `target`. */
  predicate Leads(schemas: Schemas, name: string, walk: seq<string>, target: string)
    decreases |walk|
  {
    if walk == [] then name == target
    else
      && name in schemas && schemas[name].kind != "array"
      && walk[0] in schemas[name].properties
      && schemas[name].properties[walk[0]].kind == "object" && schemas[name].properties[walk[0]].schemaRef != ""
      && Leads(schemas, schemas[name].properties[walk[0]].schemaRef, walk[1..], target)
  }

  function Join(prefix: string, walk: seq<string>): string
    decreases |walk|
  {
    if walk == [] then prefix else Join(FullPath(prefix, walk[0]), walk[1..])
  }

  /** The entry stands for an array schema at the end of a walk. */
  ghost predicate ArrayEntry(
    schemas: Schemas, name: string, prefix: string, depth: int, e: Entry, walk: seq<string>, target: string) {
    && |walk| < depth && Leads(schemas, name, walk, target)
    && target in schemas && schemas[target].kind == "array"
    && e == Entry(if Join(prefix, walk) == "" then target else Join(prefix, walk), "array")
  }

  /** The entry stands for a property of the object schema at the end of a walk. */
  ghost predicate PropertyEntry(
    schemas: Schemas, name: string, prefix: string, depth: int, e: Entry, walk: seq<string>, target: string,
    p: string) {
    && |walk| < depth && Leads(schemas, name, walk, target)
    && target in schemas && schemas[target].kind != "array" && p in schemas[target].properties
    && e == Entry(FullPath(Join(prefix, walk), p), schemas[target].properties[p].kind)
  }

  ghost predicate IsWalkEntry(schemas: Schemas, name: string, prefix: string, depth: int, e: Entry) {
    || (exists walk, target :: ArrayEntry(schemas, name, prefix, depth, e, walk, target))
    || (exists walk, target, p :: PropertyEntry(schemas, name, prefix, depth, e, walk, target, p))
  }

  // ---------------------------------------------------------------- One entry per walk

  /** Where an entry comes from: an array schema at the end of a walk, or a property of the object schema there. */
  datatype Origin = Origin(walk: seq<string>, property: Option<string>)

  ghost predicate OriginAt(
    schemas: Schemas, name: string, prefix: string, depth: int, e: Entry, o: Origin, target: string) {
    match o.property
    case None => ArrayEntry(schemas, name, prefix, depth, e, o.walk, target)
    case Some(p) => PropertyEntry(schemas, name, prefix, depth, e, o.walk, target, p)
  }

  ghost predicate IsOrigin(schemas: Schemas, name: string, prefix: string, depth: int, e: Entry, o: Origin) {
    exists target :: OriginAt(schemas, name, prefix, depth, e, o, target)
  }

  /** The first property on the way. */
  function FirstOf(o: Origin): Option<string> {
    if o.walk == [] then o.property else Some(o.walk[0])
  }

  function TailOf(o: Origin): Origin
    requires o.walk != []
  {
    Origin(o.walk[1..], o.property)
  }

  lemma NothingReached(schemas: Schemas, name: string, prefix: string, depth: int, e: Entry, o: Origin)
    requires depth <= 0 || name !in schemas
    ensures !IsOrigin(schemas, name, prefix, depth, e, o)
  {
  }

  lemma ArrayOrigin(schemas: Schemas, name: string, prefix: string, depth: int, e: Entry, o: Origin)
    requires depth > 0 && name in schemas && schemas[name].kind == "array"
    ensures IsOrigin(schemas, name, prefix, depth, e, o)
       <==> o == Origin([], None) && e == Entry(if prefix == "" then name else prefix, "array")
  {
    if o == Origin([], None) && e == Entry(if prefix == "" then name else prefix, "array") {
      assert OriginAt(schemas, name, prefix, depth, e, Origin([], None), name);
    }
  }

  lemma OriginStarts(schemas: Schemas, name: string, prefix: string, depth: int, e: Entry, o: Origin)
    requires name in schemas && schemas[name].kind != "array" && IsOrigin(schemas, name, prefix, depth, e, o)
    ensures FirstOf(o).Some? && FirstOf(o).value in schemas[name].properties
  {
  }

  /** An origin on the schema itself. */
  lemma OwnOrigin(schemas: Schemas, name: string, prefix: string, depth: int, e: Entry, p: string)
    requires depth > 0 && name in schemas && schemas[name].kind != "array" && p in schemas[name].properties
    ensures IsOrigin(schemas, name, prefix, depth, e, Origin([], Some(p)))
       <==> e == Entry(FullPath(prefix, p), schemas[name].properties[p].kind)
  {
    if e == Entry(FullPath(prefix, p), schemas[name].properties[p].kind) {
      assert OriginAt(schemas, name, prefix, depth, e, Origin([], Some(p)), name);
    }
  }

  /** Splitting off the first property of a walk. */
  lemma FartherOrigin(schemas: Schemas, name: string, prefix: string, depth: int, e: Entry, o: Origin)
    requires name in schemas && schemas[name].kind != "array" && o.walk != [] && o.walk[0] in schemas[name].properties
    ensures
      var p := schemas[name].properties[o.walk[0]];
      IsOrigin(schemas, name, prefix, depth, e, o) <==>
        Descends(p) && IsOrigin(schemas, p.schemaRef, FullPath(prefix, o.walk[0]), depth - 1, e, TailOf(o))
  {
    var p, full := schemas[name].properties[o.walk[0]], FullPath(prefix, o.walk[0]);
    if target :| OriginAt(schemas, name, prefix, depth, e, o, target) {
      assert OriginAt(schemas, p.schemaRef, full, depth - 1, e, TailOf(o), target);
    }
    if Descends(p) && IsOrigin(schemas, p.schemaRef, full, depth - 1, e, TailOf(o)) {
      var target :| OriginAt(schemas, p.schemaRef, full, depth - 1, e, TailOf(o), target);
      assert OriginAt(schemas, name, prefix, depth, e, o, target);
    }
  }

  /** Each origin one property farther away. */
  lemma {:induction false} Farther(p: string, below: set<Origin>) returns (r: set<Origin>)
    ensures |r| == |below|
    ensures forall o :: o in r <==> o.walk != [] && o.walk[0] == p && TailOf(o) in below
    decreases |below|
  {
    if below == {} {
      r := {};
    } else {
      var o :| o in below;
      var farther := Origin([p] + o.walk, o.property);
      assert TailOf(farther) == o;
      r := Farther(p, below - {o});
      CardinalityPlusOne(r, r + {farther}, farther);
      CardinalityPlusOne(below - {o}, below, o);
      forall x: Origin | x.walk != [] && x.walk[0] == p && TailOf(x) == o ensures x == farther {
        assert x.walk == [p] + x.walk[1..];
      }
      r := r + {farther};
    }
  }

  /** The origins whose first property is `p`, as many as the entries it accounts for. */
  lemma {:induction false} PropertyOrigins(
    schemas: Schemas, name: string, prefix: string, depth: int, e: Entry, p: string) returns (origins: set<Origin>)
    requires depth > 0 && name in schemas && schemas[name].kind != "array" && p in schemas[name].properties
    ensures forall o :: o in origins <==> FirstOf(o) == Some(p) && IsOrigin(schemas, name, prefix, depth, e, o)
    ensures PathsAt(schemas, schemas[name].properties[p], FullPath(prefix, p), depth)[e] == |origins|
    decreases depth, 0
  {
    var property, full := schemas[name].properties[p], FullPath(prefix, p);
    var below := {};
    if Descends(property) {
      below := EntriesAreCounted(schemas, property.schemaRef, full, depth - 1, e);
    }
    var farther := Farther(p, below);
    origins := farther + if e == Entry(full, property.kind) then {Origin([], Some(p))} else {};
    if e == Entry(full, property.kind) {
      CardinalityPlusOne(farther, origins, Origin([], Some(p)));
    }
    OwnOrigin(schemas, name, prefix, depth, e, p);
    forall o | FirstOf(o) == Some(p) && o.walk != []
      ensures o in origins <==> IsOrigin(schemas, name, prefix, depth, e, o)
    {
      FartherOrigin(schemas, name, prefix, depth, e, o);
    }
  }

  lemma {:induction false} OriginsOf(
    schemas: Schemas, name: string, names: set<string>, prefix: string, depth: int, e: Entry)
    returns (origins: set<Origin>)
    requires depth > 0 && name in schemas && schemas[name].kind != "array" && names <= schemas[name].properties.Keys
    ensures forall o :: o in origins <==>
      FirstOf(o).Some? && FirstOf(o).value in names && IsOrigin(schemas, name, prefix, depth, e, o)
    ensures PathsOf(schemas, schemas[name], names, prefix, depth)[e] == |origins|
    decreases depth, 1, |names|
  {
    if names == {} {
      origins := {};
    } else {
      var p :| p in names;
      var first := PropertyOrigins(schemas, name, prefix, depth, e, p);
      var others := OriginsOf(schemas, name, names - {p}, prefix, depth, e);
      PathsOfAnyOrder(schemas, schemas[name], names, prefix, depth, p);
      assert first !! others;
      origins := first + others;
    }
  }

  /**
   * Main theorem: each entry occurs as often as there are walks of fewer than `depth` object references
   * it stands for: one for each property of each object schema reached, one for each array schema reached.
   */
  lemma {:induction false} EntriesAreCounted(schemas: Schemas, name: string, prefix: string, depth: int, e: Entry)
    returns (origins: set<Origin>)
    ensures forall o :: o in origins <==> IsOrigin(schemas, name, prefix, depth, e, o)
    ensures Paths(schemas, name, prefix, depth)[e] == |origins|
    decreases Max0(depth), 2
  {
    origins := {};
    if depth <= 0 || name !in schemas {
      forall o ensures !IsOrigin(schemas, name, prefix, depth, e, o) {
        NothingReached(schemas, name, prefix, depth, e, o);
      }
    } else if schemas[name].kind == "array" {
      forall o {
        ArrayOrigin(schemas, name, prefix, depth, e, o);
      }
      if e == Entry(if prefix == "" then name else prefix, "array") {
        origins := {Origin([], None)};
      }
    } else {
      origins := OriginsOf(schemas, name, schemas[name].properties.Keys, prefix, depth, e);
      forall o | IsOrigin(schemas, name, prefix, depth, e, o)
        ensures FirstOf(o).Some? && FirstOf(o).value in schemas[name].properties.Keys
      {
        OriginStarts(schemas, name, prefix, depth, e, o);
      }
    }
  }

  lemma OriginIsWalk(schemas: Schemas, name: string, prefix: string, depth: int, e: Entry, o: Origin)
    requires IsOrigin(schemas, name, prefix, depth, e, o)
    ensures IsWalkEntry(schemas, name, prefix, depth, e)
  {
    var target :| OriginAt(schemas, name, prefix, depth, e, o, target);
  }

  /** In particular, exactly the entries of such walks occur. */
  lemma EntriesAreWalks(schemas: Schemas, name: string, prefix: string, depth: int, e: Entry)
    ensures e in Paths(schemas, name, prefix, depth) <==> IsWalkEntry(schemas, name, prefix, depth, e)
  {
    var origins := EntriesAreCounted(schemas, name, prefix, depth, e);
    if e in Paths(schemas, name, prefix, depth) {
      var o :| o in origins;
      OriginIsWalk(schemas, name, prefix, depth, e, o);
    }
    if IsWalkEntry(schemas, name, prefix, depth, e) {
      var o := WalkIsOrigin(schemas, name, prefix, depth, e);
      assert o in origins;
    }
  }

  lemma WalkIsOrigin(schemas: Schemas, name: string, prefix: string, depth: int, e: Entry) returns (o: Origin)
    requires IsWalkEntry(schemas, name, prefix, depth, e)
    ensures IsOrigin(schemas, name, prefix, depth, e, o)
  {
    if walk, target :| ArrayEntry(schemas, name, prefix, depth, e, walk, target) {
      o := Origin(walk, None);
      assert OriginAt(schemas, name, prefix, depth, e, o, target);
    } else {
      var walk, target, p :| PropertyEntry(schemas, name, prefix, depth, e, walk, target, p);
      o := Origin(walk, Some(p));
      assert OriginAt(schemas, name, prefix, depth, e, o, target);
    }
  }

  // ---------------------------------------------------------------- Order

  /** Go's < on strings: bytewise lexicographic. */
  predicate Less(s: string, t: string) {
    t != "" && (s == "" || s[0] < t[0] || (s[0] == t[0] && Less(s[1..], t[1..])))
  }

  /** The two texts agree up to position `k`, where the first is smaller or at its end. */
  predicate FirstDifference(s: string, t: string, k: nat) {
    k <= |s| && k < |t| && s[..k] == t[..k] && (k == |s| || s[k] < t[k])
  }

  /** The dictionary order: a proper prefix comes first, else the first difference decides. */
  lemma {:induction false} LessIsDictionaryOrder(s: string, t: string)
    ensures Less(s, t) <==> exists k :: FirstDifference(s, t, k)
    decreases |s|
  {
    forall k | 0 < k <= |s| && k <= |t| && s[..k] == t[..k] ensures s[0] == t[0] {
      assert s[..k][0] == t[..k][0];
    }
    if s != "" && t != "" && s[0] == t[0] {
      LessIsDictionaryOrder(s[1..], t[1..]);
      if k: nat :| FirstDifference(s[1..], t[1..], k) {
        assert s[..k + 1] == [s[0]] + s[1..][..k] && t[..k + 1] == [t[0]] + t[1..][..k];
        assert FirstDifference(s, t, k + 1);
      }
      if k: nat :| FirstDifference(s, t, k) {
        assert k > 0;
        assert s[1..][..k - 1] == s[..k][1..] && t[1..][..k - 1] == t[..k][1..];
        assert FirstDifference(s[1..], t[1..], k - 1);
      }
    } else if Less(s, t) {
      assert FirstDifference(s, t, 0);
    }
  }

  /** The answer is in ascending dictionary order of its paths. */
  lemma SortedIsAscending(s: seq<Entry>, i: nat, j: nat, k: nat)
    requires Sorted(s) && i < j < |s|
    ensures !FirstDifference(s[j].path, s[i].path, k)
  {
    LessIsDictionaryOrder(s[j].path, s[i].path);
  }

  lemma {:induction false} LessIsTotal(s: string, t: string)
    ensures Less(s, t) || Less(t, s) || s == t
    ensures !(Less(s, t) && Less(t, s))
    decreases |s|
  {
    if s != "" && t != "" && s[0] == t[0] {
      LessIsTotal(s[1..], t[1..]);
      assert s == [s[0]] + s[1..] && t == [t[0]] + t[1..];
    }
  }

  lemma {:induction false} LessIsTransitive(s: string, t: string, u: string)
    requires !Less(t, s) && !Less(u, t)
    ensures !Less(u, s)
    decreases |s|
  {
    if Less(u, s) && u != "" && t != "" && s != "" && u[0] == s[0] {
      if t[0] == s[0] {
        LessIsTransitive(s[1..], t[1..], u[1..]);
      }
    }
  }

  ghost predicate Sorted(s: seq<Entry>) {
    forall i, j | 0 <= i < j < |s| :: !Less(s[j].path, s[i].path)
  }

  /** sort.Slice by path. */
  method Sort(s: seq<Entry>) returns (r: seq<Entry>)
    ensures Sorted(r) && multiset(r) == multiset(s)
  {
    r := [];
    for i := 0 to |s|
      invariant Sorted(r) && multiset(r) == multiset(s[..i])
    {
      r := Insert(r, s[i]);
      assert s[..i + 1] == s[..i] + [s[i]];
    }
    assert s[..|s|] == s;
  }

  lemma SortedBetween(s: seq<Entry>, k: nat, e: Entry)
    requires Sorted(s) && k <= |s|
    requires k > 0 ==> !Less(e.path, s[k - 1].path)
    requires k < |s| ==> !Less(s[k].path, e.path)
    ensures Sorted(s[..k] + ([e] + s[k..]))
  {
    forall j | 0 <= j < k ensures !Less(e.path, s[j].path) {
      LessIsTotal(s[j].path, s[j].path);
      LessIsTransitive(s[j].path, s[k - 1].path, e.path);
    }
    forall j | k <= j < |s| ensures !Less(s[j].path, e.path) {
      LessIsTotal(s[j].path, s[j].path);
      LessIsTransitive(e.path, s[k].path, s[j].path);
    }
    SortedJoin(s[..k], [e] + s[k..]);
  }

  lemma SortedJoin(s: seq<Entry>, t: seq<Entry>)
    requires Sorted(s) && Sorted(t)
    requires forall i, j | 0 <= i < |s| && 0 <= j < |t| :: !Less(t[j].path, s[i].path)
    ensures Sorted(s + t)
  {
  }

  lemma MultisetBetween(s: seq<Entry>, k: nat, e: Entry)
    requires k <= |s|
    ensures multiset(s[..k] + ([e] + s[k..])) == multiset(s) + multiset{e}
  {
    assert s == s[..k] + s[k..];
  }

  method Insert(s: seq<Entry>, e: Entry) returns (r: seq<Entry>)
    requires Sorted(s)
    ensures Sorted(r) && multiset(r) == multiset(s) + multiset{e}
  {
    var k := |s|;
    while k > 0 && Less(e.path, s[k - 1].path)
      invariant 0 <= k <= |s| && (k < |s| ==> Less(e.path, s[k].path))
    {
      k := k - 1;
    }
    if k < |s| {
      LessIsTotal(s[k].path, e.path);
    }
    SortedBetween(s, k, e);
    MultisetBetween(s, k, e);
    r := s[..k] + ([e] + s[k..]);
  }

  /** flattenSchemaPaths */
  method FlattenSchemaPaths(schemas: Schemas, schemaName: string, prefix: string, maxDepth: int)
    returns (paths: seq<Entry>)
    ensures Sorted(paths)
    ensures multiset(paths) == Paths(schemas, schemaName, prefix, maxDepth)
    decreases Max0(maxDepth), 1
  {
    if maxDepth <= 0 || schemaName !in schemas {
      return [];
    }
    var schema := schemas[schemaName];
    if schema.kind == "array" {
      var path := prefix;
      if path == "" {
        path := schemaName;
      }
      return [Entry(path, "array")];
    }
    paths := [];
    var rest := schema.properties.Keys;
    while rest != {}
      invariant rest <= schema.properties.Keys
      invariant multiset(paths) + PathsOf(schemas, schema, rest, prefix, maxDepth)
             == PathsOf(schemas, schema, schema.properties.Keys, prefix, maxDepth)
      decreases |rest|
    {
      var name :| name in rest;
      PathsOfAnyOrder(schemas, schema, rest, prefix, maxDepth, name);
      rest := rest - {name};
      var entries := VisitProperty(schemas, schema.properties[name], FullPath(prefix, name), maxDepth);
      paths := paths + entries;
    }
    paths := Sort(paths);
  }

  /** The body of its loop: a property's own entry, then those of the schema it refers to. */
  method VisitProperty(schemas: Schemas, p: Property, fullPath: string, maxDepth: int) returns (entries: seq<Entry>)
    requires maxDepth > 0
    ensures multiset(entries) == PathsAt(schemas, p, fullPath, maxDepth)
    decreases Max0(maxDepth), 0
  {
    entries := [Entry(fullPath, p.kind)];
    if p.schemaRef != "" && p.kind == "object" {
      var nested := FlattenSchemaPaths(schemas, p.schemaRef, fullPath, maxDepth - 1);
      entries := entries + nested;
    }
  }
}
