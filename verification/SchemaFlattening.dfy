/**
 * Flattening of response schemas (cmd/fetchactions-oas3/parse.go and its twin in fetchactions-oas2,
 * which differs only in the reference prefix): a depth-first search over a possibly cyclic graph of
 * components that fills one shared map, in whatever order Go iterates the properties.
 */
module SchemaFlattening {
  import opened Prelude

  // ---------------------------------------------------------------- The specification document

  /** The schema a property proxy resolves to, as far as flattening looks at it. */
  datatype PropertySchema = PropertySchema(types: seq<string>, description: string, nullable: Option<bool>)

  /** A property's proxy: its $ref text ("" for an inline schema) and the schema behind it, if it resolves. */
  datatype Proxy = Proxy(ref: string, schema: Option<PropertySchema>)

  /** `items` is the $ref text of the item schema ("" when inline), None without an item schema;
      a None property stands for a nil proxy. */
  datatype Schema = Schema(types: seq<string>, items: Option<string>, properties: map<string, Option<Proxy>>)

  /** The components (or definitions) of one document; None is a proxy that does not resolve. */
  datatype Document = Document(prefix: string, components: map<string, Option<Schema>>)

  // ---------------------------------------------------------------- The flattened form

  datatype Property = Property(kind: string, description: string, nullable: bool, schemaRef: string)

  datatype FlatSchema = FlatSchema(kind: string, properties: map<string, Property>, items: Option<string>)

  /** The last part of a reference split at slashes. */
  function LastSegment(s: string): string {
    if s == "" || s[|s| - 1] == '/' then "" else LastSegment(s[..|s| - 1]) + [s[|s| - 1]]
  }

  /** It holds no slash, and stands at the end, after a slash or as the whole text. */
  lemma {:induction false} LastSegmentIsLast(s: string)
    ensures
      var r := LastSegment(s);
      && '/' !in r && |r| <= |s| && r == s[|s| - |r|..]
      && (|r| < |s| ==> s[|s| - |r| - 1] == '/')
  {
    if s != "" && s[|s| - 1] != '/' {
      LastSegmentIsLast(s[..|s| - 1]);
    }
  }

  /** extractV3RefName / extractRefName: the name after the document's own prefix, else the last segment. */
  function RefName(prefix: string, ref: string): string {
    if prefix <= ref && ref != "" then ref[|prefix|..] else LastSegment(ref)
  }

  function FlatProperty(prefix: string, proxy: Option<Proxy>): Property {
    if proxy.None? then Property("string", "", false, "") else
    var refName := RefName(prefix, proxy.value.ref);
    match proxy.value.schema
    case None => if refName != "" then Property("object", "", false, refName) else Property("string", "", false, "")
    case Some(schema) =>
      var kind := if |schema.types| > 0 then schema.types[0] else if refName != "" then "object" else "string";
      Property(kind, schema.description, schema.nullable == Some(true),
               if refName != "" && kind == "object" then refName else "")
  }

  function FlatProperties(prefix: string, properties: map<string, Option<Proxy>>): map<string, Property> {
    map name | name in properties :: FlatProperty(prefix, properties[name])
  }

  function Kind(types: seq<string>): string {
    if |types| > 0 then types[0] else "object"
  }

  /** One component flattened on its own, with its references kept by name. */
  function Flat(prefix: string, schema: Schema): FlatSchema {
    var kind := Kind(schema.types);
    if kind == "array" && schema.items.Some? then
      var ref := RefName(prefix, schema.items.value);
      FlatSchema(kind, map[], if ref != "" then Some(ref) else None)
    else FlatSchema(kind, FlatProperties(prefix, schema.properties), None)
  }

  function PropertyRefs(flat: FlatSchema): set<string> {
    set name | name in flat.properties && flat.properties[name].schemaRef != "" :: flat.properties[name].schemaRef
  }

  function Refs(flat: FlatSchema): set<string> {
    PropertyRefs(flat) + if flat.items.Some? then {flat.items.value} else {}
  }

  predicate Resolvable(d: Document, name: string) {
    name in d.components && d.components[name].Some?
  }

  function FlatOf(d: Document, name: string): FlatSchema
    requires Resolvable(d, name)
  {
    Flat(d.prefix, d.components[name].value)
  }

  // ---------------------------------------------------------------- Reachability

  /** A chain of resolvable components, each referring to the next. */
  ghost predicate Linked(d: Document, path: seq<string>) {
    && |path| > 0
    && (forall i | 0 <= i < |path| :: Resolvable(d, path[i]))
    && (forall i, j | 0 <= i < |path| && j == i + 1 < |path| :: path[j] in Refs(FlatOf(d, path[i])))
  }

  ghost predicate Reachable(d: Document, start: string, name: string) {
    exists path :: Linked(d, path) && path[0] == start && path[|path| - 1] == name
  }

  /** Every resolvable reference of an expanded component is a key. `pending` are the object components
      already stored whose references are still being followed. */
  ghost predicate Closed(d: Document, keys: set<string>, pending: set<string>) {
    forall name, ref | name in keys - pending && Resolvable(d, name) && ref in Refs(FlatOf(d, name)) ::
      Resolvable(d, ref) ==> ref in keys
  }

  lemma ClosedWith(d: Document, keys: set<string>, pending: set<string>, name: string)
    requires Closed(d, keys, pending) && Resolvable(d, name)
    requires forall ref | ref in Refs(FlatOf(d, name)) && Resolvable(d, ref) :: ref in keys
    ensures Closed(d, keys + {name}, pending)
  {
  }

  lemma ReachableSelf(d: Document, name: string)
    requires Resolvable(d, name)
    ensures Reachable(d, name, name)
  {
    assert Linked(d, [name]);
  }

  lemma ReachableThrough(d: Document, start: string, ref: string, name: string)
    requires Resolvable(d, start) && ref in Refs(FlatOf(d, start)) && Reachable(d, ref, name)
    ensures Reachable(d, start, name)
  {
    var path :| Linked(d, path) && path[0] == ref && path[|path| - 1] == name;
    var longer := [start] + path;
    assert Linked(d, longer) && longer[0] == start && longer[|longer| - 1] == name;
  }

  lemma {:induction false} ClosedContainsPath(d: Document, keys: set<string>, path: seq<string>)
    requires Closed(d, keys, {}) && Linked(d, path) && path[0] in keys
    ensures path[|path| - 1] in keys
    decreases |path|
  {
    if |path| > 1 {
      assert path[1] in Refs(FlatOf(d, path[0]));
      ClosedContainsPath(d, keys, path[1..]);
    }
  }

  lemma ClosedContainsReachable(d: Document, keys: set<string>, start: string, name: string)
    requires Closed(d, keys, {}) && start in keys && Reachable(d, start, name)
    ensures name in keys
  {
    var path :| Linked(d, path) && path[0] == start && path[|path| - 1] == name;
    ClosedContainsPath(d, keys, path);
  }

  // ---------------------------------------------------------------- Array chains

  /** The component an array component refers to: the one call flattening makes before storing anything. */
  function ItemRef(d: Document, name: string): Option<string> {
    if Resolvable(d, name) then FlatOf(d, name).items else None
  }

  /** Following item references from `name` stops within k steps, at a key, an unresolvable name or
      something that is not an array of references. */
  predicate ChainEnds(d: Document, keys: set<string>, name: string, k: nat)
    decreases k
  {
    name in keys || ItemRef(d, name).None? || (k > 0 && ChainEnds(d, keys, ItemRef(d, name).value, k - 1))
  }

  ghost predicate Chained(d: Document, keys: set<string>, name: string) {
    exists k :: ChainEnds(d, keys, name, k)
  }

  /** Every array chain flattening can meet from `name` ends. */
  ghost predicate ChainsEnd(d: Document, keys: set<string>, name: string) {
    forall n | Reachable(d, name, n) :: Chained(d, keys, n)
  }

  lemma {:induction false} ChainEndsWithMoreKeys(
    d: Document, keys: set<string>, more: set<string>, name: string, k: nat)
    requires keys <= more && ChainEnds(d, keys, name, k)
    ensures ChainEnds(d, more, name, k)
    decreases k
  {
    if name !in keys && ItemRef(d, name).Some? {
      ChainEndsWithMoreKeys(d, keys, more, ItemRef(d, name).value, k - 1);
    }
  }

  lemma ChainsEndOnward(d: Document, keys: set<string>, more: set<string>, name: string, ref: string)
    requires keys <= more && ChainsEnd(d, keys, name)
    requires Resolvable(d, name) && ref in Refs(FlatOf(d, name))
    ensures ChainsEnd(d, more, ref)
  {
    forall n | Reachable(d, ref, n) ensures Chained(d, more, n) {
      ReachableThrough(d, name, ref, n);
      var k: nat :| ChainEnds(d, keys, n, k);
      ChainEndsWithMoreKeys(d, keys, more, n, k);
    }
  }

  lemma ChainsEndHere(d: Document, keys: set<string>, name: string) returns (k: nat)
    requires ChainsEnd(d, keys, name)
    ensures ChainEnds(d, keys, name, k)
  {
    if Resolvable(d, name) {
      ReachableSelf(d, name);
      assert Chained(d, keys, name);
      k :| ChainEnds(d, keys, name, k);
    } else {
      k := 0;
    }
  }

  function Missing(d: Document, keys: set<string>): set<string> {
    set name | name in d.components && name !in keys
  }

  lemma MissingShrinks(d: Document, keys: set<string>, more: set<string>)
    requires keys <= more
    ensures |Missing(d, more)| <= |Missing(d, keys)|
    ensures forall name | name in d.components && name in more - keys :: |Missing(d, more)| < |Missing(d, keys)|
  {
    SubsetCardinality(Missing(d, more), Missing(d, keys));
    forall name | name in d.components && name in more - keys
      ensures |Missing(d, more)| < |Missing(d, keys)|
    {
      SubsetCardinality(Missing(d, more), Missing(d, keys) - {name});
    }
  }

  /** `after` is `before` plus the flattenings of components reachable from `name`. */
  ghost predicate Grown(d: Document, before: map<string, FlatSchema>, after: map<string, FlatSchema>, name: string) {
    && (forall n | n in before :: n in after && after[n] == before[n])
    && (forall n | n in after && n !in before ::
          Resolvable(d, n) && after[n] == FlatOf(d, n) && Reachable(d, name, n))
  }

  lemma GrownThrough(
    d: Document, m0: map<string, FlatSchema>, m1: map<string, FlatSchema>, m2: map<string, FlatSchema>,
    name: string, ref: string)
    requires Grown(d, m0, m1, name) && Grown(d, m1, m2, ref)
    requires Resolvable(d, name) && ref in Refs(FlatOf(d, name))
    ensures Grown(d, m0, m2, name)
  {
    forall n | n in m2 && n !in m0
      ensures Resolvable(d, n) && m2[n] == FlatOf(d, n) && Reachable(d, name, n)
    {
      if n !in m1 {
        ReachableThrough(d, name, ref, n);
      }
    }
  }

  /** The object branch: `name` is stored first, then grown from. */
  lemma GrownObject(d: Document, m0: map<string, FlatSchema>, m2: map<string, FlatSchema>, name: string)
    requires Resolvable(d, name) && name !in m0 && Grown(d, m0[name := FlatOf(d, name)], m2, name)
    ensures Grown(d, m0, m2, name)
  {
    ReachableSelf(d, name);
    var m1 := m0[name := FlatOf(d, name)];
    forall n | n in m0 ensures n in m2 && m2[n] == m0[n] {
      assert n in m1;
    }
    assert name in m1;
  }

  lemma GrownHere(d: Document, m0: map<string, FlatSchema>, m1: map<string, FlatSchema>, name: string)
    requires Resolvable(d, name) && name !in m1 && Grown(d, m0, m1, name)
    ensures Grown(d, m0, m1[name := FlatOf(d, name)], name)
  {
    ReachableSelf(d, name);
  }

  // ---------------------------------------------------------------- Responses

  /** A 200 or 201 application/json body: its own $ref text and, when it resolves, its schema.
      `inline` are the schema's properties, when it has a property list. */
  datatype Body = Body(ref: string, schema: Option<Schema>, inline: Option<map<string, Option<Proxy>>>)

  /** `actionKey` is the snake-cased operationId, None without one; `bodies` are the 200 and 201 bodies. */
  datatype Operation = Operation(actionKey: Option<string>, bodies: seq<Option<Body>>)

  /** What the extractor makes of one response body. */
  datatype Use =
    | Skip
    | Whole(root: string)
    | ListOf(root: string)
    | Inline(name: string, properties: map<string, Option<Proxy>>)

  function UseOf(d: Document, op: Operation, body: Option<Body>): Use {
    if body.None? || body.value.schema.None? then Skip else
    var ref, schema := RefName(d.prefix, body.value.ref), body.value.schema.value;
    var item := if Kind(schema.types) == "array" && |schema.types| > 0 && schema.items.Some?
                then RefName(d.prefix, schema.items.value) else "";
    if ref != "" then Whole(ref)
    else if item != "" then ListOf(item)
    else if body.value.inline.Some? && op.actionKey.Some? then
      Inline(op.actionKey.value + "_response", body.value.inline.value)
    else Skip
  }

  /** The first response the extractor can use. */
  function FirstUse(d: Document, op: Operation, i: nat): Use
    requires i <= |op.bodies|
    decreases |op.bodies| - i
  {
    if i == |op.bodies| then Skip
    else if UseOf(d, op, op.bodies[i]).Skip? then FirstUse(d, op, i + 1)
    else UseOf(d, op, op.bodies[i])
  }

  function Root(d: Document, op: Operation): Option<string> {
    match FirstUse(d, op, 0)
    case Whole(root) => Some(root)
    case ListOf(root) => Some(root)
    case _ => None
  }

  /** The name an action stores as its response schema. */
  function ResponseName(use: Use): string {
    match use
    case Skip => ""
    case Whole(root) => root
    case ListOf(root) => root + "_list"
    case Inline(name, _) => name
  }

  /** The entry stored under the made-up name of a list or inline response. */
  function MadeUp(d: Document, use: Use): FlatSchema
    requires use.ListOf? || use.Inline?
  {
    match use
    case ListOf(root) => FlatSchema("array", map[], Some(root))
    case Inline(_, properties) => FlatSchema("object", FlatProperties(d.prefix, properties), None)
  }

  /** The made-up names of list and inline entries are not names of components. */
  predicate NoClash(d: Document, op: Operation) {
    match FirstUse(d, op, 0)
    case ListOf(root) => root + "_list" !in d.components
    case Inline(name, _) => name !in d.components
    case _ => true
  }

  /** A list entry's item component has been flattened with it. */
  ghost predicate ListsClosed(d: Document, keys: set<string>) {
    forall root | root + "_list" in keys && root + "_list" !in d.components && Resolvable(d, root) :: root in keys
  }

  lemma ListNamesAreInjective(r1: string, r2: string)
    requires r1 + "_list" == r2 + "_list"
    ensures r1 == r2
  {
    assert r1 == (r1 + "_list")[..|r1|];
  }

  lemma ResponseIsNotList(key: string, root: string)
    ensures key + "_response" != root + "_list"
  {
    assert (key + "_response")[|key| + 8] == 'e';
    assert (root + "_list")[|root| + 4] == 't';
  }

  ghost predicate EntriesCovered(d: Document, schemas: map<string, FlatSchema>, ops: seq<Operation>) {
    forall n | n in schemas && Resolvable(d, n) :: schemas[n] == FlatOf(d, n) && Wanted(d, ops, n)
  }

  ghost predicate RootPresent(d: Document, keys: set<string>, op: Operation) {
    Root(d, op).Some? && Resolvable(d, Root(d, op).value) ==> Root(d, op).value in keys
  }

  /** After the operations `ops`: every component entry is its own flattening and is reachable from one
      of their responses, and each resolvable response component is there. */
  ghost predicate Covers(d: Document, schemas: map<string, FlatSchema>, ops: seq<Operation>) {
    && Closed(d, schemas.Keys, {})
    && ListsClosed(d, schemas.Keys)
    && EntriesCovered(d, schemas, ops)
    && (forall op | op in ops :: RootPresent(d, schemas.Keys, op))
  }

  ghost predicate Wanted(d: Document, ops: seq<Operation>, n: string) {
    exists op :: op in ops && Root(d, op).Some? && Reachable(d, Root(d, op).value, n)
  }

  /** Every array chain that flattening the operation's response can meet ends. */
  ghost predicate RootChainsEnd(d: Document, op: Operation) {
    Root(d, op).Some? ==> ChainsEnd(d, {}, Root(d, op).value)
  }

  lemma ChainsEndLater(d: Document, keys: set<string>, op: Operation)
    requires RootChainsEnd(d, op)
    ensures Root(d, op).Some? ==> ChainsEnd(d, keys, Root(d, op).value)
  {
    if Root(d, op).Some? {
      forall n | Reachable(d, Root(d, op).value, n) ensures Chained(d, keys, n) {
        assert Chained(d, {}, n);
        var k: nat :| ChainEnds(d, {}, n, k);
        ChainEndsWithMoreKeys(d, {}, keys, n, k);
      }
    }
  }

  /** An inline response brings no component along, whatever its properties refer to. */
  lemma InlineBringsNothing(d: Document, op: Operation, n: string)
    requires FirstUse(d, op, 0).Inline?
    ensures !Wanted(d, [op], n)
  {
  }

  /** The reference that an inline response leaves dangling: the entry refers to component `x`, which is
      there to be flattened, and is not. */
  lemma InlineReferenceDangles(prefix: string, key: string, field: string, x: string)
    requires x != ""
    ensures
      var d := OneObject(prefix, x);
      var op := Operation(Some(key), [Some(InlineBody(prefix, field, x))]);
      && FirstUse(d, op, 0).Inline?
      && x in PropertyRefs(MadeUp(d, FirstUse(d, op, 0)))
      && Resolvable(d, x) && !Wanted(d, [op], x)
  {
    var d := OneObject(prefix, x);
    var body := InlineBody(prefix, field, x);
    var op := Operation(Some(key), [Some(body)]);
    assert (prefix + x)[|prefix|..] == x;
    assert FirstUse(d, op, 0) == Inline(key + "_response", body.inline.value);
    assert FlatProperties(prefix, body.inline.value)[field] == Property("object", "", false, x);
    InlineBringsNothing(d, op, x);
  }

  /** A document with one component, an object without properties. */
  function OneObject(prefix: string, x: string): Document {
    Document(prefix, map[x := Some(Schema(["object"], None, map[]))])
  }

  /** An inline object with one property, which refers to that component. */
  function InlineBody(prefix: string, field: string, x: string): Body {
    var property := Proxy(prefix + x, Some(PropertySchema(["object"], "", None)));
    Body("", Some(Schema(["object"], None, map[])), Some(map[field := Some(property)]))
  }

  /** The flattened schemas of one catalog. */
  class Catalog {
    var schemas: map<string, FlatSchema>

    constructor ()
      ensures schemas == map[]
    {
      schemas := map[];
    }

    method FlattenProperties(d: Document, properties: map<string, Option<Proxy>>) returns (flat: map<string, Property>)
      ensures flat == FlatProperties(d.prefix, properties)
    {
      flat := map[];
      var rest := properties.Keys;
      while rest != {}
        invariant rest <= properties.Keys && flat.Keys == properties.Keys - rest
        invariant forall name | name in flat :: flat[name] == FlatProperty(d.prefix, properties[name])
        decreases |rest|
      {
        var name :| name in rest;
        flat := flat[name := FlatProperty(d.prefix, properties[name])];
        rest := rest - {name};
      }
    }

    /** The recursive search: an array is stored after the call for its items, an object before the
        calls for its properties. */
    method Visit(d: Document, name: string, ghost pending: set<string>, ghost k: nat)
      requires pending <= schemas.Keys && Closed(d, schemas.Keys, pending)
      requires ChainsEnd(d, schemas.Keys, name) && ChainEnds(d, schemas.Keys, name, k)
      modifies this
      ensures Grown(d, old(schemas), schemas, name)
      ensures Resolvable(d, name) ==> name in schemas
      ensures Closed(d, schemas.Keys, pending)
      decreases |Missing(d, schemas.Keys)|, 0, k
    {
      if name in schemas || name !in d.components || d.components[name].None? {
        return;
      }
      var schema := d.components[name].value;
      var kind := if |schema.types| > 0 then schema.types[0] else "object";
      if kind == "array" && schema.items.Some? {
        VisitArray(d, name, schema.items.value, pending, k);
        return;
      }
      var properties := FlattenProperties(d, schema.properties);
      var flat := FlatSchema(kind, properties, None);
      GrownHere(d, schemas, schemas, name);
      schemas := schemas[name := flat];
      MissingShrinks(d, old(schemas.Keys), schemas.Keys);
      Follow(d, name, flat, pending + {name}, old(schemas.Keys));
      GrownObject(d, old(schemas), schemas, name);
    }

    method VisitArray(d: Document, name: string, itemRef: string, ghost pending: set<string>, ghost k: nat)
      requires pending <= schemas.Keys && Closed(d, schemas.Keys, pending)
      requires ChainsEnd(d, schemas.Keys, name) && ChainEnds(d, schemas.Keys, name, k)
      requires name !in schemas && Resolvable(d, name)
      requires Kind(d.components[name].value.types) == "array" && d.components[name].value.items == Some(itemRef)
      modifies this
      ensures Grown(d, old(schemas), schemas, name) && name in schemas
      ensures Closed(d, schemas.Keys, pending)
      decreases |Missing(d, schemas.Keys)|, 0, k, 0
    {
      var ref := RefName(d.prefix, itemRef);
      var items := None;
      if ref != "" {
        ChainsEndOnward(d, schemas.Keys, schemas.Keys, name, ref);
        Visit(d, ref, pending, k - 1);
        items := Some(ref);
        GrownThrough(d, old(schemas), old(schemas), schemas, name, ref);
      }
      StoreArray(d, name, items, pending, old(schemas));
    }

    /** The array is stored once its items are; by then it may have been stored on the way. */
    method StoreArray(
      d: Document, name: string, items: Option<string>, ghost pending: set<string>,
      ghost start: map<string, FlatSchema>)
      requires pending <= schemas.Keys && Closed(d, schemas.Keys, pending)
      requires Grown(d, start, schemas, name) && name !in start
      requires Resolvable(d, name) && FlatOf(d, name) == FlatSchema("array", map[], items)
      requires items.Some? && Resolvable(d, items.value) ==> items.value in schemas
      modifies this
      ensures Grown(d, start, schemas, name) && name in schemas
      ensures Closed(d, schemas.Keys, pending)
      ensures schemas.Keys == old(schemas).Keys + {name}
    {
      ghost var before := schemas;
      ClosedWith(d, before.Keys, pending, name);
      schemas := schemas[name := FlatSchema("array", map[], items)];
      assert schemas.Keys == before.Keys + {name};
      if name in before {
        assert schemas == before;
      } else {
        GrownHere(d, start, before, name);
      }
    }

    /** The loop over the properties of an object just stored, in any order. */
    method Follow(d: Document, name: string, flat: FlatSchema, ghost pending: set<string>, ghost keys: set<string>)
      requires name in pending && pending <= schemas.Keys && Closed(d, schemas.Keys, pending)
      requires keys <= schemas.Keys && ChainsEnd(d, keys, name)
      requires Resolvable(d, name) && flat == FlatOf(d, name) && flat.items.None?
      modifies this
      ensures Grown(d, old(schemas), schemas, name)
      ensures Closed(d, schemas.Keys, pending - {name})
      decreases |Missing(d, schemas.Keys)|, 1
    {
      var rest := flat.properties.Keys;
      while rest != {}
        invariant rest <= flat.properties.Keys
        invariant Grown(d, old(schemas), schemas, name)
        invariant Closed(d, schemas.Keys, pending)
        invariant forall p | p in flat.properties.Keys - rest && flat.properties[p].schemaRef != "" ::
                    Resolvable(d, flat.properties[p].schemaRef) ==> flat.properties[p].schemaRef in schemas
        decreases |rest|
      {
        var p :| p in rest;
        rest := rest - {p};
        var ref := flat.properties[p].schemaRef;
        if ref != "" {
          ghost var before := schemas;
          assert ref in PropertyRefs(flat);
          MissingShrinks(d, old(schemas.Keys), schemas.Keys);
          ChainsEndOnward(d, keys, schemas.Keys, name, ref);
          ghost var length := ChainsEndHere(d, schemas.Keys, ref);
          Visit(d, ref, pending, length);
          GrownThrough(d, old(schemas), before, schemas, name, ref);
        }
      }
    }

    /**
     * flattenV3Component at top level: from a closed map, the keys afterwards are the old ones and
     * everything reachable from `name`, the old entries are untouched, and each new entry is its
     * component's own flattening, whatever the iteration order.
     */
    method Flatten(d: Document, name: string)
      requires Closed(d, schemas.Keys, {}) && ChainsEnd(d, schemas.Keys, name)
      modifies this
      ensures Closed(d, schemas.Keys, {})
      ensures forall n :: n in schemas <==> n in old(schemas) || Reachable(d, name, n)
      ensures forall n | n in schemas ::
                schemas[n] == if n in old(schemas) then old(schemas)[n] else FlatOf(d, n)
    {
      ghost var k := ChainsEndHere(d, schemas.Keys, name);
      Visit(d, name, {}, k);
      forall n | Reachable(d, name, n) ensures n in schemas {
        ClosedContainsReachable(d, schemas.Keys, name, n);
      }
    }

    /**
     * extractV3ResponseSchema: the first usable response names the schema, and its component, if any,
     * is flattened with everything it reaches.
     */
    method Extract(d: Document, op: Operation, ghost done: seq<Operation>) returns (name: string)
      requires Covers(d, schemas, done) && NoClash(d, op)
      requires Root(d, op).Some? ==> ChainsEnd(d, schemas.Keys, Root(d, op).value)
      modifies this
      ensures name == ResponseName(FirstUse(d, op, 0))
      ensures Covers(d, schemas, done + [op])
      ensures forall n | n in old(schemas) :: n in schemas && schemas[n] == old(schemas)[n]
      ensures
        var use := FirstUse(d, op, 0);
        (use.ListOf? || use.Inline?) ==> name in schemas && (name in old(schemas) || schemas[name] == MadeUp(d, use))
    {
      var i := 0;
      while i < |op.bodies|
        invariant i <= |op.bodies| && FirstUse(d, op, 0) == FirstUse(d, op, i)
        invariant schemas == old(schemas)
      {
        var use := UseOf(d, op, op.bodies[i]);
        match use {
          case Skip =>
          case Whole(root) =>
            FlattenRoot(d, op, root, done);
            return root;
          case ListOf(root) =>
            name := root + "_list";
            if name in schemas {
              OperationAdded(d, schemas, op, done);
            } else {
              FlattenRoot(d, op, root, done);
              assert op in done + [op] && RootPresent(d, schemas.Keys, op);
              InsertList(d, schemas, done + [op], root, FlatSchema("array", map[], Some(root)));
              schemas := schemas[name := FlatSchema("array", map[], Some(root))];
            }
            return;
          case Inline(inlineName, inline) =>
            OperationAdded(d, schemas, op, done);
            if inlineName !in schemas {
              var properties := FlattenProperties(d, inline);
              InsertInline(d, schemas, done + [op], op.actionKey.value, FlatSchema("object", properties, None));
              schemas := schemas[inlineName := FlatSchema("object", properties, None)];
            }
            return inlineName;
        }
        i := i + 1;
      }
      OperationAdded(d, schemas, op, done);
      name := "";
    }

    /** Flatten the response component of `op`: all that Covers asks for `op`, too. */
    method FlattenRoot(d: Document, op: Operation, root: string, ghost done: seq<Operation>)
      requires Covers(d, schemas, done) && Root(d, op) == Some(root) && ChainsEnd(d, schemas.Keys, root)
      modifies this
      ensures Covers(d, schemas, done + [op])
      ensures forall n | n in old(schemas) :: n in schemas && schemas[n] == old(schemas)[n]
      ensures forall n | n in schemas && n !in old(schemas) :: Resolvable(d, n)
    {
      Flatten(d, root);
      RootAdded(d, old(schemas), schemas, op, root, done);
    }

    /**
     * The schemas of a whole specification: among the components, exactly those reachable from some
     * response are there, each as its own flattening.
     */
    method FlattenAll(d: Document, ops: seq<Operation>) returns (names: seq<string>)
      requires schemas == map[]
      requires forall op | op in ops :: NoClash(d, op) && RootChainsEnd(d, op)
      modifies this
      ensures |names| == |ops| && forall i | 0 <= i < |ops| :: names[i] == ResponseName(FirstUse(d, ops[i], 0))
      ensures forall n | Resolvable(d, n) :: n in schemas <==> Wanted(d, ops, n)
      ensures forall n | n in schemas && Resolvable(d, n) :: schemas[n] == FlatOf(d, n)
    {
      names := [];
      for i := 0 to |ops|
        invariant Covers(d, schemas, ops[..i])
        invariant |names| == i && forall j | 0 <= j < i :: names[j] == ResponseName(FirstUse(d, ops[j], 0))
      {
        assert ops[..i + 1] == ops[..i] + [ops[i]];
        ChainsEndLater(d, schemas.Keys, ops[i]);
        var name := Extract(d, ops[i], ops[..i]);
        names := names + [name];
      }
      assert ops[..|ops|] == ops;
      CoversExactlyWanted(d, schemas, ops);
    }
  }

  lemma CoversExactlyWanted(d: Document, schemas: map<string, FlatSchema>, ops: seq<Operation>)
    requires Covers(d, schemas, ops)
    ensures forall n | Resolvable(d, n) :: n in schemas <==> Wanted(d, ops, n)
    ensures forall n | n in schemas && Resolvable(d, n) :: schemas[n] == FlatOf(d, n)
  {
    forall n | Resolvable(d, n) && Wanted(d, ops, n) ensures n in schemas {
      var op :| op in ops && Root(d, op).Some? && Reachable(d, Root(d, op).value, n);
      var path :| Linked(d, path) && path[0] == Root(d, op).value && path[|path| - 1] == n;
      assert RootPresent(d, schemas.Keys, op);
      ClosedContainsReachable(d, schemas.Keys, Root(d, op).value, n);
    }
  }

  lemma RootAdded(
    d: Document, before: map<string, FlatSchema>, after: map<string, FlatSchema>, op: Operation, root: string,
    done: seq<Operation>)
    requires Covers(d, before, done) && Root(d, op) == Some(root)
    requires Closed(d, after.Keys, {})
    requires forall n :: n in after <==> n in before || Reachable(d, root, n)
    requires forall n | n in after :: (n !in before ==> Resolvable(d, n))
               && after[n] == if n in before then before[n] else FlatOf(d, n)
    ensures Covers(d, after, done + [op])
  {
    var ops := done + [op];
    forall n | n in after && Resolvable(d, n) ensures after[n] == FlatOf(d, n) && Wanted(d, ops, n) {
      if n in before {
        WantedStays(d, done, op, n);
      } else {
        assert op in ops;
      }
    }
    forall o | o in ops ensures RootPresent(d, after.Keys, o) {
      if o == op && Resolvable(d, root) {
        ReachableSelf(d, root);
      } else if o != op {
        assert RootPresent(d, before.Keys, o);
      }
    }
  }

  /** An operation whose component, if it has one, is already there. */
  lemma OperationAdded(d: Document, schemas: map<string, FlatSchema>, op: Operation, done: seq<Operation>)
    requires Covers(d, schemas, done) && RootPresent(d, schemas.Keys, op)
    ensures Covers(d, schemas, done + [op])
  {
    forall n | n in schemas && Resolvable(d, n) ensures Wanted(d, done + [op], n) {
      WantedStays(d, done, op, n);
    }
  }

  lemma WantedStays(d: Document, done: seq<Operation>, op: Operation, n: string)
    requires Wanted(d, done, n)
    ensures Wanted(d, done + [op], n)
  {
    var o :| o in done && Root(d, o).Some? && Reachable(d, Root(d, o).value, n);
    assert o in done + [op];
  }

  /** A made-up entry that is no component changes nothing for the components. */
  lemma InsertEntry(d: Document, schemas: map<string, FlatSchema>, ops: seq<Operation>, name: string, flat: FlatSchema)
    requires Covers(d, schemas, ops) && name !in d.components
    requires forall root | root + "_list" == name && Resolvable(d, root) :: root in schemas
    ensures Covers(d, schemas[name := flat], ops)
  {
    var after := schemas[name := flat];
    forall op | op in ops ensures RootPresent(d, after.Keys, op) {
      assert RootPresent(d, schemas.Keys, op);
    }
  }

  lemma InsertList(d: Document, schemas: map<string, FlatSchema>, ops: seq<Operation>, root: string, flat: FlatSchema)
    requires Covers(d, schemas, ops) && root + "_list" !in d.components
    requires Resolvable(d, root) ==> root in schemas
    ensures Covers(d, schemas[root + "_list" := flat], ops)
  {
    forall r | r + "_list" == root + "_list" ensures r == root {
      ListNamesAreInjective(r, root);
    }
    InsertEntry(d, schemas, ops, root + "_list", flat);
  }

  lemma InsertInline(d: Document, schemas: map<string, FlatSchema>, ops: seq<Operation>, key: string, flat: FlatSchema)
    requires Covers(d, schemas, ops) && key + "_response" !in d.components
    ensures Covers(d, schemas[key + "_response" := flat], ops)
  {
    forall root ensures root + "_list" != key + "_response" {
      ResponseIsNotList(key, root);
    }
    InsertEntry(d, schemas, ops, key + "_response", flat);
  }
}
