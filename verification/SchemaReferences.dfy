/**
 * What flattening makes of a document, in the document's own terms (cmd/fetchactions-oas3/parse.go,
 * extractV3RefName and flattenV3Property): which components refer to which, and the kind of each property.
 */
module SchemaReferences {
  import opened Prelude
  import opened SchemaFlattening

  // ---------------------------------------------------------------- Reference texts

  /** `x` is what follows the last slash of the text, or the whole text without one. */
  ghost predicate Ends(ref: string, x: string) {
    '/' !in x && (ref == x || exists before :: ref == before + ("/" + x))
  }

  /** The reference names `x`: by the document's own prefix, or as the end of a foreign reference. */
  ghost predicate Names(prefix: string, ref: string, x: string) {
    x != "" && if prefix <= ref then ref == prefix + x else Ends(ref, x)
  }

  lemma EndStands(ref: string, x: string)
    requires Ends(ref, x)
    ensures |x| <= |ref| && x == ref[|ref| - |x|..]
    ensures |x| < |ref| ==> ref[|ref| - |x| - 1] == '/'
    ensures forall k | |ref| - |x| <= k < |ref| :: ref[k] != '/'
  {
    if ref != x {
      var before :| ref == before + ("/" + x);
    }
    assert forall k | |ref| - |x| <= k < |ref| :: ref[k] == x[k - (|ref| - |x|)];
  }

  lemma EndIsUnique(ref: string, x: string, y: string)
    requires Ends(ref, x) && Ends(ref, y)
    ensures x == y
  {
    EndStands(ref, x);
    EndStands(ref, y);
  }

  lemma LastSegmentEnds(ref: string)
    ensures Ends(ref, LastSegment(ref))
  {
    var r := LastSegment(ref);
    LastSegmentIsLast(ref);
    if |r| < |ref| {
      var n := |ref| - |r| - 1;
      assert ref == ref[..n] + ("/" + r);
    }
  }

  lemma RefNameExactlyWhen(prefix: string, ref: string, x: string)
    requires x != ""
    ensures RefName(prefix, ref) == x <==> Names(prefix, ref, x)
  {
    LastSegmentEnds(ref);
    if prefix <= ref {
      assert ref == prefix + ref[|prefix|..];
      if ref == prefix + x {
        assert ref[|prefix|..] == x;
      }
    } else if Ends(ref, x) {
      EndIsUnique(ref, x, LastSegment(ref));
    }
  }

  lemma NamedOrNot(prefix: string, ref: string)
    ensures RefName(prefix, ref) == "" <==> forall y :: !Names(prefix, ref, y)
  {
    forall y | y != "" ensures RefName(prefix, ref) == y <==> Names(prefix, ref, y) {
      RefNameExactlyWhen(prefix, ref, y);
    }
    assert RefName(prefix, ref) != "" ==> Names(prefix, ref, RefName(prefix, ref));
  }

  // ---------------------------------------------------------------- Properties

  /** The proxy is a reference to an object: unresolved, without a type, or of type object. */
  ghost predicate RefersToObject(prefix: string, proxy: Option<Proxy>, x: string) {
    && proxy.Some? && Names(prefix, proxy.value.ref, x)
    && (proxy.value.schema.None? || proxy.value.schema.value.types == []
        || proxy.value.schema.value.types[0] == "object")
  }

  /** A property of a component, from its proxy: the reference it keeps. */
  lemma PropertyKeepsReferenceExactlyWhen(prefix: string, proxy: Option<Proxy>, x: string)
    requires x != ""
    ensures FlatProperty(prefix, proxy).schemaRef == x <==> RefersToObject(prefix, proxy, x)
  {
    if proxy.Some? {
      RefNameExactlyWhen(prefix, proxy.value.ref, x);
    }
  }

  /** Its kind, its description and whether it may be null. */
  lemma PropertyIsDescribed(prefix: string, proxy: Option<Proxy>)
    ensures
      var p := FlatProperty(prefix, proxy);
      match proxy
      case None => p == Property("string", "", false, "")
      case Some(Proxy(ref, schema)) =>
        var kind := if exists x :: Names(prefix, ref, x) then "object" else "string";
        match schema
        case None => p.kind == kind && p.description == "" && !p.nullable
        case Some(s) =>
          && p.kind == (if |s.types| > 0 then s.types[0] else kind)
          && p.description == s.description && (p.nullable <==> s.nullable == Some(true))
  {
    if proxy.Some? {
      var ref := proxy.value.ref;
      NamedOrNot(prefix, ref);
    }
  }

  // ---------------------------------------------------------------- Components

  /** An array component whose items are given by a schema of their own. */
  predicate IsArray(s: Schema) { |s.types| > 0 && s.types[0] == "array" && s.items.Some? }

  /** The component refers to `x`: as the schema of its items, or as an object in one of its properties. */
  ghost predicate Refers(d: Document, name: string, x: string)
    requires Resolvable(d, name)
  {
    var s := d.components[name].value;
    if IsArray(s) then Names(d.prefix, s.items.value, x)
    else exists p :: p in s.properties && RefersToObject(d.prefix, s.properties[p], x)
  }

  /** Main theorem: the references that are followed and kept are exactly those of the document. */
  lemma ReferencesExactlyWhen(d: Document, name: string, x: string)
    requires Resolvable(d, name) && x != ""
    ensures x in Refs(FlatOf(d, name)) <==> Refers(d, name, x)
  {
    var s := d.components[name].value;
    var flat := FlatOf(d, name);
    if IsArray(s) {
      RefNameExactlyWhen(d.prefix, s.items.value, x);
    } else {
      forall p | p in s.properties
        ensures flat.properties[p].schemaRef == x <==> RefersToObject(d.prefix, s.properties[p], x)
      {
        PropertyKeepsReferenceExactlyWhen(d.prefix, s.properties[p], x);
      }
      if p :| p in s.properties && RefersToObject(d.prefix, s.properties[p], x) {
        assert flat.properties[p].schemaRef == x;
      }
    }
  }

  /** A component is never its own or another's reference under the empty name. */
  lemma NoEmptyReference(d: Document, name: string)
    requires Resolvable(d, name)
    ensures "" !in Refs(FlatOf(d, name))
  {
  }

  /** The shape of a component on its own: every property of an object, and nothing but the items of an array. */
  lemma ComponentIsDescribed(d: Document, name: string)
    requires Resolvable(d, name)
    ensures
      var s, flat := d.components[name].value, FlatOf(d, name);
      && flat.kind == (if |s.types| > 0 then s.types[0] else "object")
      && (if IsArray(s) then
            flat.properties == map[] && (flat.items.Some? ==> Names(d.prefix, s.items.value, flat.items.value))
            && (flat.items.None? ==> forall x :: !Names(d.prefix, s.items.value, x))
          else
            && flat.items.None? && flat.properties.Keys == s.properties.Keys
            && forall p | p in s.properties :: flat.properties[p] == FlatProperty(d.prefix, s.properties[p]))
  {
    var s := d.components[name].value;
    if IsArray(s) {
      var ref := RefName(d.prefix, s.items.value);
      if ref != "" {
        RefNameExactlyWhen(d.prefix, s.items.value, ref);
      } else {
        forall x | x != "" ensures !Names(d.prefix, s.items.value, x) {
          RefNameExactlyWhen(d.prefix, s.items.value, x);
        }
      }
    }
  }

  /** A chain of references in the document, from one resolvable component to the next. */
  ghost predicate Chain(d: Document, path: seq<string>) {
    && |path| > 0
    && (forall i | 0 <= i < |path| :: Resolvable(d, path[i]))
    && (forall i, j | 0 <= i < |path| && j == i + 1 < |path| :: path[j] != "" && Refers(d, path[i], path[j]))
  }

  /** Main theorem: flattening reaches exactly what chains of the document's references lead to. */
  lemma ReachableExactlyWhen(d: Document, start: string, name: string)
    ensures Reachable(d, start, name) <==>
      exists path :: Chain(d, path) && path[0] == start && path[|path| - 1] == name
  {
    forall path: seq<string> ensures Chain(d, path) <==> Linked(d, path) {
      ChainIsLinked(d, path);
    }
    if path :| Chain(d, path) && path[0] == start && path[|path| - 1] == name {
      assert Linked(d, path);
    }
    if Reachable(d, start, name) {
      var path :| Linked(d, path) && path[0] == start && path[|path| - 1] == name;
      assert Chain(d, path);
    }
  }

  lemma ChainIsLinked(d: Document, path: seq<string>)
    ensures Chain(d, path) <==> Linked(d, path)
  {
    if |path| > 0 && forall i | 0 <= i < |path| :: Resolvable(d, path[i]) {
      forall i, j | 0 <= i < |path| && j == i + 1 < |path|
        ensures path[j] in Refs(FlatOf(d, path[i])) <==> path[j] != "" && Refers(d, path[i], path[j])
      {
        NoEmptyReference(d, path[i]);
        if path[j] != "" {
          ReferencesExactlyWhen(d, path[i], path[j]);
        }
      }
    }
  }

  // ---------------------------------------------------------------- Responses

  /** What a resolvable body is used as, from its own reference, its items and its property list. */
  lemma BodyIsUsed(d: Document, op: Operation, body: Body, x: string)
    requires body.schema.Some? && x != ""
    ensures
      var schema := body.schema.value;
      var use := UseOf(d, op, Some(body));
      && (use == Whole(x) <==> Names(d.prefix, body.ref, x))
      && (use == ListOf(x) <==>
            (forall y :: !Names(d.prefix, body.ref, y)) && IsArray(schema) && Names(d.prefix, schema.items.value, x))
  {
    var schema := body.schema.value;
    RefNameExactlyWhen(d.prefix, body.ref, x);
    NamedOrNot(d.prefix, body.ref);
    if schema.items.Some? {
      RefNameExactlyWhen(d.prefix, schema.items.value, x);
    }
  }

  /** Otherwise its properties are taken over under the operation's own name, if it has both. */
  lemma BodyIsTakenOver(d: Document, op: Operation, body: Body)
    requires body.schema.Some? && forall y :: !Names(d.prefix, body.ref, y)
    requires IsArray(body.schema.value) ==> forall y :: !Names(d.prefix, body.schema.value.items.value, y)
    ensures UseOf(d, op, Some(body)) ==
      if body.inline.Some? && op.actionKey.Some? then Inline(op.actionKey.value + "_response", body.inline.value)
      else Skip
  {
    NamedOrNot(d.prefix, body.ref);
    if body.schema.value.items.Some? {
      NamedOrNot(d.prefix, body.schema.value.items.value);
    }
  }

  /** The response is the first body that can be used at all. */
  lemma {:induction false} FirstUseIsFirst(d: Document, op: Operation, i: nat, k: nat)
    requires i <= k < |op.bodies|
    requires forall j | i <= j < k :: op.bodies[j].None? || UseOf(d, op, op.bodies[j]) == Skip
    requires op.bodies[k].Some? && UseOf(d, op, op.bodies[k]) != Skip
    ensures FirstUse(d, op, i) == UseOf(d, op, op.bodies[k])
    decreases k - i
  {
    if i < k {
      FirstUseIsFirst(d, op, i + 1, k);
    }
  }
}
