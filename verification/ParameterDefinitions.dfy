/**
 * Where the parts of an action's parameter schema come from, in the terms of the operation itself
 * (cmd/fetchactions-oas3/parse.go, buildParamsAndExecution).
 */
module ParameterDefinitions {
  import opened Prelude
  import opened ParameterBuilding

  /** A description of up to 200 characters is kept; a longer one is cut to 197 and three dots. */
  lemma ShortenedText(s: string)
    ensures |s| <= 200 ==> Shorten(s) == s
    ensures |s| > 200 ==>
      |Shorten(s)| == 200 && Shorten(s)[..197] == s[..197] && Shorten(s)[197..] == ['.', '.', '.']
  {
  }

  // ---------------------------------------------------------------- Parameters

  /** The parameter at `i` is the first one of its name. */
  predicate Earliest(params: seq<Param>, name: string, i: nat) {
    i < |params| && params[i].name == name && forall j | 0 <= j < i :: params[j].name != name
  }

  lemma {:induction false} FirstIsEarliest(params: seq<Param>, name: string)
    requires name != ""
    ensures forall i: nat :: Earliest(params, name, i) ==> First(params, name) == Some(params[i])
    ensures First(params, name).Some? <==> exists p :: p in params && p.name == name
    decreases |params|
  {
    if params != [] && params[0].name != name {
      FirstIsEarliest(params[1..], name);
      forall i: nat | Earliest(params, name, i) ensures First(params, name) == Some(params[i]) {
        assert Earliest(params[1..], name, i - 1);
      }
      assert forall p | p in params && p.name == name :: p in params[1..];
    }
  }

  /** A parameter becomes a property of its own kind and description; without a kind it is a string. */
  lemma ParameterIsDefined(params: seq<Param>, path: string, scans: seq<Scan>, i: nat)
    requires i < |params| && Earliest(params, params[i].name, i) && params[i].name != ""
    ensures
      var p := params[i];
      && Definition(params, path, scans, p.name).Some?
      && var property := Definition(params, path, scans, p.name).value;
         && property.kind == (match p.kind case Some(kind) => kind case None => "string")
         && (|p.description| <= 200 ==> property.description == p.description)
         && (|p.description| > 200 ==> property.description == p.description[..197] + "...")
  {
    FirstIsEarliest(params, params[i].name);
  }

  // ---------------------------------------------------------------- Request bodies

  /** The body's own schema comes first, then its oneOf and then its anyOf alternatives that resolve. */
  function AllFields(scans: seq<Option<Scan>>): seq<BodyProperty> {
    if scans == [] then []
    else (match scans[0] case Some(scan) => scan.properties case None => []) + AllFields(scans[1..])
  }

  lemma {:induction false} FieldsOfJoined(front: seq<Scan>, back: seq<Scan>)
    ensures Fields(front + back) == Fields(front) + Fields(back)
    decreases |back|
  {
    if back == [] {
      assert front + back == front;
    } else {
      var n := |back| - 1;
      assert front + back == (front + back[..n]) + [back[n]];
      FieldsOfJoined(front, back[..n]);
      FieldsOfLonger(front + back[..n], back[n]);
      FieldsOfLonger(back[..n], back[n]);
      assert back == back[..n] + [back[n]];
    }
  }

  lemma FieldsOfOne(scan: Scan)
    ensures Fields([scan]) == scan.properties
  {
    FieldsOfLonger([], scan);
    assert [] + [scan] == [scan];
  }

  lemma {:induction false} FieldsOfPresent(scans: seq<Option<Scan>>)
    ensures Fields(Present(scans)) == AllFields(scans)
  {
    if scans != [] {
      FieldsOfPresent(scans[1..]);
      if scans[0].Some? {
        FieldsOfOne(scans[0].value);
        FieldsOfJoined([scans[0].value], Present(scans[1..]));
      } else {
        assert [] + Present(scans[1..]) == Present(scans[1..]);
      }
    }
  }

  lemma BodyFieldsInOrder(body: Body)
    ensures Fields(ScansOf(Some(body))) == body.own.properties + (AllFields(body.oneOf) + AllFields(body.anyOf))
    ensures Fields(ScansOf(None)) == []
  {
    var own, one, any := [body.own], Present(body.oneOf), Present(body.anyOf);
    FieldsOfJoined(own + one, any);
    FieldsOfJoined(own, one);
    FieldsOfOne(body.own);
    FieldsOfPresent(body.oneOf);
    FieldsOfPresent(body.anyOf);
  }

  /** The field at `i` is the first one of its name. */
  predicate EarliestField(fields: seq<BodyProperty>, i: nat) {
    i < |fields| && forall j | 0 <= j < i :: fields[j].name != fields[i].name
  }

  lemma {:induction false} FirstFieldIsEarliest(fields: seq<BodyProperty>, i: nat)
    requires EarliestField(fields, i)
    ensures FirstField(fields, fields[i].name) == Some(fields[i])
    decreases |fields|
  {
    if i > 0 {
      FirstFieldIsEarliest(fields[1..], i - 1);
    }
  }

  /** A body field that no parameter and no placeholder defines becomes a property of its own kind and description. */
  lemma FieldIsDefined(params: seq<Param>, path: string, body: Body, i: nat)
    requires
      var fields := body.own.properties + (AllFields(body.oneOf) + AllFields(body.anyOf));
      && EarliestField(fields, i) && fields[i].name !in Placeholders(path)
      && forall p | p in params :: p.name != fields[i].name || p.name == ""
    ensures
      var f := (body.own.properties + (AllFields(body.oneOf) + AllFields(body.anyOf)))[i];
      var definition := Definition(params, path, ScansOf(Some(body)), f.name);
      && definition.Some?
      && definition.value.kind == (match f.kind case Some(kind) => kind case None => "string")
      && (|f.description| <= 200 ==> definition.value.description == f.description)
      && (|f.description| > 200 ==> definition.value.description == f.description[..197] + "...")
  {
    var fields := body.own.properties + (AllFields(body.oneOf) + AllFields(body.anyOf));
    BodyFieldsInOrder(body);
    FirstFieldIsEarliest(fields, i);
    if fields[i].name != "" {
      FirstIsEarliest(params, fields[i].name);
    }
  }

  /** A schema of the body demands the name: it requires it, and it or one before defines it, or it was
      defined already. */
  ghost predicate DemandedAt(scans: seq<Scan>, defined: set<string>, name: string, k: nat) {
    && k < |scans| && name in scans[k].required
    && (name in defined || exists j, p :: 0 <= j <= k && p in scans[j].properties && p.name == name)
  }

  lemma {:induction false} InFields(scans: seq<Scan>, name: string)
    ensures name in NamesOf(Fields(scans)) <==>
      exists j, p :: 0 <= j < |scans| && p in scans[j].properties && p.name == name
  {
    if scans != [] {
      var last := |scans| - 1;
      InFields(scans[..last], name);
      if j, p :| 0 <= j < |scans| && p in scans[j].properties && p.name == name {
        assert j < last ==> p in scans[..last][j].properties;
        assert name in NamesOf(Fields(scans[..last])) || p in scans[last].properties;
      }
    }
  }

  /** What the body makes required, schema by schema. */
  lemma {:induction false} DemandedExactlyWhen(scans: seq<Scan>, defined: set<string>, name: string)
    ensures Demanded(scans, defined, name) <==> exists k :: DemandedAt(scans, defined, name, k)
    decreases |scans|
  {
    if scans != [] {
      var last := |scans| - 1;
      DemandedExactlyWhen(scans[..last], defined, name);
      InFields(scans, name);
      if k: nat :| DemandedAt(scans[..last], defined, name, k) {
        Later(scans, defined, name, k);
      }
      if k: nat :| DemandedAt(scans, defined, name, k) {
        if k < last {
          Earlier(scans, defined, name, k);
        } else {
          assert Demanded(scans, defined, name);
        }
      }
      if name in scans[last].required && (name in defined || name in NamesOf(Fields(scans))) {
        assert DemandedAt(scans, defined, name, last);
      }
    }
  }

  lemma Later(scans: seq<Scan>, defined: set<string>, name: string, k: nat)
    requires scans != [] && DemandedAt(scans[..|scans| - 1], defined, name, k)
    ensures DemandedAt(scans, defined, name, k)
  {
    if name !in defined {
      var j, p :| 0 <= j <= k && p in scans[..|scans| - 1][j].properties && p.name == name;
      assert p in scans[j].properties;
    }
  }

  lemma Earlier(scans: seq<Scan>, defined: set<string>, name: string, k: nat)
    requires scans != [] && k < |scans| - 1 && DemandedAt(scans, defined, name, k)
    ensures DemandedAt(scans[..|scans| - 1], defined, name, k)
  {
    if name !in defined {
      var j, p :| 0 <= j <= k && p in scans[j].properties && p.name == name;
      assert p in scans[..|scans| - 1][j].properties;
    }
  }
}
