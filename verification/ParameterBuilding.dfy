/**
 * Building an action's parameter schema and execution mappings from an OpenAPI 3 operation
 * (cmd/fetchactions-oas3/parse.go, buildParamsAndExecution and dedupStrings).
 */
module ParameterBuilding {
  import opened Prelude

  /** `location` is the parameter's "in"; `kind` the first type of its schema, if it has one. */
  datatype Param = Param(name: string, location: string, kind: Option<string>, description: string)

  datatype BodyProperty = BodyProperty(name: string, kind: Option<string>, description: string)

  /** One schema whose top-level properties are scanned. */
  datatype Scan = Scan(properties: seq<BodyProperty>, required: seq<string>)

  /** The application/json body; an alternative that does not resolve or has no properties is None. */
  datatype Body = Body(own: Scan, oneOf: seq<Option<Scan>>, anyOf: seq<Option<Scan>>)

  datatype Property = Property(kind: string, description: string)

  datatype Parameters = Parameters(
    properties: map<string, Property>,
    required: seq<string>,
    queryMapping: map<string, string>,
    bodyMapping: map<string, string>)

  function Shorten(s: string): string {
    if |s| > 200 then s[..197] + "..." else s
  }

  function KindOf(kind: Option<string>): string {
    if kind.Some? then kind.value else "string"
  }

  function PropertyOf(p: Param): Property {
    Property(KindOf(p.kind), Shorten(p.description))
  }

  /** The first parameter with this name: the one that counts. Nameless parameters are ignored. */
  function First(params: seq<Param>, name: string): Option<Param> {
    if params == [] || name == "" then None
    else if params[0].name == name then Some(params[0])
    else First(params[1..], name)
  }

  lemma {:induction false} FirstOfLonger(params: seq<Param>, p: Param, name: string)
    ensures First(params + [p], name) ==
      if First(params, name).Some? then First(params, name)
      else if name != "" && p.name == name then Some(p) else None
    decreases |params|
  {
    if params == [] {
      assert [] + [p] == [p];
    } else {
      assert (params + [p])[1..] == params[1..] + [p];
      FirstOfLonger(params[1..], p, name);
    }
  }

  /** A parameter of the operation itself hides one of the same name on the path item. */
  lemma {:induction false} OperationTakesPrecedence(operation: seq<Param>, pathItem: seq<Param>, name: string)
    ensures First(operation + pathItem, name) ==
      if First(operation, name).Some? then First(operation, name) else First(pathItem, name)
    decreases |operation|
  {
    if operation == [] {
      assert operation + pathItem == pathItem;
    } else {
      assert (operation + pathItem)[1..] == operation[1..] + pathItem;
      OperationTakesPrecedence(operation[1..], pathItem, name);
    }
  }

  // ---------------------------------------------------------------- Placeholders

  /** The first closing brace at or after position `i`, or the end of the path. */
  function Close(path: string, i: nat): (j: nat)
    requires i <= |path|
    ensures i <= j <= |path|
    decreases |path| - i
  {
    if i == |path| || path[i] == '}' then i else Close(path, i + 1)
  }

  lemma {:induction false} CloseIsFirst(path: string, i: nat)
    requires i <= |path|
    ensures forall k | i <= k < Close(path, i) :: path[k] != '}'
    ensures Close(path, i) < |path| ==> path[Close(path, i)] == '}'
    decreases |path| - i
  {
    if i < |path| && path[i] != '}' {
      CloseIsFirst(path, i + 1);
    }
  }

  /** `\{([^}]+)\}` matches from position `i` on. */
  predicate Fits(path: string, i: nat)
    requires i < |path|
  {
    path[i] == '{' && i + 1 < Close(path, i + 1) < |path|
  }

  /** The name matched there. */
  function NameAt(path: string, i: nat): string
    requires i < |path| && Fits(path, i)
  {
    path[i + 1..Close(path, i + 1)]
  }

  /** Where the search goes on: behind the match, or one character further. */
  function Onward(path: string, i: nat): (n: nat)
    requires i < |path|
    ensures i < n <= |path|
  {
    if Fits(path, i) then Close(path, i + 1) + 1 else i + 1
  }

  function PlaceholdersFrom(path: string, i: nat): seq<string>
    requires i <= |path|
    decreases |path| - i
  {
    if i == |path| then []
    else (if Fits(path, i) then [NameAt(path, i)] else []) + PlaceholdersFrom(path, Onward(path, i))
  }

  /** The matches in the path, leftmost first. */
  function Placeholders(path: string): seq<string> { PlaceholdersFrom(path, 0) }

  /** The search that has come to position `i` makes a match that starts at `at`. */
  predicate MatchAt(path: string, i: nat, at: nat)
    requires i <= at < |path|
    decreases at - i
  {
    if i == at then Fits(path, at) else Onward(path, i) <= at && MatchAt(path, Onward(path, i), at)
  }

  ghost predicate ClosedBefore(path: string, k: nat, at: nat)
    requires at <= |path|
  {
    exists j :: k < j < at && path[j] == '}'
  }

  /** Every brace opened between the two positions is closed there. */
  ghost predicate ClosedBetween(path: string, i: nat, at: nat)
    requires at <= |path|
  {
    forall k | i <= k < at && path[k] == '{' :: ClosedBefore(path, k, at)
  }

  lemma SearchArrives(path: string, i: nat, at: nat)
    requires i < at < |path| && ClosedBetween(path, i, at)
    ensures Onward(path, i) <= at
  {
    CloseIsFirst(path, i + 1);
    if Fits(path, i) {
      assert ClosedBefore(path, i, at);
    }
  }

  lemma {:induction false} CloseIsBrace(path: string, i: nat)
    requires i <= |path| && Close(path, i) < |path|
    ensures path[Close(path, i)] == '}'
    decreases |path| - i
  {
    if path[i] != '}' {
      CloseIsBrace(path, i + 1);
    }
  }

  lemma {:induction false} ClosesBy(path: string, i: nat, j: nat)
    requires i <= j < |path| && path[j] == '}'
    ensures Close(path, i) <= j
    decreases j - i
  {
    if i < j {
      ClosesBy(path, i + 1, j);
    }
  }

  lemma NothingUnclosed(path: string, i: nat, at: nat, k: nat)
    requires i < at < |path| && Onward(path, i) <= at && Fits(path, at)
    requires i <= k < Onward(path, i) && path[k] == '{'
    ensures ClosedBefore(path, k, at)
  {
    var close, later := Close(path, i + 1), Close(path, at + 1);
    CloseIsBrace(path, at + 1);
    ClosesBy(path, i + 1, later);
    CloseIsBrace(path, i + 1);
    assert path[at] == '{' && close != at;
    assert k < close < at;
  }

  /** What a step passes over on the way to a match holds no unclosed brace. */
  lemma StepIsClosed(path: string, i: nat, at: nat)
    requires i < at < |path| && Onward(path, i) <= at && Fits(path, at)
    requires ClosedBetween(path, Onward(path, i), at)
    ensures ClosedBetween(path, i, at)
  {
    forall k | i <= k < at && path[k] == '{' ensures ClosedBefore(path, k, at) {
      if k < Onward(path, i) {
        NothingUnclosed(path, i, at, k);
      }
    }
  }

  /** A match starts at exactly those places where the expression fits and no brace before is unclosed. */
  lemma {:induction false} MatchStartsExactlyWhen(path: string, i: nat, at: nat)
    requires i <= at < |path|
    ensures MatchAt(path, i, at) <==> Fits(path, at) && ClosedBetween(path, i, at)
    decreases at - i
  {
    if i < at {
      var next := Onward(path, i);
      if next <= at {
        MatchStartsExactlyWhen(path, next, at);
      }
      if ClosedBetween(path, i, at) {
        SearchArrives(path, i, at);
      } else if next <= at && Fits(path, at) && ClosedBetween(path, next, at) {
        StepIsClosed(path, i, at);
      }
    }
  }

  lemma {:induction false} MatchIsFound(path: string, i: nat, at: nat)
    requires i <= at < |path| && MatchAt(path, i, at)
    ensures Fits(path, at) && NameAt(path, at) in PlaceholdersFrom(path, i)
    decreases at - i
  {
    if i < at {
      MatchIsFound(path, Onward(path, i), at);
    }
  }

  lemma {:induction false} FoundIsMatch(path: string, i: nat, name: string) returns (at: nat)
    requires i <= |path| && name in PlaceholdersFrom(path, i)
    ensures i <= at < |path| && MatchAt(path, i, at) && Fits(path, at) && NameAt(path, at) == name
    decreases |path| - i
  {
    if name in PlaceholdersFrom(path, Onward(path, i)) {
      at := FoundIsMatch(path, Onward(path, i), name);
    } else {
      at := i;
    }
  }

  /** The name stands in the path between braces, after `before`. */
  ghost predicate Stands(path: string, name: string, before: string, after: string) {
    path == before + ("{" + name + "}" + after)
  }

  lemma NameStands(path: string, at: nat) returns (after: string)
    requires at < |path| && Fits(path, at)
    ensures NameAt(path, at) != "" && '}' !in NameAt(path, at) && Stands(path, NameAt(path, at), path[..at], after)
  {
    CloseIsFirst(path, at + 1);
    after := path[at + |NameAt(path, at)| + 2..];
  }

  lemma StandingName(before: string, name: string, after: string)
    requires name != "" && '}' !in name
    ensures var path := before + ("{" + name + "}" + after); Fits(path, |before|) && NameAt(path, |before|) == name
  {
    var path := before + ("{" + name + "}" + after);
    var close := |before| + 1 + |name|;
    assert path[|before|] == '{' && path[close] == '}' && path[|before| + 1..close] == name;
    CloseIsFirst(path, |before| + 1);
    assert forall k | |before| < k < close :: path[k] == name[k - |before| - 1];
  }

  /** Each placeholder stands between braces somewhere in the path, is not empty and has no closing brace. */
  lemma PlaceholdersOccur(path: string, name: string)
    requires name in Placeholders(path)
    ensures name != "" && '}' !in name && exists before, after :: Stands(path, name, before, after)
  {
    var at := FoundIsMatch(path, 0, name);
    MatchStartsExactlyWhen(path, 0, at);
    var after := NameStands(path, at);
  }

  /** Every opening brace is closed further on. */
  ghost predicate Closed(text: string) { ClosedBetween(text, 0, |text|) }

  lemma ClosedInFront(before: string, rest: string)
    ensures Closed(before) <==> ClosedBetween(before + rest, 0, |before|)
  {
    var path := before + rest;
    assert forall k | 0 <= k < |before| :: path[k] == before[k];
  }

  /** Every placeholder of the path is found, unless an opening brace before it is still unclosed. */
  lemma PlaceholdersAreFound(before: string, name: string, after: string)
    requires Closed(before) && name != "" && '}' !in name
    ensures name in Placeholders(before + ("{" + name + "}" + after))
  {
    var rest := "{" + name + "}" + after;
    StandingName(before, name, after);
    ClosedInFront(before, rest);
    MatchStartsExactlyWhen(before + rest, 0, |before|);
    MatchIsFound(before + rest, 0, |before|);
  }

  /** The placeholders are exactly the non-empty names between braces, without a closing brace inside,
      that have no unclosed brace before them. */
  lemma FoundExactlyWhen(path: string, name: string)
    ensures name in Placeholders(path) <==>
      name != "" && '}' !in name && exists before, after :: Closed(before) && Stands(path, name, before, after)
  {
    if name in Placeholders(path) {
      PlaceholdersOccur(path, name);
      var at := FoundIsMatch(path, 0, name);
      MatchStartsExactlyWhen(path, 0, at);
      var after := NameStands(path, at);
      ClosedInFront(path[..at], path[at..]);
      assert path == path[..at] + path[at..];
      assert Closed(path[..at]);
    }
    if name != "" && '}' !in name && exists before, after :: Closed(before) && Stands(path, name, before, after) {
      var before, after :| Closed(before) && Stands(path, name, before, after);
      PlaceholdersAreFound(before, name, after);
    }
  }

  // ---------------------------------------------------------------- Request bodies

  function Present(scans: seq<Option<Scan>>): seq<Scan> {
    if scans == [] then []
    else (if scans[0].Some? then [scans[0].value] else []) + Present(scans[1..])
  }

  function ScansOf(body: Option<Body>): seq<Scan> {
    if body.None? then [] else [body.value.own] + Present(body.value.oneOf) + Present(body.value.anyOf)
  }

  function NamesOf(properties: seq<BodyProperty>): set<string> {
    set p | p in properties :: p.name
  }

  /** All body fields, in the order in which the builder meets them. */
  function Fields(scans: seq<Scan>): seq<BodyProperty> {
    if scans == [] then [] else Fields(scans[..|scans| - 1]) + scans[|scans| - 1].properties
  }

  lemma FieldsOfLonger(scans: seq<Scan>, scan: Scan)
    ensures Fields(scans + [scan]) == Fields(scans) + scan.properties
  {
    assert (scans + [scan])[..|scans|] == scans;
  }

  /** The first field with this name: the one that counts. */
  function FirstField(fields: seq<BodyProperty>, name: string): (r: Option<BodyProperty>)
    ensures r.Some? <==> name in NamesOf(fields)
    ensures r.Some? ==> r.value in fields && r.value.name == name
  {
    if fields == [] then None
    else if fields[0].name == name then Some(fields[0])
    else FirstField(fields[1..], name)
  }

  lemma {:induction false} FirstFieldOfLonger(front: seq<BodyProperty>, back: seq<BodyProperty>, name: string)
    ensures FirstField(front + back, name) ==
      if FirstField(front, name).Some? then FirstField(front, name) else FirstField(back, name)
    decreases |front|
  {
    if front == [] {
      assert front + back == back;
    } else {
      assert (front + back)[1..] == front[1..] + back;
      FirstFieldOfLonger(front[1..], back, name);
    }
  }

  function FieldProperty(f: BodyProperty): Property {
    Property(KindOf(f.kind), Shorten(f.description))
  }

  /** Some schema requires the name at a point where it is already a property. */
  ghost predicate Demanded(scans: seq<Scan>, defined: set<string>, name: string) {
    scans != [] &&
    var last := |scans| - 1;
    || Demanded(scans[..last], defined, name)
    || (name in scans[last].required && (name in defined || name in NamesOf(Fields(scans))))
  }

  lemma DemandedOfLonger(scans: seq<Scan>, scan: Scan, defined: set<string>, name: string)
    ensures Demanded(scans + [scan], defined, name) <==>
      || Demanded(scans, defined, name)
      || (name in scan.required && (name in defined || name in NamesOf(Fields(scans + [scan]))))
  {
    assert (scans + [scan])[..|scans|] == scans;
  }

  // ---------------------------------------------------------------- dedupStrings

  ghost predicate NoDuplicates(s: seq<string>) {
    forall i, j | 0 <= i < j < |s| :: s[i] != s[j]
  }

  /** `r` lists strings in the order in which each first appears in `ss`. */
  ghost predicate FirstOrder(r: seq<string>, ss: seq<string>) {
    forall i, j, k | 0 <= i < j < |r| && 0 <= k < |ss| && ss[k] == r[j] :: r[i] in ss[..k]
  }

  method DedupStrings(ss: seq<string>) returns (r: seq<string>)
    ensures NoDuplicates(r)
    ensures forall s :: s in r <==> s in ss
    ensures FirstOrder(r, ss)
  {
    var seen := {};
    r := [];
    for i := 0 to |ss|
      invariant NoDuplicates(r)
      invariant FirstOrder(r, ss[..i])
      invariant forall s :: s in seen <==> s in r
      invariant forall s :: s in r <==> s in ss[..i]
    {
      if ss[i] !in seen {
        seen := seen + {ss[i]};
        r := r + [ss[i]];
      }
      assert ss[..i + 1] == ss[..i] + [ss[i]];
    }
    assert ss[..|ss|] == ss;
  }

  // ---------------------------------------------------------------- The builder

  /** What the parameter objects alone determine. */
  ghost predicate FromParams(params: seq<Param>, b: Parameters) {
    && (forall n :: n in b.properties <==> First(params, n).Some?)
    && (forall n | n in b.properties :: b.properties[n] == PropertyOf(First(params, n).value))
    && (forall n :: n in b.queryMapping <==> First(params, n).Some? && First(params, n).value.location == "query")
    && (forall n | n in b.queryMapping :: b.queryMapping[n] == n)
    && (forall n :: n in b.required <==> First(params, n).Some? && First(params, n).value.location == "path")
    && b.bodyMapping == map[]
  }

  method ProcessParams(params: seq<Param>) returns (b: Parameters)
    ensures FromParams(params, b)
  {
    b := Parameters(map[], [], map[], map[]);
    for i := 0 to |params|
      invariant FromParams(params[..i], b)
    {
      var p := params[i];
      ghost var before := b;
      assert params[..i + 1] == params[..i] + [p];
      if p.name != "" && p.name !in b.properties {
        b := b.(properties := b.properties[p.name := Property(KindOf(p.kind), Shorten(p.description))]);
        if p.location == "path" {
          b := b.(required := b.required + [p.name]);
        } else if p.location == "query" {
          b := b.(queryMapping := b.queryMapping[p.name := p.name]);
        }
        ParamAdded(params[..i], p, before, b);
      } else {
        ParamIgnored(params[..i], p, b);
      }
    }
    assert params[..|params|] == params;
  }

  lemma ParamAdded(params: seq<Param>, p: Param, a: Parameters, b: Parameters)
    requires FromParams(params, a) && p.name != "" && p.name !in a.properties
    requires b.properties == a.properties[p.name := PropertyOf(p)] && b.bodyMapping == a.bodyMapping
    requires b.required == if p.location == "path" then a.required + [p.name] else a.required
    requires b.queryMapping == if p.location == "query" then a.queryMapping[p.name := p.name] else a.queryMapping
    ensures FromParams(params + [p], b)
  {
    forall n { FirstOfLonger(params, p, n); }
  }

  lemma ParamIgnored(params: seq<Param>, p: Param, b: Parameters)
    requires FromParams(params, b) && (p.name == "" || p.name in b.properties)
    ensures FromParams(params + [p], b)
  {
    forall n { FirstOfLonger(params, p, n); }
  }

  /** A later stage only adds: what `a` defined stays, and the query mapping is untouched. */
  ghost predicate Extends(a: Parameters, b: Parameters) {
    && (forall n | n in a.properties :: n in b.properties && b.properties[n] == a.properties[n])
    && b.queryMapping == a.queryMapping
    && (forall n | n in a.required :: n in b.required)
  }

  /** The names not defined by `a` become required string properties of `b`. */
  ghost predicate WithPlaceholders(a: Parameters, names: seq<string>, b: Parameters) {
    && Extends(a, b) && b.bodyMapping == a.bodyMapping
    && (forall n :: n in b.properties <==> n in a.properties || n in names)
    && (forall n | n in b.properties && n !in a.properties :: b.properties[n] == Property("string", n))
    && (forall n :: n in b.required <==> n in a.required || (n in names && n !in a.properties))
  }

  function NewPlaceholder(b: Parameters, name: string): Parameters {
    b.(properties := b.properties[name := Property("string", name)], required := b.required + [name])
  }

  lemma OnePlaceholder(a: Parameters, names: seq<string>, b: Parameters, name: string)
    requires WithPlaceholders(a, names, b)
    ensures WithPlaceholders(a, names + [name], if name in b.properties then b else NewPlaceholder(b, name))
  {
  }

  method AddPlaceholders(path: string, a: Parameters) returns (b: Parameters)
    ensures WithPlaceholders(a, Placeholders(path), b)
  {
    var names := Placeholders(path);
    b := a;
    for i := 0 to |names|
      invariant WithPlaceholders(a, names[..i], b)
    {
      assert names[..i + 1] == names[..i] + [names[i]];
      OnePlaceholder(a, names[..i], b, names[i]);
      if names[i] !in b.properties {
        b := NewPlaceholder(b, names[i]);
      }
    }
    assert names[..|names|] == names;
  }

  /** The fields not defined by `a` become properties and body mappings of `b`. */
  ghost predicate WithFields(a: Parameters, fields: seq<BodyProperty>, b: Parameters) {
    Extends(a, b) && forall n :: FieldState(a, fields, b, n)
  }

  predicate FieldState(a: Parameters, fields: seq<BodyProperty>, b: Parameters, n: string) {
    var field := FirstField(fields, n);
    && (n in b.properties <==> n in a.properties || field.Some?)
    && (n in b.properties && n !in a.properties ==> b.properties[n] == FieldProperty(field.value))
    && (n in b.bodyMapping <==> field.Some? && n !in a.properties)
    && (n in b.bodyMapping ==> b.bodyMapping[n] == n)
  }

  lemma WithFieldsMeans(a: Parameters, fields: seq<BodyProperty>, b: Parameters)
    requires WithFields(a, fields, b)
    ensures forall n :: n in b.properties <==> n in a.properties || n in NamesOf(fields)
    ensures forall n :: n in b.bodyMapping <==> n in NamesOf(fields) && n !in a.properties
    ensures forall n | n in b.bodyMapping :: b.bodyMapping[n] == n
  {
    forall n
      ensures n in b.properties <==> n in a.properties || n in NamesOf(fields)
      ensures n in b.bodyMapping <==> n in NamesOf(fields) && n !in a.properties
      ensures n in b.bodyMapping ==> b.bodyMapping[n] == n
    {
      assert FieldState(a, fields, b, n);
    }
  }

  /** Fields are about properties and body mappings, not about what is required. */
  lemma RequiredAside(a: Parameters, fields: seq<BodyProperty>, b: Parameters, c: Parameters)
    requires WithFields(a, fields, b) && c == b.(required := c.required)
    requires forall n | n in b.required :: n in c.required
    ensures WithFields(a, fields, c)
  {
    forall n ensures FieldState(a, fields, c, n) {
      assert FieldState(a, fields, b, n);
    }
  }

  /** The part of the loop over one schema's properties that defines its fields. */
  method AddFields(a: Parameters, before: seq<BodyProperty>, fields: seq<BodyProperty>, c: Parameters)
    returns (b: Parameters)
    requires WithFields(a, before, c)
    ensures WithFields(a, before + fields, b) && b.required == c.required
  {
    b := c;
    ghost var seen := before;
    for i := 0 to |fields|
      invariant seen == before + fields[..i]
      invariant WithFields(a, seen, b) && b.required == c.required
    {
      var p := fields[i];
      FieldMet(a, seen, p, b);
      if p.name !in b.properties {
        b := b.(properties := b.properties[p.name := Property(KindOf(p.kind), Shorten(p.description))],
                bodyMapping := b.bodyMapping[p.name := p.name]);
      }
      seen := seen + [p];
    }
    assert fields[..|fields|] == fields;
  }

  lemma FieldMet(a: Parameters, seen: seq<BodyProperty>, p: BodyProperty, b: Parameters)
    requires WithFields(a, seen, b)
    ensures
      if p.name in b.properties then WithFields(a, seen + [p], b)
      else WithFields(a, seen + [p], b.(properties := b.properties[p.name := FieldProperty(p)],
                                        bodyMapping := b.bodyMapping[p.name := p.name]))
  {
    var c := if p.name in b.properties then b
             else b.(properties := b.properties[p.name := FieldProperty(p)],
                     bodyMapping := b.bodyMapping[p.name := p.name]);
    assert FieldState(a, seen, b, p.name);
    forall n ensures FieldState(a, seen + [p], c, n) {
      assert FieldState(a, seen, b, n);
      FirstFieldOfLonger(seen, [p], n);
    }
  }

  /** Required names count only when they are properties by then. */
  method AddRequired(required: seq<string>, a: Parameters) returns (b: Parameters)
    ensures b == a.(required := b.required)
    ensures forall n :: n in b.required <==> n in a.required || (n in required && n in a.properties)
  {
    b := a;
    for i := 0 to |required|
      invariant b == a.(required := b.required)
      invariant forall n :: n in b.required <==> n in a.required || (n in required[..i] && n in a.properties)
    {
      assert required[..i + 1] == required[..i] + [required[i]];
      if required[i] in b.properties {
        b := b.(required := b.required + [required[i]]);
      }
    }
    assert required[..|required|] == required;
  }

  ghost predicate WithDemanded(a: Parameters, scans: seq<Scan>, b: Parameters) {
    forall n :: n in b.required <==> n in a.required || Demanded(scans, a.properties.Keys, n)
  }

  method AddBody(scans: seq<Scan>, a: Parameters) returns (b: Parameters)
    requires a.bodyMapping == map[]
    ensures WithFields(a, Fields(scans), b) && WithDemanded(a, scans, b)
  {
    b := a;
    for i := 0 to |scans|
      invariant WithFields(a, Fields(scans[..i]), b) && WithDemanded(a, scans[..i], b)
    {
      assert scans[..i + 1] == scans[..i] + [scans[i]];
      FieldsOfLonger(scans[..i], scans[i]);
      b := AddFields(a, Fields(scans[..i]), scans[i].properties, b);
      ghost var before := b;
      WithFieldsMeans(a, Fields(scans[..i + 1]), b);
      b := AddRequired(scans[i].required, b);
      RequiredAside(a, Fields(scans[..i + 1]), before, b);
      forall n { DemandedOfLonger(scans[..i], scans[i], a.properties.Keys, n); }
    }
    assert scans[..|scans|] == scans;
  }

  /** Where a name's definition comes from: a parameter object, else a placeholder, else the request body. */
  function Definition(params: seq<Param>, path: string, scans: seq<Scan>, name: string): Option<Property> {
    if First(params, name).Some? then Some(PropertyOf(First(params, name).value))
    else if name in Placeholders(path) then Some(Property("string", name))
    else if FirstField(Fields(scans), name).Some? then Some(FieldProperty(FirstField(Fields(scans), name).value))
    else None
  }

  /** The properties that are there before the request body is looked at. */
  function BeforeBody(params: seq<Param>, path: string, b: Parameters): set<string> {
    set n | n in b.properties && (First(params, n).Some? || n in Placeholders(path))
  }

  lemma {:induction false} DemandedIsDefined(scans: seq<Scan>, defined: set<string>, name: string)
    requires Demanded(scans, defined, name)
    ensures name in defined || name in NamesOf(Fields(scans))
  {
    var last := |scans| - 1;
    if Demanded(scans[..last], defined, name) {
      DemandedIsDefined(scans[..last], defined, name);
    }
  }

  /** The three stages of the builder, one after the other. */
  ghost predicate Stages(
    params: seq<Param>, path: string, scans: seq<Scan>, a: Parameters, b: Parameters, c: Parameters) {
    && FromParams(params, a) && WithPlaceholders(a, Placeholders(path), b)
    && WithFields(b, Fields(scans), c) && WithDemanded(b, scans, c)
  }

  lemma StagesDefine(params: seq<Param>, path: string, scans: seq<Scan>, a: Parameters, b: Parameters, c: Parameters)
    requires Stages(params, path, scans, a, b, c)
    ensures forall n :: n in c.properties <==> Definition(params, path, scans, n).Some?
    ensures forall n | n in c.properties :: c.properties[n] == Definition(params, path, scans, n).value
  {
    forall n ensures n in c.properties <==> Definition(params, path, scans, n).Some?
      ensures n in c.properties ==> c.properties[n] == Definition(params, path, scans, n).value
    {
      assert FieldState(b, Fields(scans), c, n);
      assert n in a.properties <==> First(params, n).Some?;
      assert n in b.properties <==> n in a.properties || n in Placeholders(path);
    }
  }

  lemma StagesMap(params: seq<Param>, path: string, scans: seq<Scan>, a: Parameters, b: Parameters, c: Parameters)
    requires Stages(params, path, scans, a, b, c)
    ensures forall n :: n in c.queryMapping <==> First(params, n).Some? && First(params, n).value.location == "query"
    ensures forall n :: n in c.bodyMapping <==>
              n in NamesOf(Fields(scans)) && First(params, n).None? && n !in Placeholders(path)
    ensures forall n | n in c.queryMapping :: c.queryMapping[n] == n
    ensures forall n | n in c.bodyMapping :: c.bodyMapping[n] == n
  {
    WithFieldsMeans(b, Fields(scans), c);
  }

  lemma StagesRequire(params: seq<Param>, path: string, scans: seq<Scan>, a: Parameters, b: Parameters, c: Parameters)
    requires Stages(params, path, scans, a, b, c)
    ensures forall n | n in c.required :: n in c.properties
    ensures forall n :: n in c.required <==>
              || (First(params, n).Some? && First(params, n).value.location == "path")
              || (First(params, n).None? && n in Placeholders(path))
              || Demanded(scans, BeforeBody(params, path, c), n)
  {
    WithFieldsMeans(b, Fields(scans), c);
    assert BeforeBody(params, path, c) == b.properties.Keys;
    forall n | n in c.required ensures n in c.properties {
      if Demanded(scans, b.properties.Keys, n) {
        DemandedIsDefined(scans, b.properties.Keys, n);
      }
    }
  }

  /**
   * buildParamsAndExecution: the whole result for every operation. The query and body mappings are
   * disjoint identity maps on properties, and `required` lists, once each, the path parameters, the
   * placeholders without a parameter object and what the body demands.
   */
  method BuildParameters(operation: seq<Param>, pathItem: seq<Param>, path: string, body: Option<Body>)
    returns (b: Parameters)
    ensures
      var params := operation + pathItem;
      && (forall n :: n in b.properties <==> Definition(params, path, ScansOf(body), n).Some?)
      && (forall n | n in b.properties :: b.properties[n] == Definition(params, path, ScansOf(body), n).value)
      && (forall n :: n in b.queryMapping <==> First(params, n).Some? && First(params, n).value.location == "query")
      && (forall n :: n in b.bodyMapping <==>
            n in NamesOf(Fields(ScansOf(body))) && First(params, n).None? && n !in Placeholders(path))
    ensures forall n | n in b.queryMapping :: b.queryMapping[n] == n
    ensures forall n | n in b.bodyMapping :: b.bodyMapping[n] == n
    ensures b.queryMapping.Keys !! b.bodyMapping.Keys
    ensures b.queryMapping.Keys + b.bodyMapping.Keys <= b.properties.Keys
    ensures forall n | n in Placeholders(path) :: n in b.properties
    ensures NoDuplicates(b.required) && forall n | n in b.required :: n in b.properties
    ensures
      var params := operation + pathItem;
      forall n :: n in b.required <==>
        || (First(params, n).Some? && First(params, n).value.location == "path")
        || (First(params, n).None? && n in Placeholders(path))
        || Demanded(ScansOf(body), BeforeBody(params, path, b), n)
  {
    var params, scans := operation + pathItem, ScansOf(body);
    var fromParams := ProcessParams(params);
    var withPath := AddPlaceholders(path, fromParams);
    var withBody := AddBody(scans, withPath);
    var required := DedupStrings(withBody.required);
    b := withBody.(required := required);
    StagesDefine(params, path, scans, fromParams, withPath, withBody);
    StagesMap(params, path, scans, fromParams, withPath, withBody);
    StagesRequire(params, path, scans, fromParams, withPath, withBody);
    assert BeforeBody(params, path, b) == BeforeBody(params, path, withBody);
  }
}
