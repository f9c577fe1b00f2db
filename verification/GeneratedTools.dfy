/** Tools generated from an OpenAPI operation: the manifest written for the operation, and
    what a call of the generated tool sends to the ERP system. */
module GeneratedTools {
  import opened Common
  import opened QualifiedNames
  import opened ArgumentNames
  import opened PathTemplate
  import opened ErpCall

  // ----- Writing the manifest ------------------------------------------------------------

  /** The source name of the argument that carries a whole body, or "" without one. */
  function BodySource(whole: bool): string {
    if whole then "body" else ""
  }

  /** The last argument of that source, or "". */
  function LastFrom(arguments: seq<Argument>, names: seq<string>, source: string): string
    requires |names| == |arguments|
  {
    var n := |arguments|;
    if n == 0 then ""
    else if arguments[n - 1].sourceName == source then names[n - 1]
    else LastFrom(arguments[..n - 1], names[..n - 1], source)
  }

  lemma {:induction false} LastFromIsLast(arguments: seq<Argument>, names: seq<string>, source: string, i: nat)
    requires |names| == |arguments| && i < |arguments| && arguments[i].sourceName == source
    requires forall j :: i < j < |arguments| ==> arguments[j].sourceName != source
    ensures LastFrom(arguments, names, source) == names[i]
  {
    var n := |arguments|;
    if i < n - 1 {
      LastFromIsLast(arguments[..n - 1], names[..n - 1], source, i);
    }
  }

  lemma {:induction false} LastFromIsFrom(arguments: seq<Argument>, names: seq<string>, source: string)
    requires |names| == |arguments|
    ensures LastFrom(arguments, names, source) == "" ||
            exists i :: 0 <= i < |arguments| && arguments[i].sourceName == source && names[i] == LastFrom(arguments, names, source)
  {
    var n := |arguments|;
    if n > 0 && arguments[n - 1].sourceName != source {
      LastFromIsFrom(arguments[..n - 1], names[..n - 1], source);
      if LastFrom(arguments, names, source) != "" {
        var i :| 0 <= i < n - 1 && arguments[..n - 1][i].sourceName == source
                 && names[..n - 1][i] == LastFrom(arguments, names, source);
        assert arguments[i].sourceName == source && names[i] == LastFrom(arguments, names, source);
      }
    }
  }

  /** A table with exactly these entries. */
  ghost predicate Tabulates<T>(m: map<string, T>, names: seq<string>, values: seq<T>) {
    && |names| == |values|
    && (forall i :: 0 <= i < |names| ==> names[i] in m && m[names[i]] == values[i])
    && (forall n :: n in m ==> n in names)
  }

  lemma TabulateOneMore<T>(m: map<string, T>, names: seq<string>, values: seq<T>, name: string, value: T)
    requires Tabulates(m, names, values) && name !in names
    ensures Tabulates(m[name := value], names + [name], values + [value])
  {
    var longer := names + [name];
    forall i | 0 <= i < |longer| ensures longer[i] in m[name := value] && m[name := value][longer[i]] == (values + [value])[i] {
      assert i < |names| ==> names[i] in names;
    }
    forall n | n in m[name := value] ensures n in longer {
      assert n != name ==> n in names;
      assert longer[|names|] == name;
    }
  }

  function ErpNames(arguments: seq<Argument>): (r: seq<string>)
    ensures |r| == |arguments|
  {
    seq(|arguments|, i requires 0 <= i < |arguments| => arguments[i].erpName)
  }

  function Places(arguments: seq<Argument>): (r: seq<Location>)
    ensures |r| == |arguments|
  {
    seq(|arguments|, i requires 0 <= i < |arguments| => arguments[i].location)
  }

  /** The manifest maps every argument name to its ERP parameter and place, and nothing else. */
  ghost predicate Manifests(e: Execution, arguments: seq<Argument>, names: seq<string>, bodySource: string)
    requires |names| == |arguments|
  {
    && Tabulates(e.mapping, names, ErpNames(arguments))
    && Tabulates(e.locations, names, Places(arguments))
    && e.bodyArgument == LastFrom(arguments, names, bodySource)
  }

  lemma ManifestStep(e: Execution, arguments: seq<Argument>, names: seq<string>, bodySource: string, n: nat)
    requires |names| == |arguments| && n < |names|
    requires forall i :: 0 <= i < n ==> names[i] != names[n]
    requires Manifests(e, arguments[..n], names[..n], bodySource)
    ensures var a := arguments[n];
            Manifests(e.(mapping := e.mapping[names[n] := a.erpName], locations := e.locations[names[n] := a.location],
                         bodyArgument := if a.sourceName == bodySource then names[n] else e.bodyArgument),
                      arguments[..n + 1], names[..n + 1], bodySource)
  {
    var a := arguments[n];
    TabulateOneMore(e.mapping, names[..n], ErpNames(arguments[..n]), names[n], a.erpName);
    TabulateOneMore(e.locations, names[..n], Places(arguments[..n]), names[n], a.location);
    assert ErpNames(arguments[..n + 1]) == ErpNames(arguments[..n]) + [a.erpName];
    assert Places(arguments[..n + 1]) == Places(arguments[..n]) + [a.location];
    assert arguments[..n + 1][..n] == arguments[..n] && names[..n + 1][..n] == names[..n];
    assert names[..n + 1] == names[..n] + [names[n]];
  }

  method BuildExecution(endpoint: string, isGet: bool, arguments: seq<Argument>, names: seq<string>, bodySource: string)
    returns (e: Execution)
    requires |names| == |arguments|
    requires forall i, j :: 0 <= i < j < |names| ==> names[i] != names[j]
    ensures e.endpoint == endpoint && e.isGet == isGet
    ensures Manifests(e, arguments, names, bodySource)
  {
    e := Execution(endpoint, isGet, map[], map[], "");
    for n := 0 to |arguments|
      invariant e.endpoint == endpoint && e.isGet == isGet
      invariant Manifests(e, arguments[..n], names[..n], bodySource)
    {
      var a := arguments[n];
      ManifestStep(e, arguments, names, bodySource, n);
      e := e.(mapping := e.mapping[names[n] := a.erpName], locations := e.locations[names[n] := a.location]);
      if a.sourceName == bodySource {
        e := e.(bodyArgument := names[n]);
      }
    }
    assert arguments[..|arguments|] == arguments && names[..|names|] == names;
  }

  // ----- What a call is meant to send ----------------------------------------------------

  /** Names are distinct, and so are the ERP parameters. */
  ghost predicate Apart(arguments: seq<Argument>, names: seq<string>) {
    && |names| == |arguments|
    && (forall i, j :: 0 <= i < |names| && 0 <= j < |names| && i != j ==> names[i] != names[j])
    && (forall i, j :: 0 <= i < |names| && 0 <= j < |names| && i != j ==> !SamePlace(arguments[i], arguments[j]))
  }

  /** A generated tool: its operation's path template, its arguments and their names, and
      whether the last argument is the whole body. */
  datatype Plan = Plan(template: Template, arguments: seq<Argument>, names: seq<string>, whole: bool) {

    /** What one argument looks like. */
    ghost predicate Proper(i: nat)
      requires |arguments| == |names| && i < |names|
    {
      var a := arguments[i];
      && a.sourceName == a.erpName && a.location in {Path, Query, Header, Body}
      && (a.erpName == "" ==> a.location == Body)
      && (a.erpName != "" ==> names[i] != "")
      && (a.location == Path ==> Plain(a.erpName))
      && (whole && a.location == Body ==> i == |names| - 1 && a.erpName == "body")
    }

    ghost predicate Valid() {
      && Flat(template) && Render(template) != ""
      && Apart(arguments, names)
      && (forall i :: 0 <= i < |names| ==> Proper(i))
      && (whole ==> names != [] && arguments[|names| - 1].location == Body)
    }
  }

  function PlanOf(template: Template, parameters: seq<Parameter>, body: BodyShape, names: seq<string>): Plan {
    Plan(template, Generated(parameters, body), names, body.WholeBody?)
  }

  lemma SettledNamesAreNotEmpty(arguments: seq<Argument>, names: seq<string>, i: nat)
    requires WellNamed(arguments, names) && i < |names| && arguments[i].sourceName != ""
    ensures names[i] != ""
  {
    assert FirstCandidate(Base(arguments, i), names[i], names);
    var k :| CandidateAfter(Base(arguments, i), names[i], names, k);
    assert |names[i]| >= |Base(arguments, i)| >= |arguments[i].sourceName| > 0;
  }

  lemma ArgumentsAreApart(arguments: seq<Argument>, names: seq<string>)
    requires Ordinary(arguments) && WellNamed(arguments, names)
    ensures Apart(arguments, names)
  {
    var a := arguments;
    forall i, j | 0 <= i < |a| && 0 <= j < |a| && i != j ensures !SamePlace(a[i], a[j]) {
      assert SamePlace(a[i], a[j]) == SamePlace(a[j], a[i]);
    }
  }

  /** A valid document, and the names its operation's arguments were given. */
  ghost predicate Documented(template: Template, parameters: seq<Parameter>, body: BodyShape, names: seq<string>) {
    && Collectable(parameters, body) && WellNamed(Generated(parameters, body), names)
    && Flat(template) && Render(template) != ""
    && forall i :: 0 <= i < |parameters| ==>
         parameters[i].name != "" && (parameters[i].location == Path ==> Plain(parameters[i].name))
  }

  /** Whatever a valid document describes, its generated tool has a valid plan. */
  lemma GeneratedPlansAreValid(template: Template, parameters: seq<Parameter>, body: BodyShape, names: seq<string>)
    requires Documented(template, parameters, body, names)
    ensures PlanOf(template, parameters, body, names).Valid()
  {
    var a, p := Generated(parameters, body), PlanOf(template, parameters, body, names);
    GeneratedArgumentsNeverCollide(parameters, body);
    ArgumentsAreApart(a, names);
    forall i | 0 <= i < |names| ensures p.Proper(i) {
      if a[i].sourceName != "" {
        SettledNamesAreNotEmpty(a, names, i);
      }
      if i >= |parameters| {
        assert a[i] == BodyArguments(body)[i - |parameters|];
      }
    }
  }

  /** The values of the arguments at one place, under their ERP names. */
  function PlacedAt<T>(arguments: seq<Argument>, names: seq<string>, args: map<string, Value>, place: Location, form: Value -> T)
    : map<string, T>
    requires Apart(arguments, names)
  {
    map i | 0 <= i < |names| && names[i] in args && arguments[i].location == place ::
      arguments[i].erpName := form(args[names[i]])
  }

  function Placed<T>(p: Plan, args: map<string, Value>, place: Location, form: Value -> T): map<string, T>
    requires p.Valid()
  {
    PlacedAt(p.arguments, p.names, args, place, form)
  }

  function WholeValue(p: Plan, args: map<string, Value>): Option<Value>
    requires p.Valid()
  {
    if p.whole && p.names[|p.names| - 1] in args then Some(args[p.names[|p.names| - 1]]) else None
  }

  function FieldValues(p: Plan, args: map<string, Value>): map<string, Value>
    requires p.Valid()
  {
    if p.whole then map[] else Placed(p, args, Body, Itself)
  }

  function DraftOf(p: Plan, args: map<string, Value>): Draft
    requires p.Valid()
  {
    Draft(Render(Substitute(p.template, Placed(p, args, Path, Escaped))),
          Placed(p, args, Query, Printed), Placed(p, args, Header, Printed),
          FieldValues(p, args), WholeValue(p, args))
  }

  /** Some value is meant for the body. */
  predicate SuppliesBody(p: Plan, args: map<string, Value>)
    requires p.Valid()
  {
    exists i :: 0 <= i < |p.names| && p.names[i] in args && p.arguments[i].location == Body
  }

  /** Every value under its own ERP name in its own place, and nothing besides; without a value
      for the body, the body is empty. */
  function Intended(p: Plan, args: map<string, Value>): Request
    requires p.Valid()
  {
    var d := DraftOf(p, args);
    Request(d.url, d.query, d.headers,
            if d.whole.Some? then Whole(d.whole.value) else if SuppliesBody(p, args) then Object(d.fields) else Empty)
  }

  /** A body property without a name. */
  predicate Nameless(p: Plan, i: nat)
    requires i < |p.arguments|
  {
    p.arguments[i].location == Body && p.arguments[i].erpName == ""
  }

  /** The calls of a generated tool: arguments it has, and path values its template has a
      place for. */
  ghost predicate Callable(p: Plan, args: map<string, Value>)
    requires p.Valid()
  {
    && (forall k :: k in args ==> k in p.names)
    && forall i :: 0 <= i < |p.names| && p.names[i] in args && p.arguments[i].location == Path ==>
         HasHole(p.template, p.arguments[i].erpName)
  }

  // ----- How the manifest marks the body argument ----------------------------------------

  /** The manifest's body argument is the whole body's argument, or the nameless property. */
  lemma BodyArgumentIs(p: Plan, e: Execution, i: nat)
    requires p.Valid() && i < |p.names| && p.arguments[i].location == Body
    requires Manifests(e, p.arguments, p.names, BodySource(p.whole))
    ensures e.bodyArgument == p.names[i] <==> p.whole || Nameless(p, i)
  {
    var a, source := p.arguments, BodySource(p.whole);
    assert p.Proper(i);
    if a[i].sourceName == source {
      forall j | i < j < |a| ensures a[j].sourceName != source {
        assert p.Proper(j) && !SamePlace(a[i], a[j]);
      }
      LastFromIsLast(a, p.names, source, i);
    } else {
      LastFromIsFrom(a, p.names, source);
    }
  }

  // ----- One argument at a time ----------------------------------------------------------

  lemma PlacedHas<T>(a: seq<Argument>, names: seq<string>, args: map<string, Value>, place: Location, form: Value -> T, j: nat)
    requires Apart(a, names) && j < |names| && names[j] in args && a[j].location == place
    ensures a[j].erpName in PlacedAt(a, names, args, place, form)
    ensures PlacedAt(a, names, args, place, form)[a[j].erpName] == form(args[names[j]])
  {
  }

  lemma PlacedComesFrom<T>(a: seq<Argument>, names: seq<string>, args: map<string, Value>, place: Location, form: Value -> T, n: string)
    returns (j: nat)
    requires Apart(a, names) && n in PlacedAt(a, names, args, place, form)
    ensures j < |names| && names[j] in args && a[j].location == place && a[j].erpName == n
    ensures PlacedAt(a, names, args, place, form)[n] == form(args[names[j]])
  {
    j :| 0 <= j < |names| && names[j] in args && a[j].location == place && a[j].erpName == n;
    PlacedHas(a, names, args, place, form, j);
  }

  /** An argument leaves every other entry as it was. */
  lemma OtherEntriesStand<T>(a: seq<Argument>, names: seq<string>, args: map<string, Value>, i: nat, v: Value,
                             place: Location, form: Value -> T, n: string)
    requires Apart(a, names) && i < |names| && names[i] !in args
    requires a[i].location == place ==> a[i].erpName != n
    ensures var before := PlacedAt(a, names, args, place, form);
            var after := PlacedAt(a, names, args[names[i] := v], place, form);
            (n in after <==> n in before) && (n in before ==> before[n] == after[n])
  {
    var more := args[names[i] := v];
    if n in PlacedAt(a, names, args, place, form) {
      var j := PlacedComesFrom(a, names, args, place, form, n);
      PlacedHas(a, names, more, place, form, j);
    } else if n in PlacedAt(a, names, more, place, form) {
      var j := PlacedComesFrom(a, names, more, place, form, n);
      PlacedHas(a, names, args, place, form, j);
    }
  }

  lemma IsSame<T>(before: map<string, T>, after: map<string, T>)
    requires forall n :: (n in after <==> n in before) && (n in before ==> before[n] == after[n])
    ensures after == before
  {
  }

  lemma PlacedElsewhere<T>(a: seq<Argument>, names: seq<string>, args: map<string, Value>, i: nat, v: Value, place: Location, form: Value -> T)
    requires Apart(a, names) && i < |names| && names[i] !in args && a[i].location != place
    ensures PlacedAt(a, names, args[names[i] := v], place, form) == PlacedAt(a, names, args, place, form)
  {
    var before, after := PlacedAt(a, names, args, place, form), PlacedAt(a, names, args[names[i] := v], place, form);
    forall n ensures (n in after <==> n in before) && (n in before ==> before[n] == after[n]) {
      OtherEntriesStand(a, names, args, i, v, place, form, n);
    }
    IsSame(before, after);
  }

  lemma PlaceIsFree<T>(a: seq<Argument>, names: seq<string>, args: map<string, Value>, i: nat, form: Value -> T)
    requires Apart(a, names) && i < |names| && names[i] !in args
    ensures a[i].erpName !in PlacedAt(a, names, args, a[i].location, form)
  {
    if a[i].erpName in PlacedAt(a, names, args, a[i].location, form) {
      var j := PlacedComesFrom(a, names, args, a[i].location, form, a[i].erpName);
      assert SamePlace(a[i], a[j]);
    }
  }

  lemma IsUpdate<T>(before: map<string, T>, after: map<string, T>, key: string, value: T)
    requires key in after && after[key] == value
    requires forall n :: n != key ==> (n in after <==> n in before) && (n in before ==> before[n] == after[n])
    ensures after == before[key := value]
  {
  }

  lemma PlacedHere<T>(a: seq<Argument>, names: seq<string>, args: map<string, Value>, i: nat, v: Value, form: Value -> T)
    requires Apart(a, names) && i < |names| && names[i] !in args
    ensures PlacedAt(a, names, args[names[i] := v], a[i].location, form) ==
            PlacedAt(a, names, args, a[i].location, form)[a[i].erpName := form(v)]
  {
    var more, place := args[names[i] := v], a[i].location;
    var before, after := PlacedAt(a, names, args, place, form), PlacedAt(a, names, more, place, form);
    PlacedHas(a, names, more, place, form, i);
    forall n | n != a[i].erpName ensures (n in after <==> n in before) && (n in before ==> before[n] == after[n]) {
      OtherEntriesStand(a, names, args, i, v, place, form, n);
    }
    IsUpdate(before, after, a[i].erpName, form(v));
  }

  // ----- Routing -------------------------------------------------------------------------

  /** What the routing proof uses of a plan. */
  ghost predicate Routable(p: Plan, e: Execution) {
    p.Valid() && e.endpoint == Render(p.template) && Manifests(e, p.arguments, p.names, BodySource(p.whole))
  }

  lemma ManifestAt(p: Plan, e: Execution, i: nat)
    requires Routable(p, e) && i < |p.names|
    ensures LocationOf(e, p.names[i]) == p.arguments[i].location
    ensures p.arguments[i].erpName != "" ==> Mapped(e, p.names[i]) == p.arguments[i].erpName
  {
    assert Places(p.arguments)[i] == p.arguments[i].location;
    assert ErpNames(p.arguments)[i] == p.arguments[i].erpName;
  }

  lemma PlacedValuesArePlain(p: Plan, args: map<string, Value>)
    requires p.Valid()
    ensures Flat(Substitute(p.template, Placed(p, args, Path, Escaped)))
  {
    var values := Placed(p, args, Path, Escaped);
    SubstituteAt(p.template, values);
    forall n | n in values ensures Plain(values[n]) {
      var j := PlacedComesFrom(p.arguments, p.names, args, Path, Escaped, n);
      PathEscapeIsPlain(args[p.names[j]].text);
    }
  }

  /** The path gains exactly the value of one more path argument. */
  lemma PathStep(p: Plan, args: map<string, Value>, i: nat, v: Value)
    requires p.Valid() && i < |p.names| && p.names[i] !in args
    requires p.arguments[i].location == Path && HasHole(p.template, p.arguments[i].erpName)
    ensures var name, url := p.arguments[i].erpName, DraftOf(p, args).url;
            && Contains(url, Placeholder(name))
            && ReplaceAll(url, Placeholder(name), Escaped(v)) == DraftOf(p, args[p.names[i] := v]).url
  {
    var name, values := p.arguments[i].erpName, Placed(p, args, Path, Escaped);
    PlacedHere(p.arguments, p.names, args, i, v, Escaped);
    PlaceIsFree(p.arguments, p.names, args, i, Escaped);
    SubstituteOneMore(p.template, values, name, Escaped(v));
    PlacedValuesArePlain(p, args);
    PathEscapeIsPlain(v.text);
    ContainsFindsHole(Substitute(p.template, values), name);
    ReplaceFillsHole(Substitute(p.template, values), name, Escaped(v));
  }

  /** An argument touches its own place only. */
  lemma OthersStand(p: Plan, args: map<string, Value>, i: nat, v: Value)
    requires p.Valid() && i < |p.names| && p.names[i] !in args
    ensures var place := p.arguments[i].location;
            var before, after := DraftOf(p, args), DraftOf(p, args[p.names[i] := v]);
            && (place != Path ==> after.url == before.url)
            && (place != Query ==> after.query == before.query)
            && (place != Header ==> after.headers == before.headers)
            && (place != Body ==> after.fields == before.fields && after.whole == before.whole)
  {
    var a, place := p.arguments, p.arguments[i].location;
    if place != Path { PlacedElsewhere(a, p.names, args, i, v, Path, Escaped); }
    if place != Query { PlacedElsewhere(a, p.names, args, i, v, Query, Printed); }
    if place != Header { PlacedElsewhere(a, p.names, args, i, v, Header, Printed); }
    if place != Body {
      PlacedElsewhere(a, p.names, args, i, v, Body, Itself);
      assert p.whole ==> p.Proper(|p.names| - 1);
    }
  }

  lemma StepInPath(p: Plan, e: Execution, args: map<string, Value>, i: nat, v: Value)
    requires Routable(p, e) && i < |p.names| && p.names[i] !in args
    requires p.arguments[i].location == Path && HasHole(p.template, p.arguments[i].erpName)
    ensures Step(e, DraftOf(p, args), p.names[i], v) == Ok(DraftOf(p, args[p.names[i] := v]))
  {
    assert p.Proper(i);
    ManifestAt(p, e, i);
    OthersStand(p, args, i, v);
    PathStep(p, args, i, v);
  }

  lemma StepInQuery(p: Plan, e: Execution, args: map<string, Value>, i: nat, v: Value)
    requires Routable(p, e) && i < |p.names| && p.names[i] !in args && p.arguments[i].location == Query
    ensures Step(e, DraftOf(p, args), p.names[i], v) == Ok(DraftOf(p, args[p.names[i] := v]))
  {
    assert p.Proper(i);
    ManifestAt(p, e, i);
    OthersStand(p, args, i, v);
    PlacedHere(p.arguments, p.names, args, i, v, Printed);
  }

  lemma StepInHeader(p: Plan, e: Execution, args: map<string, Value>, i: nat, v: Value)
    requires Routable(p, e) && i < |p.names| && p.names[i] !in args && p.arguments[i].location == Header
    ensures Step(e, DraftOf(p, args), p.names[i], v) == Ok(DraftOf(p, args[p.names[i] := v]))
  {
    assert p.Proper(i);
    ManifestAt(p, e, i);
    OthersStand(p, args, i, v);
    PlacedHere(p.arguments, p.names, args, i, v, Printed);
  }

  lemma StepInFields(p: Plan, e: Execution, args: map<string, Value>, i: nat, v: Value)
    requires Routable(p, e) && i < |p.names| && p.names[i] !in args && p.arguments[i].location == Body
    requires !p.whole && !Nameless(p, i)
    ensures Step(e, DraftOf(p, args), p.names[i], v) == Ok(DraftOf(p, args[p.names[i] := v]))
  {
    ManifestAt(p, e, i);
    OthersStand(p, args, i, v);
    BodyArgumentIs(p, e, i);
    PlacedHere(p.arguments, p.names, args, i, v, Itself);
  }

  lemma StepInWholeBody(p: Plan, e: Execution, args: map<string, Value>, i: nat, v: Value)
    requires Routable(p, e) && i < |p.names| && p.names[i] !in args && p.arguments[i].location == Body && p.whole
    ensures Step(e, DraftOf(p, args), p.names[i], v) == Ok(DraftOf(p, args[p.names[i] := v]))
  {
    ManifestAt(p, e, i);
    OthersStand(p, args, i, v);
    BodyArgumentIs(p, e, i);
    WholeStep(p, args, i, v);
  }

  lemma WholeStep(p: Plan, args: map<string, Value>, i: nat, v: Value)
    requires p.Valid() && i < |p.names| && p.names[i] !in args && p.arguments[i].location == Body && p.whole
    ensures WholeValue(p, args[p.names[i] := v]) == Some(v)
    ensures FieldValues(p, args[p.names[i] := v]) == FieldValues(p, args)
  {
    assert p.Proper(i);
  }

  /** One argument that is no nameless property is routed as intended. */
  lemma StepIsIntended(p: Plan, e: Execution, args: map<string, Value>, i: nat, v: Value)
    requires Routable(p, e) && i < |p.names| && p.names[i] !in args && !Nameless(p, i)
    requires p.arguments[i].location == Path ==> HasHole(p.template, p.arguments[i].erpName)
    ensures Step(e, DraftOf(p, args), p.names[i], v) == Ok(DraftOf(p, args[p.names[i] := v]))
  {
    assert p.Proper(i);
    match p.arguments[i].location {
      case Path => StepInPath(p, e, args, i, v);
      case Query => StepInQuery(p, e, args, i, v);
      case Header => StepInHeader(p, e, args, i, v);
      case Body => if p.whole { StepInWholeBody(p, e, args, i, v); } else { StepInFields(p, e, args, i, v); }
      case _ =>
    }
  }

  // ----- Whole calls ---------------------------------------------------------------------

  /** Some value is meant for a body property without a name. */
  ghost predicate SuppliesNameless(p: Plan, args: map<string, Value>)
    requires p.Valid()
  {
    exists i :: 0 <= i < |p.names| && p.names[i] in args && Nameless(p, i)
  }

  /** `order` lists the arguments that are not yet `done`. */
  ghost predicate Remaining(order: seq<string>, done: map<string, Value>, args: map<string, Value>) {
    && (forall i :: 0 <= i < |order| ==> order[i] in args && order[i] !in done)
    && (forall i, j :: 0 <= i < j < |order| ==> order[i] != order[j])
    && (forall k :: k in done ==> k in args && done[k] == args[k])
    && (forall k :: k in args ==> k in done || k in order)
  }

  lemma OneLessRemains(order: seq<string>, done: map<string, Value>, args: map<string, Value>)
    requires Remaining(order, done, args) && order != []
    ensures Remaining(order[1..], done[order[0] := args[order[0]]], args)
  {
    var more := done[order[0] := args[order[0]]];
    forall k | k in args ensures k in more || k in order[1..] {
      if k !in more {
        var j :| 0 <= j < |order| && order[j] == k;
        assert order[1..][j - 1] == k;
      }
    }
  }

  /** With `done` already routed, the rest of the arguments completes the request. */
  lemma {:induction false} RestIsIntended(p: Plan, e: Execution, args: map<string, Value>, order: seq<string>, done: map<string, Value>)
    requires Routable(p, e) && Callable(p, args) && !SuppliesNameless(p, args) && Remaining(order, done, args)
    ensures Steps(e, DraftOf(p, done), order, args) == Ok(DraftOf(p, args))
    decreases |order|
  {
    if order == [] {
      assert done == args;
    } else {
      var name := order[0];
      NextIsIntended(p, e, args, name, done);
      OneLessRemains(order, done, args);
      RestIsIntended(p, e, args, order[1..], done[name := args[name]]);
    }
  }

  lemma NextIsIntended(p: Plan, e: Execution, args: map<string, Value>, name: string, done: map<string, Value>)
    requires Routable(p, e) && Callable(p, args) && !SuppliesNameless(p, args)
    requires name in args && name !in done
    ensures Step(e, DraftOf(p, done), name, args[name]) == Ok(DraftOf(p, done[name := args[name]]))
  {
    assert name in p.names;
    var i: nat :| i < |p.names| && p.names[i] == name;
    StepIsIntended(p, e, done, i, args[name]);
  }

  lemma NothingRouted(p: Plan)
    requires p.Valid()
    ensures DraftOf(p, map[]) == Draft(Render(p.template), map[], map[], map[], None)
  {
    SubstituteAt(p.template, map[]);
    assert Substitute(p.template, map[]) == p.template;
    assert Placed(p, map[], Path, Escaped) == map[];
  }

  /** A value taken for the whole body stays the whole body. */
  lemma {:induction false} WholeBodySticks(e: Execution, d: Draft, order: seq<string>, args: map<string, Value>)
    requires forall i :: 0 <= i < |order| ==> order[i] in args
    requires d.whole.Some? || (e.bodyArgument in order && LocationOf(e, e.bodyArgument) == Body)
    ensures Steps(e, d, order, args).Ok? ==> Steps(e, d, order, args).value.whole.Some?
    decreases |order|
  {
    if order != [] {
      var next := Step(e, d, order[0], args[order[0]]);
      if next.Ok? {
        if e.bodyArgument in order && e.bodyArgument != order[0] {
          assert e.bodyArgument in order[1..];
        }
        WholeBodySticks(e, next.value, order[1..], args);
      }
    }
  }

  lemma NamelessIsMarked(p: Plan, e: Execution, args: map<string, Value>)
    requires Routable(p, e) && SuppliesNameless(p, args)
    ensures e.bodyArgument in args && LocationOf(e, e.bodyArgument) == Body
    ensures Intended(p, args).body.Object?
  {
    var i: nat :| i < |p.names| && p.names[i] in args && Nameless(p, i);
    BodyArgumentIs(p, e, i);
    ManifestAt(p, e, i);
    NamelessIsNoWholeBody(p, args, i);
  }

  lemma NamelessIsNoWholeBody(p: Plan, args: map<string, Value>, i: nat)
    requires p.Valid() && i < |p.names| && p.names[i] in args && Nameless(p, i)
    ensures Intended(p, args).body.Object?
  {
    assert p.Proper(i);
    BodyValueArrives(p, args, i);
  }

  lemma NamelessBecomesWholeBody(p: Plan, e: Execution, order: seq<string>, args: map<string, Value>)
    requires Routable(p, e) && Lists(order, args) && SuppliesNameless(p, args)
    ensures PreparedCall(e, order, args) != Ok(Intended(p, args))
  {
    NamelessIsMarked(p, e, args);
    WholeBodySticks(e, Draft(e.endpoint, map[], map[], map[], None), order, args);
  }

  /** There are fields exactly if some value is meant for one. */
  lemma FieldsIfSupplied(p: Plan, args: map<string, Value>)
    requires p.Valid() && !p.whole
    ensures Placed(p, args, Body, Itself) == map[] <==> !SuppliesBody(p, args)
  {
    if SuppliesBody(p, args) {
      var i: nat :| i < |p.names| && p.names[i] in args && p.arguments[i].location == Body;
      PlacedHas(p.arguments, p.names, args, Body, Itself, i);
    } else if n :| n in Placed(p, args, Body, Itself) {
      var i := PlacedComesFrom(p.arguments, p.names, args, Body, Itself, n);
    }
  }

  lemma WholeIfSupplied(p: Plan, args: map<string, Value>)
    requires p.Valid() && p.whole
    ensures WholeValue(p, args).Some? <==> SuppliesBody(p, args)
  {
    if SuppliesBody(p, args) {
      var i: nat :| i < |p.names| && p.names[i] in args && p.arguments[i].location == Body;
      assert p.Proper(i);
    }
  }

  lemma BodyIsIntended(p: Plan, args: map<string, Value>)
    requires p.Valid()
    ensures BodyOf(DraftOf(p, args)) == Intended(p, args).body
  {
    if p.whole {
      WholeIfSupplied(p, args);
    } else {
      FieldsIfSupplied(p, args);
    }
  }

  /** A call sends every value under its original ERP name in its original place, loses and
      overwrites none and adds nothing, whatever the order of the arguments; the one
      exception is a value for a body property without a name, which replaces the body. */
  lemma CallSendsWhatIsIntended(p: Plan, e: Execution, order: seq<string>, args: map<string, Value>)
    requires Routable(p, e) && Callable(p, args) && Lists(order, args)
    ensures PreparedCall(e, order, args) == Ok(Intended(p, args)) <==> !SuppliesNameless(p, args)
  {
    if SuppliesNameless(p, args) {
      NamelessBecomesWholeBody(p, e, order, args);
    } else {
      NothingRouted(p);
      RestIsIntended(p, e, args, order, map[]);
      BodyIsIntended(p, args);
    }
  }

  /** A supplied query or header value is in the intended request under its ERP name. */
  lemma NamedValueArrives(p: Plan, args: map<string, Value>, i: nat)
    requires p.Valid() && i < |p.names| && p.names[i] in args
    ensures var a, v, r := p.arguments[i], args[p.names[i]], Intended(p, args);
            && (a.location == Query ==> a.erpName in r.query && r.query[a.erpName] == v.text)
            && (a.location == Header ==> a.erpName in r.headers && r.headers[a.erpName] == v.text)
  {
    var place := p.arguments[i].location;
    PlacedHas(p.arguments, p.names, args, place, Printed, i);
  }

  /** A supplied body value is the body, or the body's field of that name. */
  lemma BodyValueArrives(p: Plan, args: map<string, Value>, i: nat)
    requires p.Valid() && i < |p.names| && p.names[i] in args && p.arguments[i].location == Body
    ensures var a, v, body := p.arguments[i], args[p.names[i]], Intended(p, args).body;
            if p.whole then body == Whole(v)
            else body.Object? && a.erpName in body.fields && body.fields[a.erpName] == v
  {
    assert p.Proper(i);
    PlacedHas(p.arguments, p.names, args, Body, Itself, i);
  }

  /** A supplied path value stands, escaped, wherever its placeholder stood, and the segment
      gives it back. */
  lemma PathValueArrives(p: Plan, args: map<string, Value>, i: nat, k: nat)
    requires p.Valid() && i < |p.names| && p.names[i] in args && p.arguments[i].location == Path
    requires k < |p.template| && p.template[k] == Hole(p.arguments[i].erpName)
    ensures var filled := Substitute(p.template, Placed(p, args, Path, Escaped));
            && Intended(p, args).url == Render(filled)
            && k < |filled| && filled[k].Literal? && PathUnescape(filled[k].text) == Some(args[p.names[i]].text)
  {
    PlacedHas(p.arguments, p.names, args, Path, Escaped, i);
    SubstituteAt(p.template, Placed(p, args, Path, Escaped));
    PathEscapeRoundTrip(args[p.names[i]].text);
  }

  // ----- From the document to the request ------------------------------------------------

  /** A value for a parameter of the document arrives under that parameter's name at the place the
      document gives it. */
  lemma ParameterArrives(template: Template, parameters: seq<Parameter>, body: BodyShape, names: seq<string>, args: map<string, Value>, i: nat, k: nat)
    requires Documented(template, parameters, body, names) && i < |parameters| && i < |names| && names[i] in args
    ensures PlanOf(template, parameters, body, names).Valid()
    ensures var p := PlanOf(template, parameters, body, names);
            var q, v, r := parameters[i], args[names[i]], Intended(p, args);
            && (q.location == Query ==> q.name in r.query && r.query[q.name] == v.text)
            && (q.location == Header ==> q.name in r.headers && r.headers[q.name] == v.text)
            && (q.location == Path && k < |template| && template[k] == Hole(q.name) ==>
                  var filled := Substitute(template, Placed(p, args, Path, Escaped));
                  r.url == Render(filled) && k < |filled| && filled[k].Literal? && PathUnescape(filled[k].text) == Some(v.text))
  {
    GeneratedPlansAreValid(template, parameters, body, names);
    var p := PlanOf(template, parameters, body, names);
    assert p.arguments[i] == Argument(parameters[i].name, parameters[i].name, parameters[i].location);
    NamedValueArrives(p, args, i);
    if parameters[i].location == Path && k < |template| && template[k] == Hole(parameters[i].name) {
      PathValueArrives(p, args, i, k);
    }
  }

  lemma BodyPartIs(parameters: seq<Parameter>, body: BodyShape, j: nat)
    requires |parameters| + j < |Generated(parameters, body)|
    ensures Generated(parameters, body)[|parameters| + j].location == Body
    ensures body.Fields? ==> j < |body.names| && Generated(parameters, body)[|parameters| + j].erpName == body.names[j]
  {
    assert Generated(parameters, body)[|parameters| + j] == BodyArguments(body)[j];
  }

  /** A value for a property of the document's body arrives as the field of that name, and the
      value for a body without properties as the body. */
  lemma BodyPartArrives(template: Template, parameters: seq<Parameter>, body: BodyShape, names: seq<string>, args: map<string, Value>, j: nat)
    requires Documented(template, parameters, body, names) && |parameters| + j < |names| && names[|parameters| + j] in args
    ensures PlanOf(template, parameters, body, names).Valid()
    ensures var v, sent := args[names[|parameters| + j]], Intended(PlanOf(template, parameters, body, names), args).body;
            && (body.Fields? ==> j < |body.names| && sent.Object? && body.names[j] in sent.fields && sent.fields[body.names[j]] == v)
            && (body.WholeBody? ==> sent == Whole(v))
  {
    GeneratedPlansAreValid(template, parameters, body, names);
    BodyPartIs(parameters, body, j);
    BodyValueArrives(PlanOf(template, parameters, body, names), args, |parameters| + j);
  }
}
