/** From the arguments of a tool call to the ERP request: every value goes back to the ERP
    parameter its argument was generated from. */
module ErpCall {
  import opened Common
  import opened QualifiedNames
  import opened ArgumentNames
  import opened PathTemplate

  type ByteString = s: string | IsBytes(s)

  /** A JSON value, and the text it is printed as. */
  datatype Value = Value(json: string, text: ByteString)

  /** The executable part of a tool resource. */
  datatype Execution = Execution(
    endpoint: string, isGet: bool,
    mapping: map<string, string>, locations: map<string, Location>, bodyArgument: string)

  datatype RequestBody = Empty | Object(fields: map<string, Value>) | Whole(value: Value)

  datatype Request = Request(url: string, query: map<string, string>, headers: map<string, string>, body: RequestBody)

  datatype CallError = NoEndpoint | NoPlaceholder(name: string) | UnsupportedLocation(name: string)

  datatype Result<T> = Ok(value: T) | Err(error: CallError)

  /** The request while its arguments are routed. */
  datatype Draft = Draft(
    url: string, query: map<string, string>, headers: map<string, string>,
    fields: map<string, Value>, whole: Option<Value>)

  function Mapped(e: Execution, name: string): string {
    if name in e.mapping && e.mapping[name] != "" then e.mapping[name] else name
  }

  function LocationOf(e: Execution, name: string): Location {
    if name in e.locations then e.locations[name] else Blank
  }

  function Escaped(v: Value): string {
    PathEscape(v.text)
  }

  function Printed(v: Value): string {
    v.text
  }

  function Itself(v: Value): Value {
    v
  }

  /** Routes one argument.  Without a location the older rule holds: a placeholder of that
      name, else the query of a GET or the body of any other method. */
  function Step(e: Execution, d: Draft, name: string, v: Value): Result<Draft> {
    var mapped := Mapped(e, name);
    var filled := d.(url := ReplaceAll(d.url, Placeholder(mapped), Escaped(v)));
    match LocationOf(e, name)
    case Blank =>
      if Contains(d.url, Placeholder(mapped)) then Ok(filled)
      else if e.isGet then Ok(d.(query := d.query[mapped := v.text]))
      else Ok(d.(fields := d.fields[mapped := v]))
    case Path => if Contains(d.url, Placeholder(mapped)) then Ok(filled) else Err(NoPlaceholder(mapped))
    case Query => Ok(d.(query := d.query[mapped := v.text]))
    case Header => Ok(d.(headers := d.headers[mapped := v.text]))
    case Body =>
      if e.bodyArgument == name then Ok(d.(whole := Some(v))) else Ok(d.(fields := d.fields[mapped := v]))
    case Other(_) => Err(UnsupportedLocation(name))
  }

  function Steps(e: Execution, d: Draft, order: seq<string>, args: map<string, Value>): Result<Draft>
    requires forall i :: 0 <= i < |order| ==> order[i] in args
    decreases |order|
  {
    if order == [] then Ok(d)
    else
      var next := Step(e, d, order[0], args[order[0]]);
      if next.Err? then next else Steps(e, next.value, order[1..], args)
  }

  function BodyOf(d: Draft): RequestBody {
    if d.whole.Some? then Whole(d.whole.value) else if d.fields != map[] then Object(d.fields) else Empty
  }

  /** The request for the arguments taken in the given order. */
  function PreparedCall(e: Execution, order: seq<string>, args: map<string, Value>): Result<Request>
    requires forall i :: 0 <= i < |order| ==> order[i] in args
  {
    if e.endpoint == "" then Err(NoEndpoint)
    else
      var d := Steps(e, Draft(e.endpoint, map[], map[], map[], None), order, args);
      if d.Err? then Err(d.error) else Ok(Request(d.value.url, d.value.query, d.value.headers, BodyOf(d.value)))
  }

  ghost predicate Lists(order: seq<string>, args: map<string, Value>) {
    && (forall i :: 0 <= i < |order| ==> order[i] in args)
    && (forall i, j :: 0 <= i < j < |order| ==> order[i] != order[j])
    && (forall k :: k in args ==> k in order)
  }

  /** Appends a name to an enumeration, keeping a running result in step. */
  lemma {:induction false} StepsAppend(e: Execution, d: Draft, order: seq<string>, name: string, args: map<string, Value>)
    requires forall i :: 0 <= i < |order| ==> order[i] in args
    requires name in args
    ensures Steps(e, d, order + [name], args) ==
            if Steps(e, d, order, args).Err? then Steps(e, d, order, args)
            else Step(e, Steps(e, d, order, args).value, name, args[name])
    decreases |order|
  {
    var longer := order + [name];
    if order == [] {
      assert longer[1..] == [];
    } else {
      var next := Step(e, d, order[0], args[order[0]]);
      assert longer[1..] == order[1..] + [name];
      if next.Ok? {
        StepsAppend(e, next.value, order[1..], name, args);
      }
    }
  }

  lemma StepsOneMore(e: Execution, d: Draft, order: seq<string>, n: nat, args: map<string, Value>, at: Draft)
    requires forall i :: 0 <= i < |order| ==> order[i] in args
    requires n < |order| && Steps(e, d, order[..n], args) == Ok(at)
    ensures Steps(e, d, order[..n + 1], args) == Step(e, at, order[n], args[order[n]])
  {
    assert order[..n + 1] == order[..n] + [order[n]];
    StepsAppend(e, d, order[..n], order[n], args);
  }

  lemma {:induction false} StepsStopAtError(e: Execution, d: Draft, order: seq<string>, n: nat, args: map<string, Value>)
    requires forall i :: 0 <= i < |order| ==> order[i] in args
    requires n <= |order| && Steps(e, d, order[..n], args).Err?
    ensures Steps(e, d, order, args) == Steps(e, d, order[..n], args)
    decreases |order|
  {
    if n > 0 {
      var next := Step(e, d, order[0], args[order[0]]);
      assert order[..n][1..] == order[1..][..n - 1];
      if next.Ok? {
        StepsStopAtError(e, next.value, order[1..], n - 1, args);
      }
    }
  }

  /** Collects the argument names of a call. */
  method ListNames(args: map<string, Value>) returns (order: seq<string>)
    ensures Lists(order, args)
  {
    order := [];
    var rest := args.Keys;
    while rest != {}
      invariant rest <= args.Keys
      invariant forall i :: 0 <= i < |order| ==> order[i] in args && order[i] !in rest
      invariant forall i, j :: 0 <= i < j < |order| ==> order[i] != order[j]
      invariant forall k :: k in args ==> k in rest || k in order
    {
      var k :| k in rest;
      order := order + [k];
      rest := rest - {k};
    }
  }

  method PrepareERPCall(e: Execution, args: map<string, Value>) returns (r: Result<Request>)
    ensures exists order :: Lists(order, args) && r == PreparedCall(e, order, args)
  {
    var names := ListNames(args);
    if e.endpoint == "" {
      assert PreparedCall(e, names, args) == Err(NoEndpoint);
      return Err(NoEndpoint);
    }
    ghost var start := Draft(e.endpoint, map[], map[], map[], None);
    var url := e.endpoint;
    var query: map<string, string>, headers: map<string, string>, fields: map<string, Value> := map[], map[], map[];
    var completeBody: Option<Value> := None;
    for n := 0 to |names|
      invariant Steps(e, start, names[..n], args) == Ok(Draft(url, query, headers, fields, completeBody))
    {
      var name := names[n];
      var value := args[name];
      StepsOneMore(e, start, names, n, args, Draft(url, query, headers, fields, completeBody));
      var mapped := Mapped(e, name);
      match LocationOf(e, name) {
        case Blank =>
          if Contains(url, Placeholder(mapped)) {
            url := ReplaceAll(url, Placeholder(mapped), PathEscape(value.text));
          } else if e.isGet {
            query := query[mapped := value.text];
          } else {
            fields := fields[mapped := value];
          }
        case Path =>
          if !Contains(url, Placeholder(mapped)) {
            StepsStopAtError(e, start, names, n + 1, args);
            return Err(NoPlaceholder(mapped));
          }
          url := ReplaceAll(url, Placeholder(mapped), PathEscape(value.text));
        case Query =>
          query := query[mapped := value.text];
        case Header =>
          headers := headers[mapped := value.text];
        case Body =>
          if e.bodyArgument == name {
            completeBody := Some(value);
          } else {
            fields := fields[mapped := value];
          }
        case Other(_) =>
          StepsStopAtError(e, start, names, n + 1, args);
          return Err(UnsupportedLocation(name));
      }
    }
    assert names[..|names|] == names;
    var body := if completeBody.Some? then Whole(completeBody.value) else if fields != map[] then Object(fields) else Empty;
    r := Ok(Request(url, query, headers, body));
  }
}
