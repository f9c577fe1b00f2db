/** Where the arguments of a call go, for every manifest over a flat endpoint, in every order. */
module CallRouting {
  import opened Common
  import opened QualifiedNames
  import opened ArgumentNames
  import opened PathTemplate
  import opened ErpCall

  /** The part of the request an argument ends up in. */
  datatype Target = InUrl | InQuery | InHeaders | InFields | AsWhole | Nowhere

  /** An argument for a placeholder of the endpoint; without a location, any placeholder. */
  predicate WantsHole(e: Execution, t: Template, name: string) {
    (LocationOf(e, name).Path? || LocationOf(e, name).Blank?) && HasHole(t, Mapped(e, name))
  }

  /** The first argument for a placeholder fills it. */
  predicate Fills(e: Execution, t: Template, order: seq<string>, i: nat)
    requires i < |order|
  {
    && WantsHole(e, t, order[i])
    && forall j :: 0 <= j < i && WantsHole(e, t, order[j]) ==> Mapped(e, order[j]) != Mapped(e, order[i])
  }

  function TargetOf(e: Execution, t: Template, order: seq<string>, i: nat): Target
    requires i < |order|
  {
    if Fills(e, t, order, i) then InUrl
    else
      match LocationOf(e, order[i])
      case Blank => if e.isGet then InQuery else InFields
      case Query => InQuery
      case Header => InHeaders
      case Body => if e.bodyArgument == order[i] then AsWhole else InFields
      case _ => Nowhere
  }

  /** The values for one target under their ERP names; of several the last one stands. */
  function Collected<T>(e: Execution, t: Template, order: seq<string>, args: map<string, Value>, target: Target, form: Value -> T): map<string, T>
    requires forall i :: 0 <= i < |order| ==> order[i] in args
  {
    if order == [] then map[]
    else
      var n := |order| - 1;
      var before := Collected(e, t, order[..n], args, target, form);
      if TargetOf(e, t, order, n) == target then before[Mapped(e, order[n]) := form(args[order[n]])] else before
  }

  ghost predicate HasTarget(e: Execution, t: Template, order: seq<string>, target: Target, n: string) {
    exists i :: 0 <= i < |order| && TargetOf(e, t, order, i) == target && Mapped(e, order[i]) == n
  }

  lemma TargetInPrefix(e: Execution, t: Template, order: seq<string>, n: nat, i: nat)
    requires i < n <= |order|
    ensures TargetOf(e, t, order[..n], i) == TargetOf(e, t, order, i)
  {
    assert forall j :: 0 <= j <= i ==> order[..n][j] == order[j];
  }

  /** What has been collected: exactly the names with an argument for the target ... */
  lemma {:induction false} CollectedHas<T>(e: Execution, t: Template, order: seq<string>, args: map<string, Value>, target: Target, form: Value -> T, n: string)
    requires forall i :: 0 <= i < |order| ==> order[i] in args
    ensures n in Collected(e, t, order, args, target, form) <==> HasTarget(e, t, order, target, n)
  {
    if order != [] {
      var last := |order| - 1;
      CollectedHas(e, t, order[..last], args, target, form, n);
      HasTargetInPrefix(e, t, order, target, n);
    }
  }

  lemma HasTargetInPrefix(e: Execution, t: Template, order: seq<string>, target: Target, n: string)
    requires order != []
    ensures var last := |order| - 1;
            HasTarget(e, t, order, target, n) <==>
            HasTarget(e, t, order[..last], target, n) || (TargetOf(e, t, order, last) == target && Mapped(e, order[last]) == n)
  {
    var last := |order| - 1;
    var front := order[..last];
    forall i | 0 <= i < last ensures TargetOf(e, t, front, i) == TargetOf(e, t, order, i) && front[i] == order[i] {
      TargetInPrefix(e, t, order, last, i);
    }
    if HasTarget(e, t, front, target, n) {
      var i :| 0 <= i < |front| && TargetOf(e, t, front, i) == target && Mapped(e, front[i]) == n;
      assert TargetOf(e, t, order, i) == target && Mapped(e, order[i]) == n;
    }
    if HasTarget(e, t, order, target, n) {
      var i :| 0 <= i < |order| && TargetOf(e, t, order, i) == target && Mapped(e, order[i]) == n;
      assert i < last ==> TargetOf(e, t, front, i) == target && Mapped(e, front[i]) == n;
    }
  }

  /** ... each with the value of the last one. */
  lemma {:induction false} CollectedLast<T>(e: Execution, t: Template, order: seq<string>, args: map<string, Value>, target: Target, form: Value -> T, i: nat)
    requires forall j :: 0 <= j < |order| ==> order[j] in args
    requires i < |order| && TargetOf(e, t, order, i) == target
    requires forall j :: i < j < |order| && TargetOf(e, t, order, j) == target ==> Mapped(e, order[j]) != Mapped(e, order[i])
    ensures Mapped(e, order[i]) in Collected(e, t, order, args, target, form)
    ensures Collected(e, t, order, args, target, form)[Mapped(e, order[i])] == form(args[order[i]])
  {
    var last := |order| - 1;
    if i < last {
      var front := order[..last];
      forall j | 0 <= j < last ensures TargetOf(e, t, front, j) == TargetOf(e, t, order, j) && front[j] == order[j] {
        TargetInPrefix(e, t, order, last, j);
      }
      CollectedLast(e, t, front, args, target, form, i);
    }
  }

  function WholeOf(e: Execution, t: Template, order: seq<string>, args: map<string, Value>): Option<Value>
    requires forall i :: 0 <= i < |order| ==> order[i] in args
  {
    if order == [] then None
    else
      var n := |order| - 1;
      if TargetOf(e, t, order, n) == AsWhole then Some(args[order[n]]) else WholeOf(e, t, order[..n], args)
  }

  function DraftFor(e: Execution, t: Template, order: seq<string>, args: map<string, Value>): Draft
    requires forall i :: 0 <= i < |order| ==> order[i] in args
  {
    Draft(Render(Substitute(t, Collected(e, t, order, args, InUrl, Escaped))),
          Collected(e, t, order, args, InQuery, Printed), Collected(e, t, order, args, InHeaders, Printed),
          Collected(e, t, order, args, InFields, Itself), WholeOf(e, t, order, args))
  }

  /** The names looked for in the endpoint hold no braces. */
  predicate PlainNames(e: Execution, order: seq<string>) {
    forall i :: 0 <= i < |order| && (LocationOf(e, order[i]).Path? || LocationOf(e, order[i]).Blank?) ==> Plain(Mapped(e, order[i]))
  }

  // ----- One argument --------------------------------------------------------------------

  lemma FillsUnlessFilled(e: Execution, t: Template, order: seq<string>, args: map<string, Value>, i: nat)
    requires i < |order| && forall j :: 0 <= j < |order| ==> order[j] in args
    ensures Fills(e, t, order, i) <==>
            WantsHole(e, t, order[i]) && Mapped(e, order[i]) !in Collected(e, t, order[..i], args, InUrl, Escaped)
  {
    var n := Mapped(e, order[i]);
    CollectedHas(e, t, order[..i], args, InUrl, Escaped, n);
    if HasTarget(e, t, order[..i], InUrl, n) {
      var j :| 0 <= j < i && TargetOf(e, t, order[..i], j) == InUrl && Mapped(e, order[..i][j]) == n;
      assert Fills(e, t, order[..i], j) && order[..i][j] == order[j];
    }
    if WantsHole(e, t, order[i]) && !Fills(e, t, order, i) {
      var j := FirstWish(e, t, order, i);
      TargetInPrefix(e, t, order, i, j);
      assert order[..i][j] == order[j] && TargetOf(e, t, order[..i], j) == InUrl;
    }
  }

  lemma FirstWish(e: Execution, t: Template, order: seq<string>, i: nat) returns (j: nat)
    requires i < |order| && WantsHole(e, t, order[i]) && !Fills(e, t, order, i)
    ensures j < i && Fills(e, t, order, j) && Mapped(e, order[j]) == Mapped(e, order[i])
    decreases i
  {
    j :| 0 <= j < i && WantsHole(e, t, order[j]) && Mapped(e, order[j]) == Mapped(e, order[i]);
    if !Fills(e, t, order, j) {
      j := FirstWish(e, t, order, j);
    }
  }

  lemma FilledTemplate(e: Execution, t: Template, order: seq<string>, args: map<string, Value>, n: string)
    requires Flat(t) && forall j :: 0 <= j < |order| ==> order[j] in args
    ensures var filled := Substitute(t, Collected(e, t, order, args, InUrl, Escaped));
            Flat(filled) && (HasHole(filled, n) <==> HasHole(t, n) && n !in Collected(e, t, order, args, InUrl, Escaped))
  {
    var values := Collected(e, t, order, args, InUrl, Escaped);
    var filled := Substitute(t, values);
    SubstituteAt(t, values);
    forall m | m in values ensures Plain(values[m]) {
      ValueIsEscaped(e, t, order, args, m);
    }
    if HasHole(t, n) && n !in values {
      var i :| 0 <= i < |t| && t[i] == Hole(n);
      assert filled[i] == Hole(n);
    }
  }

  lemma {:induction false} ValueIsEscaped(e: Execution, t: Template, order: seq<string>, args: map<string, Value>, n: string)
    requires forall j :: 0 <= j < |order| ==> order[j] in args
    requires n in Collected(e, t, order, args, InUrl, Escaped)
    ensures Plain(Collected(e, t, order, args, InUrl, Escaped)[n])
  {
    var last := |order| - 1;
    PathEscapeIsPlain(args[order[last]].text);
    if n in Collected(e, t, order[..last], args, InUrl, Escaped) {
      ValueIsEscaped(e, t, order[..last], args, n);
    }
  }

  /** Filling one more hole in the text. */
  lemma FillOneMore(t: Template, values: map<string, string>, n: string, value: string)
    requires Flat(Substitute(t, values)) && Plain(n) && Plain(value) && n !in values
    ensures ReplaceAll(Render(Substitute(t, values)), Placeholder(n), value) == Render(Substitute(t, values[n := value]))
  {
    ReplaceFillsHole(Substitute(t, values), n, value);
    SubstituteOneMore(t, values, n, value);
  }

  lemma NextIsRouted(e: Execution, t: Template, order: seq<string>, args: map<string, Value>, n: nat)
    requires Flat(t) && n < |order| && forall j :: 0 <= j < |order| ==> order[j] in args
    requires PlainNames(e, order)
    ensures Step(e, DraftFor(e, t, order[..n], args), order[n], args[order[n]]) ==
            if TargetOf(e, t, order, n) != Nowhere then Ok(DraftFor(e, t, order[..n + 1], args)) else Err(ErrorOf(e, order[n]))
  {
    var l := LocationOf(e, order[n]);
    OneMoreName(e, t, order, n);
    if l.Path? || l.Blank? {
      HoleIsFoundIfFilled(e, t, order, args, n);
    }
    if Fills(e, t, order, n) {
      UrlIsFilled(e, t, order, args, n);
    }
  }

  lemma OneMoreName(e: Execution, t: Template, order: seq<string>, n: nat)
    requires n < |order|
    ensures order[..n + 1][..n] == order[..n] && order[..n + 1][n] == order[n]
    ensures TargetOf(e, t, order[..n + 1], n) == TargetOf(e, t, order, n)
  {
    assert order[..n + 1][..n] == order[..n];
    TargetInPrefix(e, t, order, n + 1, n);
  }

  lemma HoleIsFoundIfFilled(e: Execution, t: Template, order: seq<string>, args: map<string, Value>, n: nat)
    requires Flat(t) && n < |order| && forall j :: 0 <= j < |order| ==> order[j] in args
    requires LocationOf(e, order[n]).Path? || LocationOf(e, order[n]).Blank?
    requires Plain(Mapped(e, order[n]))
    ensures Contains(DraftFor(e, t, order[..n], args).url, Placeholder(Mapped(e, order[n]))) <==> Fills(e, t, order, n)
  {
    var mapped := Mapped(e, order[n]);
    FillsUnlessFilled(e, t, order, args, n);
    FilledTemplate(e, t, order[..n], args, mapped);
    ContainsFindsHole(Substitute(t, Collected(e, t, order[..n], args, InUrl, Escaped)), mapped);
  }

  lemma UrlIsFilled(e: Execution, t: Template, order: seq<string>, args: map<string, Value>, n: nat)
    requires Flat(t) && n < |order| && forall j :: 0 <= j < |order| ==> order[j] in args
    requires Plain(Mapped(e, order[n])) && Fills(e, t, order, n)
    ensures ReplaceAll(DraftFor(e, t, order[..n], args).url, Placeholder(Mapped(e, order[n])), Escaped(args[order[n]])) ==
            DraftFor(e, t, order[..n + 1], args).url
  {
    var mapped, v := Mapped(e, order[n]), args[order[n]];
    OneMoreName(e, t, order, n);
    FillsUnlessFilled(e, t, order, args, n);
    FilledTemplate(e, t, order[..n], args, mapped);
    PathEscapeIsPlain(v.text);
    FillOneMore(t, Collected(e, t, order[..n], args, InUrl, Escaped), mapped, Escaped(v));
  }

  function ErrorOf(e: Execution, name: string): CallError {
    if LocationOf(e, name).Path? then NoPlaceholder(Mapped(e, name)) else UnsupportedLocation(name)
  }

  // ----- All arguments -------------------------------------------------------------------

  lemma {:induction false} FirstAreRouted(e: Execution, t: Template, order: seq<string>, args: map<string, Value>, n: nat)
    requires Flat(t) && n <= |order| && forall j :: 0 <= j < |order| ==> order[j] in args
    requires PlainNames(e, order) && forall j :: 0 <= j < n ==> TargetOf(e, t, order, j) != Nowhere
    ensures Steps(e, Draft(Render(t), map[], map[], map[], None), order[..n], args) == Ok(DraftFor(e, t, order[..n], args))
  {
    if n == 0 {
      SubstituteAt(t, map[]);
      assert Substitute(t, map[]) == t;
    } else {
      FirstAreRouted(e, t, order, args, n - 1);
      NextIsRouted(e, t, order, args, n - 1);
      assert order[..n] == order[..n - 1] + [order[n - 1]];
      StepsAppend(e, Draft(Render(t), map[], map[], map[], None), order[..n - 1], order[n - 1], args);
    }
  }

  /** What the body is made of. */
  function BodyFrom(whole: Option<Value>, fields: map<string, Value>): RequestBody {
    match whole
    case Some(v) => Whole(v)
    case None => if |fields| == 0 then Empty else Object(fields)
  }

  /** For every manifest over a flat endpoint and every order of the arguments: the first
      argument for a placeholder fills it; the others go where their location says, or, without
      one, to the query of a GET and the body of any other method; of two values for one place
      the last stands.  Only a path argument without a placeholder left, or an unknown location,
      is an error, and the first one is reported. */
  lemma CallIsRouted(e: Execution, t: Template, order: seq<string>, args: map<string, Value>)
    requires e.endpoint == Render(t) && e.endpoint != "" && Flat(t)
    requires PlainNames(e, order) && forall j :: 0 <= j < |order| ==> order[j] in args
    ensures (forall j :: 0 <= j < |order| ==> TargetOf(e, t, order, j) != Nowhere) ==>
              PreparedCall(e, order, args) ==
              Ok(Request(Render(Substitute(t, Collected(e, t, order, args, InUrl, Escaped))),
                         Collected(e, t, order, args, InQuery, Printed), Collected(e, t, order, args, InHeaders, Printed),
                         BodyFrom(WholeOf(e, t, order, args), Collected(e, t, order, args, InFields, Itself))))
    ensures forall i :: 0 <= i < |order| && TargetOf(e, t, order, i) == Nowhere
                        && (forall j :: 0 <= j < i ==> TargetOf(e, t, order, j) != Nowhere) ==>
              PreparedCall(e, order, args) == Err(ErrorOf(e, order[i]))
  {
    if forall j :: 0 <= j < |order| ==> TargetOf(e, t, order, j) != Nowhere {
      FirstAreRouted(e, t, order, args, |order|);
      assert order[..|order|] == order;
    }
    forall i | 0 <= i < |order| && TargetOf(e, t, order, i) == Nowhere && (forall j :: 0 <= j < i ==> TargetOf(e, t, order, j) != Nowhere)
      ensures PreparedCall(e, order, args) == Err(ErrorOf(e, order[i]))
    {
      StopsAt(e, t, order, args, i);
    }
  }

  lemma PrefixFails(e: Execution, t: Template, order: seq<string>, args: map<string, Value>, i: nat)
    requires Flat(t) && PlainNames(e, order) && forall j :: 0 <= j < |order| ==> order[j] in args
    requires i < |order| && TargetOf(e, t, order, i) == Nowhere && forall j :: 0 <= j < i ==> TargetOf(e, t, order, j) != Nowhere
    ensures Steps(e, Draft(Render(t), map[], map[], map[], None), order[..i + 1], args) == Err(ErrorOf(e, order[i]))
  {
    FirstAreRouted(e, t, order, args, i);
    NextIsRouted(e, t, order, args, i);
    assert order[..i + 1] == order[..i] + [order[i]];
    StepsAppend(e, Draft(Render(t), map[], map[], map[], None), order[..i], order[i], args);
  }

  lemma FailedPrefixFailsCall(e: Execution, order: seq<string>, args: map<string, Value>, n: nat, error: CallError)
    requires e.endpoint != "" && n <= |order| && forall j :: 0 <= j < |order| ==> order[j] in args
    requires Steps(e, Draft(e.endpoint, map[], map[], map[], None), order[..n], args) == Err(error)
    ensures PreparedCall(e, order, args) == Err(error)
  {
    StepsStopAtError(e, Draft(e.endpoint, map[], map[], map[], None), order, n, args);
  }

  lemma StopsAt(e: Execution, t: Template, order: seq<string>, args: map<string, Value>, i: nat)
    requires e.endpoint == Render(t) && e.endpoint != "" && Flat(t)
    requires PlainNames(e, order) && forall j :: 0 <= j < |order| ==> order[j] in args
    requires i < |order| && TargetOf(e, t, order, i) == Nowhere && forall j :: 0 <= j < i ==> TargetOf(e, t, order, j) != Nowhere
    ensures PreparedCall(e, order, args) == Err(ErrorOf(e, order[i]))
  {
    PrefixFails(e, t, order, args, i);
    FailedPrefixFailsCall(e, order, args, i + 1, ErrorOf(e, order[i]));
  }

  // ----- Manifests without locations -----------------------------------------------------

  /** A manifest written before locations were. */
  predicate Unlocated(e: Execution) {
    forall n :: n in e.locations ==> e.locations[n].Blank?
  }

  /** The values that fill no placeholder, under their ERP names, the last one of each. */
  ghost predicate Leftover<T>(rest: map<string, T>, e: Execution, t: Template, order: seq<string>, args: map<string, Value>, form: Value -> T)
    requires forall i :: 0 <= i < |order| ==> order[i] in args
  {
    && (forall n :: n in rest <==> exists i :: 0 <= i < |order| && !Fills(e, t, order, i) && Mapped(e, order[i]) == n)
    && forall i :: 0 <= i < |order| && !Fills(e, t, order, i)
                   && (forall j :: i < j < |order| && !Fills(e, t, order, j) ==> Mapped(e, order[j]) != Mapped(e, order[i])) ==>
                     rest[Mapped(e, order[i])] == form(args[order[i]])
  }

  /** Every placeholder with an argument is filled with the first one's value, all others stand. */
  ghost predicate FilledIn(values: map<string, string>, e: Execution, t: Template, order: seq<string>, args: map<string, Value>)
    requires forall i :: 0 <= i < |order| ==> order[i] in args
  {
    && (forall n :: n in values <==> HasHole(t, n) && exists i :: 0 <= i < |order| && Mapped(e, order[i]) == n)
    && forall i :: 0 <= i < |order| && HasHole(t, Mapped(e, order[i]))
                   && (forall j :: 0 <= j < i ==> Mapped(e, order[j]) != Mapped(e, order[i])) ==>
                     values[Mapped(e, order[i])] == PathEscape(args[order[i]].text)
  }

  lemma FirstFills(e: Execution, t: Template, order: seq<string>, i: nat)
    requires Unlocated(e) && i < |order|
    ensures WantsHole(e, t, order[i]) <==> HasHole(t, Mapped(e, order[i]))
    ensures HasHole(t, Mapped(e, order[i])) && !Fills(e, t, order, i) ==>
              exists j :: 0 <= j < i && Fills(e, t, order, j) && Mapped(e, order[j]) == Mapped(e, order[i])
  {
    if HasHole(t, Mapped(e, order[i])) && !Fills(e, t, order, i) {
      var j := FirstWish(e, t, order, i);
    }
  }

  lemma FilledNames(e: Execution, t: Template, order: seq<string>, args: map<string, Value>, n: string)
    requires Unlocated(e) && forall j :: 0 <= j < |order| ==> order[j] in args
    ensures n in Collected(e, t, order, args, InUrl, Escaped) <==>
            HasHole(t, n) && exists i :: 0 <= i < |order| && Mapped(e, order[i]) == n
  {
    CollectedHas(e, t, order, args, InUrl, Escaped, n);
    if i :| 0 <= i < |order| && Mapped(e, order[i]) == n && HasHole(t, n) {
      FirstFills(e, t, order, i);
      var j :| 0 <= j < |order| && Fills(e, t, order, j) && Mapped(e, order[j]) == n;
      assert TargetOf(e, t, order, j) == InUrl;
    }
  }

  lemma UrlValuesFillIn(e: Execution, t: Template, order: seq<string>, args: map<string, Value>)
    requires Unlocated(e) && forall j :: 0 <= j < |order| ==> order[j] in args
    ensures FilledIn(Collected(e, t, order, args, InUrl, Escaped), e, t, order, args)
  {
    var values := Collected(e, t, order, args, InUrl, Escaped);
    forall n ensures n in values <==> HasHole(t, n) && exists i :: 0 <= i < |order| && Mapped(e, order[i]) == n {
      FilledNames(e, t, order, args, n);
    }
    forall i | 0 <= i < |order| && HasHole(t, Mapped(e, order[i])) && (forall j :: 0 <= j < i ==> Mapped(e, order[j]) != Mapped(e, order[i]))
      ensures values[Mapped(e, order[i])] == PathEscape(args[order[i]].text)
    {
      FirstValueStands(e, t, order, args, i);
    }
  }

  lemma FirstValueStands(e: Execution, t: Template, order: seq<string>, args: map<string, Value>, i: nat)
    requires Unlocated(e) && forall j :: 0 <= j < |order| ==> order[j] in args
    requires i < |order| && HasHole(t, Mapped(e, order[i])) && forall j :: 0 <= j < i ==> Mapped(e, order[j]) != Mapped(e, order[i])
    ensures Mapped(e, order[i]) in Collected(e, t, order, args, InUrl, Escaped)
    ensures Collected(e, t, order, args, InUrl, Escaped)[Mapped(e, order[i])] == PathEscape(args[order[i]].text)
  {
    assert WantsHole(e, t, order[i]) && Fills(e, t, order, i);
    CollectedLast(e, t, order, args, InUrl, Escaped, i);
  }

  lemma CollectedIsLeftover<T>(e: Execution, t: Template, order: seq<string>, args: map<string, Value>, form: Value -> T)
    requires Unlocated(e) && forall j :: 0 <= j < |order| ==> order[j] in args
    ensures Leftover(Collected(e, t, order, args, if e.isGet then InQuery else InFields, form), e, t, order, args, form)
  {
    var target := if e.isGet then InQuery else InFields;
    var rest := Collected(e, t, order, args, target, form);
    assert forall i :: 0 <= i < |order| ==> (TargetOf(e, t, order, i) == target <==> !Fills(e, t, order, i));
    forall n ensures n in rest <==> exists i :: 0 <= i < |order| && !Fills(e, t, order, i) && Mapped(e, order[i]) == n {
      CollectedHas(e, t, order, args, target, form, n);
    }
    forall i | 0 <= i < |order| && !Fills(e, t, order, i)
               && (forall j :: i < j < |order| && !Fills(e, t, order, j) ==> Mapped(e, order[j]) != Mapped(e, order[i]))
      ensures rest[Mapped(e, order[i])] == form(args[order[i]])
    {
      CollectedLast(e, t, order, args, target, form, i);
    }
  }

  lemma {:induction false} NothingCollected<T>(e: Execution, t: Template, order: seq<string>, args: map<string, Value>, target: Target, form: Value -> T)
    requires forall j :: 0 <= j < |order| ==> order[j] in args && TargetOf(e, t, order, j) != target
    ensures Collected(e, t, order, args, target, form) == map[]
    ensures target == AsWhole ==> WholeOf(e, t, order, args) == None
  {
    if order != [] {
      var n := |order| - 1;
      forall j | 0 <= j < n ensures TargetOf(e, t, order[..n], j) != target && order[..n][j] in args {
        TargetInPrefix(e, t, order, n, j);
      }
      NothingCollected(e, t, order[..n], args, target, form);
    }
  }

  /** The older rule.  A call of a manifest without locations is never refused: every
      placeholder an argument has the name of is filled, and the other arguments are exactly the
      query of a GET, whose body is empty, or exactly the body of any other method. */
  lemma UnlocatedCall(e: Execution, t: Template, order: seq<string>, args: map<string, Value>)
      returns (values: map<string, string>, query: map<string, string>, fields: map<string, Value>)
    requires Unlocated(e) && e.endpoint == Render(t) && e.endpoint != "" && Flat(t)
    requires forall j :: 0 <= j < |order| ==> order[j] in args && Plain(Mapped(e, order[j]))
    ensures FilledIn(values, e, t, order, args) && Leftover(query, e, t, order, args, Printed) && Leftover(fields, e, t, order, args, Itself)
    ensures PreparedCall(e, order, args) ==
            Ok(Request(Render(Substitute(t, values)), if e.isGet then query else map[], map[],
                       if e.isGet || (forall i :: 0 <= i < |order| ==> Fills(e, t, order, i)) then Empty else Object(fields)))
  {
    values := Collected(e, t, order, args, InUrl, Escaped);
    var target := if e.isGet then InQuery else InFields;
    query, fields := Collected(e, t, order, args, target, Printed), Collected(e, t, order, args, target, Itself);
    UrlValuesFillIn(e, t, order, args);
    CollectedIsLeftover(e, t, order, args, Printed);
    CollectedIsLeftover(e, t, order, args, Itself);
    CallIsRouted(e, t, order, args);
    OthersAreEmpty(e, t, order, args);
    FieldsAreEmptyExactly(e, t, order, fields, args);
  }

  lemma OthersAreEmpty(e: Execution, t: Template, order: seq<string>, args: map<string, Value>)
    requires Unlocated(e) && forall j :: 0 <= j < |order| ==> order[j] in args
    ensures forall j :: 0 <= j < |order| ==> TargetOf(e, t, order, j) != Nowhere
    ensures Collected(e, t, order, args, InHeaders, Printed) == map[] && WholeOf(e, t, order, args) == None
    ensures if e.isGet then Collected(e, t, order, args, InFields, Itself) == map[]
            else Collected(e, t, order, args, InQuery, Printed) == map[]
  {
    NothingCollected(e, t, order, args, InHeaders, Printed);
    NothingCollected(e, t, order, args, AsWhole, Itself);
    if e.isGet {
      NothingCollected(e, t, order, args, InFields, Itself);
    } else {
      NothingCollected(e, t, order, args, InQuery, Printed);
    }
  }

  lemma FieldsAreEmptyExactly(e: Execution, t: Template, order: seq<string>, fields: map<string, Value>, args: map<string, Value>)
    requires forall j :: 0 <= j < |order| ==> order[j] in args
    requires Leftover(fields, e, t, order, args, Itself)
    ensures |fields| == 0 <==> forall i :: 0 <= i < |order| ==> Fills(e, t, order, i)
  {
    if i :| 0 <= i < |order| && !Fills(e, t, order, i) {
      assert Mapped(e, order[i]) in fields;
    } else {
      assert fields.Keys == {};
    }
  }

  /** Two placeholders side by side are taken for one by a name with braces in it. */
  lemma BracedNameFillsTwoHoles()
    ensures var t, name := [Hole("a"), Hole("b")], "a}{b";
            Flat(t) && !HasHole(t, name) && Contains(Render(t), Placeholder(name))
  {
    var t := [Hole("a"), Hole("b")];
    assert t[1..] == [Hole("b")] && [Hole("b")][1..] == [];
    assert Render(t) == "{a}" + ("{b}" + "") == Placeholder("a}{b");
    assert Render(t)[..6] == Placeholder("a}{b");
  }

  /** A manifest without an endpoint is an error of its own, before any argument is looked at. */
  lemma EmptyEndpointIsRefused(e: Execution, order: seq<string>, args: map<string, Value>)
    requires forall j :: 0 <= j < |order| ==> order[j] in args
    ensures PreparedCall(e, order, args) == Err(NoEndpoint) <==> e.endpoint == ""
  {
    ArgumentsHaveOtherErrors(e, Draft(e.endpoint, map[], map[], map[], None), order, args);
  }

  lemma {:induction false} ArgumentsHaveOtherErrors(e: Execution, d: Draft, order: seq<string>, args: map<string, Value>)
    requires forall j :: 0 <= j < |order| ==> order[j] in args
    ensures Steps(e, d, order, args).Err? ==> Steps(e, d, order, args).error != NoEndpoint
    decreases |order|
  {
    if order != [] && Step(e, d, order[0], args[order[0]]).Ok? {
      ArgumentsHaveOtherErrors(e, Step(e, d, order[0], args[order[0]]).value, order[1..], args);
    }
  }
}
