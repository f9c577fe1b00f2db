/** Naming the arguments of a generated tool: parameters of one operation may share a name
    across locations, but the tool's argument names must be distinct. */
module ArgumentNames {
  import opened Common

  /** Where an argument goes.  Location texts are compared trimmed and in lower case; a blank
      one counts as absent. */
  datatype Location = Path | Query | Header | Body | Blank | Other(text: string)

  function LocationText(l: Location): string {
    match l
    case Path => "path"
    case Query => "query"
    case Header => "header"
    case Body => "body"
    case Blank => ""
    case Other(text) => text
  }

  datatype Argument = Argument(sourceName: string, erpName: string, location: Location)

  // ----- Decimal numerals ----------------------------------------------------------------

  function Decimal(n: nat): (s: string)
    ensures s != ""
  {
    if n < 10 then ['0' + n as char] else Decimal(n / 10) + ['0' + (n % 10) as char]
  }

  function Numeral(s: string): int {
    if s == "" then 0 else Numeral(s[..|s| - 1]) * 10 + (s[|s| - 1] as int - '0' as int)
  }

  lemma {:induction false} DecimalRoundTrip(n: nat)
    ensures Numeral(Decimal(n)) == n
  {
    var s := Decimal(n);
    if n < 10 {
      assert s[..0] == "";
    } else {
      DecimalRoundTrip(n / 10);
      assert s[..|s| - 1] == Decimal(n / 10);
    }
  }

  lemma DecimalIsInjective(m: nat, n: nat)
    ensures Decimal(m) == Decimal(n) <==> m == n
  {
    DecimalRoundTrip(m);
    DecimalRoundTrip(n);
  }

  // ----- The search for a free name ------------------------------------------------------

  /** The k-th candidate: the base itself, then the base with suffixes 2, 3, ... */
  function Candidate(base: string, k: nat): string {
    if k < 2 then base else base + "__" + Decimal(k)
  }

  lemma CandidatesAreDistinct(base: string, j: nat, k: nat)
    requires 1 <= j < k
    ensures Candidate(base, j) != Candidate(base, k)
  {
    if j == 1 {
      assert |Candidate(base, k)| > |base|;
    } else {
      DecimalIsInjective(j, k);
      assert Candidate(base, j)[|base| + 2..] == Decimal(j);
      assert Candidate(base, k)[|base| + 2..] == Decimal(k);
    }
  }

  /** The first candidate nobody uses.  Candidates are pairwise distinct, so no more than the
      used names can be passed over. */
  method FirstFree(base: string, used: set<string>) returns (name: string, ghost k: nat)
    ensures 1 <= k && name == Candidate(base, k) && name !in used
    ensures forall j :: 1 <= j < k ==> Candidate(base, j) in used
  {
    name, k := base, 1;
    var suffix := 2;
    ghost var untried := used;
    while name in used
      invariant suffix == k + 1 && name == Candidate(base, k)
      invariant forall j :: k <= j && Candidate(base, j) in used ==> Candidate(base, j) in untried
      invariant forall j :: 1 <= j < k ==> Candidate(base, j) in used
      decreases untried
    {
      forall j | k < j ensures Candidate(base, j) != name {
        CandidatesAreDistinct(base, k, j);
      }
      untried := untried - {name};
      name := base + "__" + Decimal(suffix);
      k := suffix;
      suffix := suffix + 1;
    }
  }

  // ----- Which names are kept ------------------------------------------------------------

  predicate SamePlace(a: Argument, b: Argument) {
    a.location == b.location && a.erpName == b.erpName
  }

  ghost predicate Collision(arguments: seq<Argument>) {
    exists i, j :: 0 <= i < j < |arguments| && SamePlace(arguments[i], arguments[j])
  }

  /** No other argument comes from a source of that name. */
  predicate UniqueSource(arguments: seq<Argument>, i: nat)
    requires i < |arguments|
  {
    forall j :: 0 <= j < |arguments| && arguments[j].sourceName == arguments[i].sourceName ==> j == i
  }

  function Base(arguments: seq<Argument>, i: nat): string
    requires i < |arguments|
  {
    if UniqueSource(arguments, i) then arguments[i].sourceName
    else arguments[i].sourceName + "__" + LocationText(arguments[i].location)
  }

  /** Names kept as they are come first; the rest is settled by name and place. */
  predicate Before(arguments: seq<Argument>, i: nat, j: nat)
    requires i < |arguments| && j < |arguments|
  {
    var a, b := arguments[i], arguments[j];
    var x, y := Base(arguments, i), Base(arguments, j);
    if UniqueSource(arguments, i) != UniqueSource(arguments, j) then UniqueSource(arguments, i)
    else if x != y then TextBefore(x, y)
    else if a.location != b.location then TextBefore(LocationText(a.location), LocationText(b.location))
    else TextBefore(a.erpName, b.erpName)
  }

  /** `order` lists indices without repetition, the unique ones before the others. */
  ghost predicate NamingOrder(arguments: seq<Argument>, order: seq<nat>) {
    && (forall k :: 0 <= k < |order| ==> order[k] < |arguments|)
    && (forall k, l :: 0 <= k < l < |order| ==> order[k] != order[l])
    && (forall k, l :: 0 <= k < l < |order| && UniqueSource(arguments, order[l]) ==> UniqueSource(arguments, order[k]))
  }

  function InsertedAt(order: seq<nat>, i: nat, p: nat): seq<nat>
    requires p <= |order|
  {
    order[..p] + [i] + order[p..]
  }

  lemma InsertionKeepsOrder(arguments: seq<Argument>, order: seq<nat>, i: nat, p: nat)
    requires i < |arguments| && NamingOrder(arguments, order) && p <= |order|
    requires forall k :: 0 <= k < |order| ==> order[k] != i
    requires forall k :: p <= k < |order| && UniqueSource(arguments, order[k]) ==> UniqueSource(arguments, i)
    requires p > 0 && UniqueSource(arguments, i) ==> UniqueSource(arguments, order[p - 1])
    ensures NamingOrder(arguments, InsertedAt(order, i, p))
  {
    var r := InsertedAt(order, i, p);
    forall k, l | 0 <= k < l < |r|
      ensures r[k] < |arguments| && r[l] < |arguments| && r[k] != r[l]
      ensures UniqueSource(arguments, r[l]) ==> UniqueSource(arguments, r[k])
    {
      var k', l' := if k < p then k else k - 1, if l < p then l else l - 1;
      assert k != p ==> r[k] == order[k'];
      assert l != p ==> r[l] == order[l'];
    }
  }

  lemma InsertionKeepsElements(order: seq<nat>, i: nat, p: nat)
    requires p <= |order|
    ensures multiset(InsertedAt(order, i, p)) == multiset(order) + multiset{i}
  {
    assert order[..p] + order[p..] == order;
  }

  /** Places index `i` behind everything it does not precede. */
  method InsertByName(arguments: seq<Argument>, order: seq<nat>, i: nat) returns (r: seq<nat>)
    requires i < |arguments| && NamingOrder(arguments, order)
    requires forall k :: 0 <= k < |order| ==> order[k] < i
    ensures NamingOrder(arguments, r)
    ensures multiset(r) == multiset(order) + multiset{i}
  {
    var p := |order|;
    while p > 0 && Before(arguments, i, order[p - 1])
      invariant 0 <= p <= |order|
      invariant forall k :: p <= k < |order| && UniqueSource(arguments, order[k]) ==> UniqueSource(arguments, i)
    {
      p := p - 1;
    }
    InsertionKeepsOrder(arguments, order, i, p);
    InsertionKeepsElements(order, i, p);
    r := InsertedAt(order, i, p);
  }

  /** The order in which names are settled. */
  method OrderForNaming(arguments: seq<Argument>) returns (order: seq<nat>)
    ensures NamingOrder(arguments, order)
    ensures forall i: nat :: i in order <==> i < |arguments|
  {
    order := [];
    for i := 0 to |arguments|
      invariant NamingOrder(arguments, order)
      invariant forall k: nat :: k in order <==> k < i
    {
      assert forall k :: 0 <= k < |order| ==> order[k] in order;
      var longer := InsertByName(arguments, order, i);
      forall k: nat ensures k in longer <==> k in order || k == i {
        assert k in longer <==> k in multiset(longer);
        assert k in order <==> k in multiset(order);
      }
      order := longer;
    }
  }

  // ----- Finalizing ----------------------------------------------------------------------

  /** The first candidate for a base that is not taken by another name. */
  ghost predicate FirstCandidate(base: string, name: string, taken: seq<string>) {
    exists k :: CandidateAfter(base, name, taken, k)
  }

  ghost predicate CandidateAfter(base: string, name: string, taken: seq<string>, k: nat) {
    && 1 <= k && name == Candidate(base, k)
    && forall j :: 1 <= j < k ==> Candidate(base, j) in taken
  }

  /** Names are distinct, a name no other source shares is kept, and any other is the first
      candidate left by the rest. */
  ghost predicate WellNamed(arguments: seq<Argument>, names: seq<string>) {
    && |names| == |arguments|
    && (forall i, j :: 0 <= i < j < |names| ==> names[i] != names[j])
    && (forall i :: 0 <= i < |names| && UniqueSource(arguments, i) ==> names[i] == arguments[i].sourceName)
    && (forall i :: 0 <= i < |names| ==> FirstCandidate(Base(arguments, i), names[i], names))
  }

  method FindCollision(arguments: seq<Argument>) returns (collision: bool)
    ensures collision <==> Collision(arguments)
  {
    var seen: set<(Location, string)> := {};
    for i := 0 to |arguments|
      invariant forall j :: 0 <= j < i ==> (arguments[j].location, arguments[j].erpName) in seen
      invariant forall p :: p in seen ==> exists j :: 0 <= j < i && p == (arguments[j].location, arguments[j].erpName)
      invariant forall j, l :: 0 <= j < l < i ==> !SamePlace(arguments[j], arguments[l])
    {
      var place := (arguments[i].location, arguments[i].erpName);
      if place in seen {
        return true;
      }
      seen := seen + {place};
    }
    collision := false;
  }

  /** The first names of the order are settled as `taken`, the others still bear their base. */
  ghost predicate InProgress(arguments: seq<Argument>, order: seq<nat>, names: seq<string>, taken: seq<string>)
    requires NamingOrder(arguments, order)
  {
    && |names| == |arguments| && |taken| <= |order|
    && (forall k :: |taken| <= k < |order| ==> names[order[k]] == Base(arguments, order[k]))
    && NamedSoFar(arguments, order, names, taken)
    && FirstSoFar(arguments, order, taken)
  }

  ghost predicate NamedSoFar(arguments: seq<Argument>, order: seq<nat>, names: seq<string>, taken: seq<string>)
    requires NamingOrder(arguments, order) && |names| == |arguments| && |taken| <= |order|
  {
    && (forall k :: 0 <= k < |taken| ==> names[order[k]] == taken[k])
    && (forall k, l :: 0 <= k < l < |taken| ==> taken[k] != taken[l])
    && (forall k :: 0 <= k < |taken| && UniqueSource(arguments, order[k]) ==> taken[k] == arguments[order[k]].sourceName)
  }

  ghost predicate FirstSoFar(arguments: seq<Argument>, order: seq<nat>, taken: seq<string>)
    requires NamingOrder(arguments, order) && |taken| <= |order|
  {
    forall k :: 0 <= k < |taken| ==> FirstCandidate(Base(arguments, order[k]), taken[k], taken)
  }

  /** A name no other source shares is still free when its turn comes. */
  lemma UniqueNameIsFree(arguments: seq<Argument>, order: seq<nat>, names: seq<string>, taken: seq<string>)
    requires NamingOrder(arguments, order) && |names| == |arguments| && |taken| < |order|
    requires NamedSoFar(arguments, order, names, taken) && UniqueSource(arguments, order[|taken|])
    ensures arguments[order[|taken|]].sourceName !in taken
  {
    forall k | 0 <= k < |taken| ensures taken[k] != arguments[order[|taken|]].sourceName {
      assert UniqueSource(arguments, order[k]) && order[k] != order[|taken|];
    }
  }

  lemma NameStep(arguments: seq<Argument>, order: seq<nat>, names: seq<string>, taken: seq<string>, name: string, c: nat)
    requires NamingOrder(arguments, order) && |names| == |arguments| && |taken| < |order|
    requires NamedSoFar(arguments, order, names, taken) && name !in taken
    requires CandidateAfter(Base(arguments, order[|taken|]), name, taken, c)
    ensures NamedSoFar(arguments, order, names[order[|taken|] := name], taken + [name])
  {
    var n := |taken|;
    if UniqueSource(arguments, order[n]) {
      UniqueNameIsFree(arguments, order, names, taken);
      assert c > 1 ==> Candidate(Base(arguments, order[n]), 1) in taken;
    }
    forall k | 0 <= k < n ensures order[k] != order[n] && taken[k] != name {
      assert taken[k] in taken;
    }
  }

  ghost predicate AllIn(taken: seq<string>, more: seq<string>) {
    forall t :: t in taken ==> t in more
  }

  lemma MoreNamesKeepFirst(base: string, name: string, taken: seq<string>, more: seq<string>)
    requires FirstCandidate(base, name, taken) && AllIn(taken, more)
    ensures FirstCandidate(base, name, more)
  {
    var k :| CandidateAfter(base, name, taken, k);
    assert CandidateAfter(base, name, more, k);
  }

  lemma FirstStep(arguments: seq<Argument>, order: seq<nat>, taken: seq<string>, name: string, c: nat)
    requires NamingOrder(arguments, order) && |taken| < |order| && FirstSoFar(arguments, order, taken)
    requires CandidateAfter(Base(arguments, order[|taken|]), name, taken, c)
    ensures FirstSoFar(arguments, order, taken + [name])
  {
    var longer := taken + [name];
    forall k | 0 <= k < |longer| ensures FirstCandidate(Base(arguments, order[k]), longer[k], longer) {
      if k < |taken| {
        MoreNamesKeepFirst(Base(arguments, order[k]), taken[k], taken, longer);
      } else {
        assert FirstCandidate(Base(arguments, order[k]), name, taken);
        MoreNamesKeepFirst(Base(arguments, order[k]), name, taken, longer);
      }
    }
  }

  lemma StepInProgress(arguments: seq<Argument>, order: seq<nat>, names: seq<string>, taken: seq<string>, name: string, c: nat)
    requires NamingOrder(arguments, order) && |taken| < |order|
    requires InProgress(arguments, order, names, taken) && name !in taken
    requires CandidateAfter(Base(arguments, order[|taken|]), name, taken, c)
    ensures InProgress(arguments, order, names[order[|taken|] := name], taken + [name])
  {
    NameStep(arguments, order, names, taken, name, c);
    FirstStep(arguments, order, taken, name, c);
  }

  lemma TakenAreNames(arguments: seq<Argument>, order: seq<nat>, names: seq<string>, taken: seq<string>)
    requires NamingOrder(arguments, order) && |taken| == |order| && InProgress(arguments, order, names, taken)
    ensures AllIn(taken, names)
  {
    forall t | t in taken ensures t in names {
      var k :| 0 <= k < |taken| && taken[k] == t;
      assert names[order[k]] == t;
    }
  }

  lemma NamesDiffer(arguments: seq<Argument>, order: seq<nat>, names: seq<string>, taken: seq<string>, i: nat, j: nat)
    requires NamingOrder(arguments, order) && |taken| == |order| && InProgress(arguments, order, names, taken)
    requires i in order && j in order && i != j
    ensures names[i] != names[j]
  {
    var k :| 0 <= k < |order| && order[k] == i;
    var l :| 0 <= l < |order| && order[l] == j;
    assert taken[k] != taken[l];
  }

  lemma NameFits(arguments: seq<Argument>, order: seq<nat>, names: seq<string>, taken: seq<string>, i: nat)
    requires NamingOrder(arguments, order) && |taken| == |order| && InProgress(arguments, order, names, taken)
    requires i in order && AllIn(taken, names)
    ensures UniqueSource(arguments, i) ==> names[i] == arguments[i].sourceName
    ensures FirstCandidate(Base(arguments, i), names[i], names)
  {
    var k :| 0 <= k < |order| && order[k] == i;
    MoreNamesKeepFirst(Base(arguments, i), taken[k], taken, names);
  }

  lemma AllNamed(arguments: seq<Argument>, order: seq<nat>, names: seq<string>, taken: seq<string>)
    requires NamingOrder(arguments, order) && |taken| == |order| && InProgress(arguments, order, names, taken)
    requires forall i: nat :: i in order <==> i < |arguments|
    ensures WellNamed(arguments, names)
  {
    TakenAreNames(arguments, order, names, taken);
    forall i: nat, j: nat | i < j < |names| ensures names[i] != names[j] {
      NamesDiffer(arguments, order, names, taken, i, j);
    }
    forall i: nat | i < |names|
      ensures UniqueSource(arguments, i) ==> names[i] == arguments[i].sourceName
      ensures FirstCandidate(Base(arguments, i), names[i], names)
    {
      NameFits(arguments, order, names, taken, i);
    }
  }

  method AssignNames(arguments: seq<Argument>, order: seq<nat>) returns (names: seq<string>)
    requires NamingOrder(arguments, order)
    requires forall i: nat :: i in order <==> i < |arguments|
    ensures WellNamed(arguments, names)
  {
    names := seq(|arguments|, i requires 0 <= i < |arguments| => Base(arguments, i));
    var used: set<string> := {};
    ghost var taken: seq<string> := [];
    for n := 0 to |order|
      invariant |taken| == n && InProgress(arguments, order, names, taken)
      invariant forall u :: u in used <==> u in taken
    {
      var name, c := FirstFree(names[order[n]], used);
      assert CandidateAfter(Base(arguments, order[n]), name, taken, c);
      StepInProgress(arguments, order, names, taken, name, c);
      names := names[order[n] := name];
      used := used + {name};
      taken := taken + [name];
    }
    AllNamed(arguments, order, names, taken);
  }

  /** Distinct argument names, or none if two arguments aim at one ERP parameter. */
  method FinalizeArguments(arguments: seq<Argument>) returns (names: Option<seq<string>>)
    ensures names.None? <==> Collision(arguments)
    ensures names.Some? ==> WellNamed(arguments, names.value)
  {
    var collision := FindCollision(arguments);
    if collision {
      return None;
    }
    var order := OrderForNaming(arguments);
    var settled := AssignNames(arguments, order);
    names := Some(settled);
  }

  // ----- The arguments of one operation --------------------------------------------------

  datatype Parameter = Parameter(name: string, location: Location, detail: string)

  predicate OverriddenBy(all: seq<Parameter>, i: nat, j: nat)
    requires i < |all| && j < |all|
  {
    i < j && all[j].location == all[i].location && all[j].name == all[i].name
  }

  ghost predicate Kept(all: seq<Parameter>, i: nat)
    requires i < |all|
  {
    forall j :: 0 <= j < |all| ==> !OverriddenBy(all, i, j)
  }

  /** No later parameter of the list is meant for the same place. */
  predicate LastOfPlace(parameters: seq<Parameter>, i: nat)
    requires i < |parameters|
  {
    forall j :: i < j < |parameters| ==> parameters[j].location != parameters[i].location || parameters[j].name != parameters[i].name
  }

  lemma OperationParameterIsKept(pathParameters: seq<Parameter>, operationParameters: seq<Parameter>, i: nat)
    requires i < |operationParameters| && LastOfPlace(operationParameters, i)
    ensures var all, k := pathParameters + operationParameters, |pathParameters| + i;
            all[k] == operationParameters[i] && Kept(all, k)
  {
    var all, k := pathParameters + operationParameters, |pathParameters| + i;
    forall j | k < j < |all| ensures !OverriddenBy(all, k, j) {
      assert all[j] == operationParameters[j - |pathParameters|];
    }
  }

  /** Parameters of the operation override those of its path at the same place; each place
      is left with its last parameter. */
  method MergeParameters(pathParameters: seq<Parameter>, operationParameters: seq<Parameter>)
    returns (merged: seq<Parameter>)
    ensures forall i, j :: 0 <= i < j < |merged| ==>
              merged[i].location != merged[j].location || merged[i].name != merged[j].name
    ensures var all := pathParameters + operationParameters;
            forall p :: p in merged <==> exists i :: 0 <= i < |all| && all[i] == p && Kept(all, i)
    ensures forall i :: 0 <= i < |operationParameters| && LastOfPlace(operationParameters, i) ==> operationParameters[i] in merged
  {
    var all := pathParameters + operationParameters;
    var last: map<(Location, string), nat> := map[];
    for n := 0 to |all|
      invariant forall i :: 0 <= i < n ==> (all[i].location, all[i].name) in last
      invariant forall key :: key in last ==>
                  && last[key] < n && key == (all[last[key]].location, all[last[key]].name)
                  && forall j :: last[key] < j < n ==> (all[j].location, all[j].name) != key
    {
      last := last[(all[n].location, all[n].name) := n];
    }
    merged := [];
    var rest := last.Keys;
    while rest != {}
      invariant rest <= last.Keys
      invariant forall key :: key in last && key !in rest ==> all[last[key]] in merged
      invariant forall i :: 0 <= i < |merged| ==>
                  var key := (merged[i].location, merged[i].name);
                  key in last && key !in rest && merged[i] == all[last[key]]
      invariant forall i, j :: 0 <= i < j < |merged| ==>
                  merged[i].location != merged[j].location || merged[i].name != merged[j].name
    {
      var key :| key in rest;
      merged := merged + [all[last[key]]];
      rest := rest - {key};
    }
    forall i | 0 <= i < |all| && Kept(all, i) ensures last[(all[i].location, all[i].name)] == i {
      assert !OverriddenBy(all, i, last[(all[i].location, all[i].name)]);
    }
    forall i | 0 <= i < |operationParameters| && LastOfPlace(operationParameters, i) ensures operationParameters[i] in merged {
      OperationParameterIsKept(pathParameters, operationParameters, i);
    }
  }

  /** A JSON object body contributes its properties, any other body one argument. */
  datatype BodyShape = NoBody | Fields(names: seq<string>) | WholeBody

  function BodyArguments(body: BodyShape): seq<Argument> {
    match body
    case NoBody => []
    case Fields(names) => seq(|names|, i requires 0 <= i < |names| => Argument(names[i], names[i], Body))
    case WholeBody => [Argument("body", "body", Body)]
  }

  function Generated(parameters: seq<Parameter>, body: BodyShape): seq<Argument> {
    seq(|parameters|, i requires 0 <= i < |parameters| =>
      Argument(parameters[i].name, parameters[i].name, parameters[i].location))
    + BodyArguments(body)
  }

  /** What the generator collects: one parameter per place, outside the body, and the body's
      distinct properties. */
  ghost predicate Collectable(parameters: seq<Parameter>, body: BodyShape) {
    && (forall i :: 0 <= i < |parameters| ==> parameters[i].location in {Path, Query, Header})
    && (forall i, j :: 0 <= i < j < |parameters| ==>
          parameters[i].location != parameters[j].location || parameters[i].name != parameters[j].name)
    && (body.Fields? ==> forall i, j :: 0 <= i < j < |body.names| ==> body.names[i] != body.names[j])
  }

  ghost predicate Ordinary(arguments: seq<Argument>) {
    && !Collision(arguments)
    && forall i :: 0 <= i < |arguments| ==>
         arguments[i].sourceName == arguments[i].erpName && arguments[i].location in {Path, Query, Header, Body}
  }

  /** The collision error cannot strike an operation whose parameters were merged. */
  lemma GeneratedArgumentsNeverCollide(parameters: seq<Parameter>, body: BodyShape)
    requires Collectable(parameters, body)
    ensures Ordinary(Generated(parameters, body))
  {
    var all := Generated(parameters, body);
    var n := |parameters|;
    assert forall i :: n <= i < |all| ==> all[i] == BodyArguments(body)[i - n];
    forall i, j | 0 <= i < j < |all| ensures !SamePlace(all[i], all[j]) {
      if j >= n && i >= n {
        assert body.Fields? ==> body.names[i - n] != body.names[j - n];
      }
    }
  }

  /** An operation has one argument per parameter and one per body property, or one for a body
      without properties; each carries its name and place, and there are no others. */
  lemma ArgumentsAreComplete(parameters: seq<Parameter>, body: BodyShape, i: nat)
    requires i < |Generated(parameters, body)|
    ensures var a, n := Generated(parameters, body)[i], |parameters|;
            if i < n then a == Argument(parameters[i].name, parameters[i].name, parameters[i].location)
            else if body.Fields? then i - n < |body.names| && a == Argument(body.names[i - n], body.names[i - n], Body)
            else body.WholeBody? && i == n && a == Argument("body", "body", Body)
    ensures |Generated(parameters, body)| == |parameters| + if body.Fields? then |body.names| else if body.WholeBody? then 1 else 0
  {
    assert i >= |parameters| ==> Generated(parameters, body)[i] == BodyArguments(body)[i - |parameters|];
  }

  // ----- Names are determined by the arguments alone -------------------------------------

  lemma {:induction false} DecimalHasDigits(n: nat)
    ensures forall i :: 0 <= i < |Decimal(n)| ==> '0' <= Decimal(n)[i] <= '9'
  {
    if n >= 10 {
      DecimalHasDigits(n / 10);
    }
  }

  /** Numbered names agree only in both parts: a numeral holds no underscore. */
  lemma SuffixesAreReadable(a: string, j: nat, b: string, k: nat)
    requires a + "__" + Decimal(j) == b + "__" + Decimal(k)
    ensures a == b && j == k
  {
    DecimalHasDigits(j);
    DecimalHasDigits(k);
    var s := a + "__" + Decimal(j);
    var x, y := |Decimal(j)|, |Decimal(k)|;
    assert s[|s| - x - 1] == '_' && s[|s| - y - 1] == '_';
    assert forall i :: |s| - x <= i < |s| ==> s[i] == Decimal(j)[i - (|s| - x)];
    assert forall i :: |s| - y <= i < |s| ==> s[i] == Decimal(k)[i - (|s| - y)];
    assert x == y;
    assert s[|s| - x..] == Decimal(j) && s[|s| - y..] == Decimal(k);
    assert s[..|s| - x - 2] == a && s[..|s| - y - 2] == b;
    DecimalIsInjective(j, k);
  }

  lemma LocatedNamesAreReadable(a: string, l: Location, b: string, m: Location)
    requires l in {Path, Query, Header, Body} && m in {Path, Query, Header, Body}
    requires a + "__" + LocationText(l) == b + "__" + LocationText(m)
    ensures a == b && l == m
  {
    var s := a + "__" + LocationText(l);
    var x, y := LocationText(l), LocationText(m);
    assert s[|s| - 1] == x[|x| - 1] == y[|y| - 1];
    assert s[|s| - 2] == x[|x| - 2] == y[|y| - 2];
    assert s[..|s| - |x| - 2] == a && s[..|s| - |y| - 2] == b;
  }

  /** Numbered candidates end in a digit, located names do not. */
  lemma EndingTells(a: string, l: Location, k: nat)
    requires l in {Path, Query, Header, Body}
    ensures var c := Candidate(a + "__" + LocationText(l), k);
            '0' <= c[|c| - 1] <= '9' <==> k >= 2
  {
    var base, t := a + "__" + LocationText(l), LocationText(l);
    assert base[|base| - 1] == t[|t| - 1];
    if k >= 2 {
      DecimalHasDigits(k);
      var c, d := Candidate(base, k), Decimal(k);
      assert c[|c| - 1] == d[|d| - 1];
    }
  }

  lemma SharedCandidatesAgree(arguments: seq<Argument>, i: nat, j: nat, m: nat, l: nat)
    requires Ordinary(arguments) && i < |arguments| && m < |arguments| && 1 <= j && 1 <= l
    requires !UniqueSource(arguments, i) && !UniqueSource(arguments, m)
    requires Candidate(Base(arguments, i), j) == Candidate(Base(arguments, m), l)
    ensures i == m && j == l
  {
    var a, b := arguments[i], arguments[m];
    var x, y := Base(arguments, i), Base(arguments, m);
    EndingTells(a.sourceName, a.location, j);
    EndingTells(b.sourceName, b.location, l);
    if j >= 2 {
      SuffixesAreReadable(x, j, y, l);
    }
    assert x == y;
    LocatedNamesAreReadable(a.sourceName, a.location, b.sourceName, b.location);
    assert SamePlace(a, b);
  }

  /** A candidate was passed over only in favour of a kept source name. */
  lemma SkippedCandidateIsKeptName(arguments: seq<Argument>, names: seq<string>, i: nat, j: nat, k: nat)
    requires Ordinary(arguments) && WellNamed(arguments, names)
    requires i < |arguments| && !UniqueSource(arguments, i) && 1 <= j < k
    requires CandidateAfter(Base(arguments, i), names[i], names, k)
    ensures exists m: nat :: m < |arguments| && UniqueSource(arguments, m) && names[m] == Candidate(Base(arguments, i), j)
  {
    var m :| 0 <= m < |names| && names[m] == Candidate(Base(arguments, i), j);
    if !UniqueSource(arguments, m) {
      assert FirstCandidate(Base(arguments, m), names[m], names);
      var l :| CandidateAfter(Base(arguments, m), names[m], names, l);
      SharedCandidatesAgree(arguments, i, j, m, l);
      CandidatesAreDistinct(Base(arguments, i), j, k);
      assert false;
    }
  }

  /** The name, or the name with a number behind it if it is taken itself. */
  ghost predicate Numbered(base: string, name: string, names: seq<string>) {
    name == base || (base in names && exists k :: k >= 2 && name == base + "__" + Decimal(k))
  }

  lemma CandidateIsNumbered(base: string, name: string, names: seq<string>)
    requires FirstCandidate(base, name, names)
    ensures Numbered(base, name, names)
  {
    var k :| CandidateAfter(base, name, names, k);
    assert k > 1 ==> Candidate(base, 1) in names;
  }

  function PlaceSuffix(l: Location): string
    requires l in {Path, Query, Header, Body}
  {
    match l case Path => "__path" case Query => "__query" case Header => "__header" case Body => "__body"
  }

  /** An argument keeps its source's name unless another argument comes from a source of that
      name; then its place is added, and a number from 2 up if that is taken as well. */
  lemma SettledNameIs(arguments: seq<Argument>, names: seq<string>, i: nat)
    requires Ordinary(arguments) && WellNamed(arguments, names) && i < |arguments|
    ensures var a := arguments[i];
            if forall j :: 0 <= j < |arguments| && j != i ==> arguments[j].sourceName != a.sourceName then names[i] == a.sourceName
            else Numbered(a.sourceName + PlaceSuffix(a.location), names[i], names)
  {
    var a := arguments[i];
    if forall j :: 0 <= j < |arguments| && j != i ==> arguments[j].sourceName != a.sourceName {
      assert UniqueSource(arguments, i);
    } else {
      LocatedNameIs(a.sourceName, a.location);
      assert Base(arguments, i) == a.sourceName + PlaceSuffix(a.location);
      CandidateIsNumbered(Base(arguments, i), names[i], names);
    }
  }

  lemma LocatedNameIs(name: string, l: Location)
    requires l in {Path, Query, Header, Body}
    ensures name + "__" + LocationText(l) == name + PlaceSuffix(l)
  {
    assert name + "__" + LocationText(l) == name + ("__" + LocationText(l));
  }

  lemma NotNamedEarlier(arguments: seq<Argument>, a: seq<string>, b: seq<string>, i: nat, k: nat, l: nat)
    requires Ordinary(arguments) && WellNamed(arguments, a) && WellNamed(arguments, b)
    requires i < |arguments| && !UniqueSource(arguments, i)
    requires CandidateAfter(Base(arguments, i), a[i], a, k) && CandidateAfter(Base(arguments, i), b[i], b, l)
    ensures l <= k
  {
    if k < l {
      SkippedCandidateIsKeptName(arguments, b, i, k, l);
      assert false;
    }
  }

  lemma SameName(arguments: seq<Argument>, a: seq<string>, b: seq<string>, i: nat)
    requires Ordinary(arguments) && WellNamed(arguments, a) && WellNamed(arguments, b)
    requires i < |arguments| && !UniqueSource(arguments, i)
    ensures a[i] == b[i]
  {
    assert FirstCandidate(Base(arguments, i), a[i], a) && FirstCandidate(Base(arguments, i), b[i], b);
    var k :| CandidateAfter(Base(arguments, i), a[i], a, k);
    var l :| CandidateAfter(Base(arguments, i), b[i], b, l);
    NotNamedEarlier(arguments, a, b, i, k, l);
    NotNamedEarlier(arguments, b, a, i, l, k);
  }

  /** However ties were ordered, an operation's arguments get the same names. */
  lemma NamesAreDetermined(arguments: seq<Argument>, a: seq<string>, b: seq<string>)
    requires Ordinary(arguments) && WellNamed(arguments, a) && WellNamed(arguments, b)
    ensures a == b
  {
    forall i: nat | i < |arguments| ensures a[i] == b[i] {
      if !UniqueSource(arguments, i) {
        SameName(arguments, a, b, i);
      }
    }
  }
}
