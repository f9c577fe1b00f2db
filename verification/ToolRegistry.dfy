/** The runtime registry: every revision ever registered, and per name the version that
    unqualified calls are served by.  Revisions are deactivated, never dropped. */
module ToolRegistry {
  import opened Common
  import opened ToolResource

  /** What the registry asks of the version library.  A total preorder on the countable set
      of versions always has a rank in the reals. */
  datatype Semver = Semver(
    isVersion: string -> bool,
    isConstraint: string -> bool,
    satisfies: (string, string) -> bool,
    rank: string -> real)

  /** The registry's state.  A name without an entry in `serving` has no serving version. */
  datatype Catalog = Catalog(tools: map<RevisionKey, Tool>, serving: map<string, string>)

  function Pointer(c: Catalog, name: string): string {
    if name in c.serving then c.serving[name] else ""
  }

  predicate Active(c: Catalog, k: RevisionKey) {
    k in c.tools && c.tools[k].active
  }

  function WithServing(c: Catalog, name: string, version: string): Catalog {
    Catalog(map k | k in c.tools :: if k.name == name then c.tools[k].(serving := k.version == version) else c.tools[k],
            c.serving[name := version])
  }

  function AfterSetServing(c: Catalog, name: string, version: string): Catalog {
    if Active(c, Revision(name, version)) then WithServing(c, name, version) else c
  }

  function AfterAdd(c: Catalog, t: Tool, servingDefault: bool): Catalog {
    var d := c.(tools := c.tools[t.Key() := t]);
    if t.serving || (servingDefault && Pointer(c, t.name) == "") then AfterSetServing(d, t.name, t.version)
    else if !servingDefault && Pointer(c, t.name) == t.version then d.(serving := d.serving - {t.name})
    else d
  }

  function AfterRemove(c: Catalog, k: RevisionKey): Catalog {
    if k !in c.tools then c
    else Catalog(c.tools[k := c.tools[k].(active := false, serving := false)],
                 if Pointer(c, k.name) == k.version then c.serving - {k.name} else c.serving)
  }

  // ----- What the registry keeps ---------------------------------------------------------

  /** Entries are filed under the identity they carry, and have a version. */
  ghost predicate Filed(c: Catalog) {
    forall k :: k in c.tools ==> c.tools[k].Key() == k && k.version != ""
  }

  /** A serving pointer leads to an active entry. */
  ghost predicate PointersLive(c: Catalog) {
    forall n :: n in c.serving ==> Active(c, Revision(n, c.serving[n]))
  }

  /** An entry flagged as serving is the one the pointer leads to. */
  ghost predicate FlagsPointed(c: Catalog) {
    forall k :: k in c.tools && c.tools[k].serving ==> k.name in c.serving && c.serving[k.name] == k.version
  }

  /** The entry a pointer leads to is flagged as serving. */
  ghost predicate PointersFlagged(c: Catalog) {
    forall n :: n in c.serving && Revision(n, c.serving[n]) in c.tools ==> c.tools[Revision(n, c.serving[n])].serving
  }

  ghost predicate Sound(c: Catalog) {
    Filed(c) && PointersLive(c) && FlagsPointed(c)
  }

  ghost predicate Agreed(c: Catalog) {
    Sound(c) && PointersFlagged(c)
  }

  lemma SetServingKeepsSound(c: Catalog, name: string, version: string)
    requires Filed(c) && PointersLive(c)
    requires forall k :: k in c.tools && k.name != name && c.tools[k].serving ==>
               k.name in c.serving && c.serving[k.name] == k.version
    requires Active(c, Revision(name, version))
    ensures Sound(AfterSetServing(c, name, version))
    ensures (forall n :: n != name && n in c.serving && Revision(n, c.serving[n]) in c.tools ==>
               c.tools[Revision(n, c.serving[n])].serving) ==>
            PointersFlagged(AfterSetServing(c, name, version))
  {
    var d := AfterSetServing(c, name, version);
    forall n | n in d.serving ensures Active(d, Revision(n, d.serving[n])) {
      assert n != name ==> d.serving[n] == c.serving[n];
    }
    forall k | k in d.tools && d.tools[k].serving
      ensures k.name in d.serving && d.serving[k.name] == k.version
    {
      if k.name != name {
        assert d.tools[k] == c.tools[k];
      }
    }
  }

  lemma AddKeepsSound(c: Catalog, t: Tool, servingDefault: bool)
    requires Sound(c) && t.active && t.version != ""
    ensures Sound(AfterAdd(c, t, servingDefault))
  {
    var d := c.(tools := c.tools[t.Key() := t]);
    assert Filed(d) && PointersLive(d);
    if t.serving || (servingDefault && Pointer(c, t.name) == "") {
      SetServingKeepsSound(d, t.name, t.version);
    }
  }

  lemma AddServingKeepsFlags(c: Catalog, t: Tool, servingDefault: bool)
    requires Agreed(c) && t.active && t.version != ""
    requires t.serving || (servingDefault && Pointer(c, t.name) == "")
    ensures PointersFlagged(AfterAdd(c, t, servingDefault))
  {
    var d := c.(tools := c.tools[t.Key() := t]);
    forall n | n != t.name && n in d.serving && Revision(n, d.serving[n]) in d.tools
      ensures d.tools[Revision(n, d.serving[n])].serving
    {
      assert n in c.serving && Active(c, Revision(n, c.serving[n]));
    }
    SetServingKeepsSound(d, t.name, t.version);
  }

  lemma AddElsewhereKeepsFlags(c: Catalog, t: Tool, servingDefault: bool)
    requires Agreed(c) && !t.serving && !(servingDefault && Pointer(c, t.name) == "")
    requires !servingDefault || Pointer(c, t.name) != t.version
    ensures PointersFlagged(AfterAdd(c, t, servingDefault))
  {
    var e := AfterAdd(c, t, servingDefault);
    forall n | n in e.serving && Revision(n, e.serving[n]) in e.tools
      ensures e.tools[Revision(n, e.serving[n])].serving
    {
      assert n in c.serving && c.serving[n] == e.serving[n] && Active(c, Revision(n, c.serving[n]));
      assert Revision(n, c.serving[n]) != t.Key();
    }
  }

  /** Adding a revision keeps flags and pointers in step in all cases but one: the
      programmatic entry point re-adding, unflagged, the version its name is served by. */
  lemma AddKeepsAgreedExactly(c: Catalog, t: Tool, servingDefault: bool)
    requires Agreed(c) && t.active && t.version != ""
    ensures Agreed(AfterAdd(c, t, servingDefault)) <==>
            t.serving || !servingDefault || Pointer(c, t.name) != t.version
  {
    AddKeepsSound(c, t, servingDefault);
    if t.serving || (servingDefault && Pointer(c, t.name) == "") {
      AddServingKeepsFlags(c, t, servingDefault);
    } else if servingDefault && Pointer(c, t.name) == t.version {
      var e := AfterAdd(c, t, servingDefault);
      assert t.name in e.serving && Revision(t.name, e.serving[t.name]) == t.Key();
      assert !e.tools[t.Key()].serving;
    } else {
      AddElsewhereKeepsFlags(c, t, servingDefault);
    }
  }

  lemma RemoveKeepsSound(c: Catalog, k: RevisionKey)
    requires Sound(c)
    ensures Sound(AfterRemove(c, k))
    ensures PointersFlagged(c) ==> PointersFlagged(AfterRemove(c, k))
  {
    var d := AfterRemove(c, k);
    if k in c.tools {
      forall n | n in d.serving
        ensures Active(d, Revision(n, d.serving[n]))
        ensures PointersFlagged(c) ==> d.tools[Revision(n, d.serving[n])].serving
      {
        assert n in c.serving && d.serving[n] == c.serving[n] && Revision(n, d.serving[n]) != k;
      }
      forall j | j in d.tools && d.tools[j].serving
        ensures j.name in d.serving && d.serving[j.name] == j.version
      {
        assert j != k && j.name in c.serving;
      }
    }
  }

  /** Entries of other names, and what they are served by, are as they were. */
  ghost predicate SparesOthers(c: Catalog, d: Catalog, name: string) {
    && (forall k: RevisionKey :: k.name != name ==> (k in d.tools <==> k in c.tools) && (k in c.tools ==> d.tools[k] == c.tools[k]))
    && forall n :: n != name ==> (n in d.serving <==> n in c.serving) && (n in c.serving ==> d.serving[n] == c.serving[n])
  }

  /** An added revision is registered as given, and its siblings stay as they were, all up to
      the serving flag.  It serves its name if it is flagged, or if the programmatic entry point
      finds the name unserved; added unflagged by the other one, it ceases to. */
  lemma AdditionChangesOnly(c: Catalog, t: Tool, servingDefault: bool, k: RevisionKey)
    requires Sound(c) && t.active && t.version != ""
    ensures var d := AfterAdd(c, t, servingDefault);
            && SparesOthers(c, d, t.name) && d.tools.Keys == c.tools.Keys + {t.Key()}
            && d.tools[t.Key()] == t.(serving := d.tools[t.Key()].serving)
            && (k in c.tools && k != t.Key() ==> d.tools[k] == c.tools[k].(serving := d.tools[k].serving))
            && Pointer(d, t.name) == if t.serving || (servingDefault && t.name !in c.serving) then t.version
                                     else if !servingDefault && Pointer(c, t.name) == t.version then "" else Pointer(c, t.name)
  {
    assert t.name in c.serving ==> Active(c, Revision(t.name, c.serving[t.name]));
  }

  /** A removed revision stays registered, neither active nor serving; nothing else changes but
      that its name is no longer served if it was served by it. */
  lemma RemovalChangesOnly(c: Catalog, k: RevisionKey)
    ensures var d := AfterRemove(c, k);
            && SparesOthers(c, d, k.name) && d.tools.Keys == c.tools.Keys
            && (forall j :: j in c.tools ==> d.tools[j] == if j == k then c.tools[j].(active := false, serving := false) else c.tools[j])
            && (k.name in d.serving <==> k.name in c.serving && !(k in c.tools && c.serving[k.name] == k.version))
            && (k.name in d.serving ==> d.serving[k.name] == c.serving[k.name])
  {
  }

  // ----- Runs ----------------------------------------------------------------------------

  datatype Operation = Add(tool: Tool) | AddExplicit(tool: Tool) | SetServing(name: string, version: string) | Remove(key: RevisionKey)

  function Apply(c: Catalog, op: Operation): Catalog {
    match op
    case Add(t) => AfterAdd(c, t, true)
    case AddExplicit(t) => AfterAdd(c, t, false)
    case SetServing(name, version) => AfterSetServing(c, name, version)
    case Remove(k) => AfterRemove(c, k)
  }

  function Run(c: Catalog, ops: seq<Operation>): Catalog
    decreases |ops|
  {
    if ops == [] then c else Run(Apply(c, ops[0]), ops[1..])
  }

  /** The server activates a revision before adding it, and the registry refuses to add
      one whose version is no semantic version. */
  predicate Registrable(op: Operation) {
    op.Add? || op.AddExplicit? ==> op.tool.active && op.tool.version != ""
  }

  predicate AllRegistrable(ops: seq<Operation>) {
    forall i :: 0 <= i < |ops| ==> Registrable(ops[i])
  }

  lemma ApplyKeepsSound(c: Catalog, op: Operation)
    requires Sound(c) && Registrable(op)
    ensures Sound(Apply(c, op))
    ensures Agreed(c) && !op.Add? ==> Agreed(Apply(c, op))
  {
    match op
    case Add(t) => AddKeepsSound(c, t, true);
    case AddExplicit(t) =>
      AddKeepsSound(c, t, false);
      if Agreed(c) {
        AddKeepsAgreedExactly(c, t, false);
      }
    case SetServing(name, version) =>
      if Active(c, Revision(name, version)) {
        SetServingKeepsSound(c, name, version);
      }
    case Remove(k) => RemoveKeepsSound(c, k);
  }

  /** Whatever happens to a registry, a pointer leads to an active entry and a flagged entry
      is pointed to; without the programmatic entry point the pointed entry is flagged too. */
  lemma {:induction false} RunKeepsSound(c: Catalog, ops: seq<Operation>)
    requires Sound(c) && AllRegistrable(ops)
    ensures Sound(Run(c, ops))
    ensures Agreed(c) && (forall i :: 0 <= i < |ops| ==> !ops[i].Add?) ==> Agreed(Run(c, ops))
    decreases |ops|
  {
    if ops != [] {
      assert Registrable(ops[0]);
      ApplyKeepsSound(c, ops[0]);
      forall i | 0 <= i < |ops[1..]| ensures Registrable(ops[1..][i]) {
        assert ops[1..][i] == ops[i + 1];
      }
      RunKeepsSound(Apply(c, ops[0]), ops[1..]);
    }
  }

  // ----- Resolution ----------------------------------------------------------------------

  /** A revision a constraint may fall back to. */
  predicate Candidate(c: Catalog, semver: Semver, name: string, constraint: string, k: RevisionKey) {
    Active(c, k) && k.name == name && semver.satisfies(constraint, k.version)
  }

  ghost predicate Best(c: Catalog, semver: Semver, name: string, constraint: string, k: RevisionKey) {
    && Candidate(c, semver, name, constraint, k)
    && forall j :: Candidate(c, semver, name, constraint, j) ==> semver.rank(j.version) <= semver.rank(k.version)
  }

  /** What a lookup may answer; versions of equal precedence leave it a choice. */
  ghost predicate Resolves(c: Catalog, semver: Semver, name: string, constraint: string, r: Option<Tool>) {
    if constraint == "" then
      var k := Revision(name, Pointer(c, name));
      r == if Pointer(c, name) != "" && Active(c, k) then Some(c.tools[k]) else None
    else
      var k := Revision(name, constraint);
      if k in c.tools then r == if c.tools[k].active then Some(c.tools[k]) else None
      else if !semver.isConstraint(constraint) then r.None?
      else
        && (r.None? ==> forall j :: !Candidate(c, semver, name, constraint, j))
        && (r.Some? ==> r.value.Key() in c.tools && r.value == c.tools[r.value.Key()]
                        && Best(c, semver, name, constraint, r.value.Key()))
  }

  /** A lookup answers with an active revision of the name only.  Without a version it is the
      one the name is served by.  A version that is registered stands for itself or, withdrawn,
      for nothing; any other text must be a constraint, and the answer satisfies it and has the
      highest precedence of the active revisions that do. */
  lemma LookupFinds(c: Catalog, semver: Semver, name: string, constraint: string, r: Option<Tool>)
    requires Sound(c) && Resolves(c, semver, name, constraint, r)
    ensures r.Some? ==> r.value.active && r.value.name == name && r.value.Key() in c.tools && c.tools[r.value.Key()] == r.value
    ensures constraint == "" ==> (r.Some? <==> name in c.serving) && (r.Some? ==> r.value.version == c.serving[name])
    ensures constraint != "" && Revision(name, constraint) in c.tools ==>
              (r.Some? <==> c.tools[Revision(name, constraint)].active) && (r.Some? ==> r.value.version == constraint)
    ensures constraint != "" && Revision(name, constraint) !in c.tools ==>
              && (r.Some? <==> semver.isConstraint(constraint)
                               && exists k :: Active(c, k) && k.name == name && semver.satisfies(constraint, k.version))
              && (r.Some? ==> semver.satisfies(constraint, r.value.version)
                              && forall k :: Active(c, k) && k.name == name && semver.satisfies(constraint, k.version) ==>
                                   semver.rank(k.version) <= semver.rank(r.value.version))
  {
    assert name in c.serving ==> Active(c, Revision(name, c.serving[name]));
    if constraint != "" && Revision(name, constraint) !in c.tools && semver.isConstraint(constraint) {
      forall k ensures Candidate(c, semver, name, constraint, k) <==>
                       Active(c, k) && k.name == name && semver.satisfies(constraint, k.version) {
      }
      if r.Some? {
        assert Candidate(c, semver, name, constraint, r.value.Key());
      }
    }
  }

  class Registry {
    var tools: map<RevisionKey, Tool>
    var serving: map<string, string>
    const semver: Semver

    ghost function State(): Catalog
      reads this
    {
      Catalog(tools, serving)
    }

    constructor (semver: Semver)
      ensures this.semver == semver && State() == Catalog(map[], map[])
    {
      this.semver := semver;
      tools, serving := map[], map[];
    }

    /** Selects one active revision for unqualified calls. */
    method SetServing(name: string, version: string) returns (ok: bool)
      modifies this
      ensures ok == old(Active(State(), Revision(name, version)))
      ensures State() == AfterSetServing(old(State()), name, version)
    {
      var k := Revision(name, version);
      if k !in tools || !tools[k].active {
        return false;
      }
      ghost var was := tools;
      var rest := tools.Keys;
      while rest != {}
        invariant tools.Keys == was.Keys && rest <= was.Keys && serving == old(serving)
        invariant forall j :: j in was && j in rest ==> tools[j] == was[j]
        invariant forall j :: j in was && j !in rest ==>
                    tools[j] == if j.name == name then was[j].(serving := j.version == version) else was[j]
      {
        var j :| j in rest;
        if j.name == name {
          tools := tools[j := tools[j].(serving := j.version == version)];
        }
        rest := rest - {j};
      }
      serving := serving[name := version];
      ok := true;
      assert State() == WithServing(old(State()), name, version);
    }

    method AddRevision(t: Tool, servingDefault: bool) returns (ok: bool)
      modifies this
      ensures !semver.isVersion(t.version) ==> !ok && State() == old(State())
      ensures semver.isVersion(t.version) ==> State() == AfterAdd(old(State()), t, servingDefault)
      ensures semver.isVersion(t.version) && t.active ==> ok
    {
      if !semver.isVersion(t.version) {
        return false;
      }
      tools := tools[t.Key() := t];
      ok := true;
      if t.serving || (servingDefault && Pointer(Catalog(tools, serving), t.name) == "") {
        ok := SetServing(t.name, t.version);
      } else if !servingDefault && Pointer(Catalog(tools, serving), t.name) == t.version {
        serving := serving - {t.name};
      }
    }

    method Remove(name: string, version: string)
      modifies this
      ensures State() == AfterRemove(old(State()), Revision(name, version))
    {
      var k := Revision(name, version);
      if k in tools {
        tools := tools[k := tools[k].(active := false, serving := false)];
        if Pointer(Catalog(tools, serving), name) == version {
          serving := serving - {name};
        }
      }
    }

    /** The exact revision, else the best match of a constraint, else the serving revision. */
    method Resolve(name: string, constraint: string) returns (r: Option<Tool>)
      requires Filed(State())
      ensures Resolves(State(), semver, name, constraint, r)
    {
      var k := Revision(name, constraint);
      if constraint == "" {
        var chosen := Revision(name, Pointer(Catalog(tools, serving), name));
        if chosen.version == "" || chosen !in tools || !tools[chosen].active {
          return None;
        }
        return Some(tools[chosen]);
      }
      if k in tools {
        return if tools[k].active then Some(tools[k]) else None;
      }
      if !semver.isConstraint(constraint) {
        return None;
      }
      r := None;
      var rest := tools.Keys;
      while rest != {}
        invariant rest <= tools.Keys
        invariant r.Some? ==> r.value.Key() in tools && r.value == tools[r.value.Key()]
                              && Candidate(State(), semver, name, constraint, r.value.Key())
        invariant forall j :: Candidate(State(), semver, name, constraint, j) && j !in rest ==>
                    r.Some? && semver.rank(j.version) <= semver.rank(r.value.version)
      {
        var j :| j in rest;
        if tools[j].active && j.name == name && semver.satisfies(constraint, j.version) {
          if r.None? || semver.rank(j.version) > semver.rank(r.value.version) {
            r := Some(tools[j]);
          }
        }
        rest := rest - {j};
      }
    }

    /** All active revisions, each once, in any order. */
    method ListActive() returns (listed: seq<Tool>)
      requires Filed(State())
      ensures forall i :: 0 <= i < |listed| ==> Active(State(), listed[i].Key()) && listed[i] == tools[listed[i].Key()]
      ensures forall i, j :: 0 <= i < j < |listed| ==> listed[i].Key() != listed[j].Key()
      ensures forall k :: Active(State(), k) ==> tools[k] in listed
    {
      listed := [];
      var rest := tools.Keys;
      while rest != {}
        invariant rest <= tools.Keys
        invariant forall i :: 0 <= i < |listed| ==>
                    && listed[i].Key() !in rest && Active(State(), listed[i].Key())
                    && listed[i] == tools[listed[i].Key()]
        invariant forall i, j :: 0 <= i < j < |listed| ==> listed[i].Key() != listed[j].Key()
        invariant forall k :: Active(State(), k) && k !in rest ==> tools[k] in listed
      {
        var k :| k in rest;
        if tools[k].active {
          assert tools[k].Key() == k;
          listed := listed + [tools[k]];
        }
        rest := rest - {k};
      }
    }
  }
}
