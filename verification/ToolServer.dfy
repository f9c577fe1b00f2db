/** The server around the registry: registering and withdrawing revisions, publishing their
    names, and the reconciliation pass. */
module ToolServer {
  import opened Common
  import opened ToolResource
  import opened ToolRegistry
  import opened QualifiedNames
  import opened Reconciler
  import opened Listing

  class Server {
    const registry: Registry
    /** The remaining checks and the descriptor projection; they look at what a digest covers. */
    const valid: Tool -> bool
    var published: set<string>
    var lastDesiredHash: string
    var lifecycleGeneration: nat

    ghost predicate Valid()
      reads this, registry
    {
      && (forall v :: registry.semver.isVersion(v) ==> v != "" && IsBytes(v))
      && Sound(registry.State()) && Named(registry.State()) && AllAccepted(registry.State())
      && OnlyNames(registry.State(), published)
    }

    /** All live names are published. */
    ghost predicate Covering()
      requires Valid()
      reads this, registry
    {
      Covers(registry.State(), published)
    }

    constructor (semver: Semver, valid: Tool -> bool)
      requires forall v :: semver.isVersion(v) ==> v != "" && IsBytes(v)
      ensures Valid() && Covering() && fresh(registry) && registry.State() == Catalog(map[], map[]) && lastDesiredHash == ""
    {
      registry := new Registry(semver);
      this.valid := valid;
      published, lastDesiredHash, lifecycleGeneration := {}, "", 0;
    }

    predicate Accepts(t: Tool) {
      valid(Cleared(t)) && AdmissibleName(t.name) && registry.semver.isVersion(t.version)
    }

    /** What is accepted: content that passes the checks, a semantic version, and a name that is
        not empty and does not contain ".rev_". */
    lemma AcceptedExactly(t: Tool)
      ensures Accepts(t) <==> valid(Cleared(t)) && registry.semver.isVersion(t.version) && t.name != "" && !Holds(t.name, ".rev_")
    {
      AdmissibleNameIs(t.name);
    }

    ghost predicate AllAccepted(c: Catalog) {
      forall k :: k in c.tools ==> Accepts(c.tools[k])
    }

    predicate AcceptsRows(rows: seq<Tool>) {
      forall i :: 0 <= i < |rows| && rows[i].active ==> Accepts(rows[i])
    }

    lemma AddKeepsAccepted(c: Catalog, t: Tool, servingDefault: bool)
      requires AllAccepted(c) && Accepts(t)
      ensures AllAccepted(AfterAdd(c, t, servingDefault))
    {
    }

    lemma RemoveKeepsAccepted(c: Catalog, k: RevisionKey)
      requires AllAccepted(c)
      ensures AllAccepted(AfterRemove(c, k))
    {
    }

    // ----- Publishing --------------------------------------------------------------------

    /** Publishes the exact names of one name's active revisions. */
    method PublishRevisions(name: string)
      requires Sound(registry.State()) && Named(registry.State())
      modifies this`published
      ensures forall s :: s in published <==> s in old(published) || LiveExactName(registry.State(), name, s)
    {
      ghost var c := registry.State();
      var listed := registry.ListActive();
      for i := 0 to |listed|
        invariant PublishedUpTo(c, name, listed, i, old(published), published)
      {
        PublishedOneMore(c, name, listed, i, old(published), published);
        if listed[i].name == name {
          published := published + {QualifiedName(listed[i].Key())};
        }
      }
      PublishedAll(c, name, listed, old(published), published);
    }

    /** Republishes one name's exact names and its alias, or unpublishes the name. */
    method RefreshTools(name: string)
      requires Sound(registry.State()) && Named(registry.State())
      modifies this`published
      ensures Refreshed(registry.State(), name, old(published), published)
    {
      PublishRevisions(name);
      var alias := registry.Resolve(name, "");
      if alias.None? {
        published := published - {name};
      } else {
        published := published + {name};
      }
    }

    // ----- Single revisions --------------------------------------------------------------

    method RegisterTool(t: Tool, servingDefault: bool) returns (ok: bool)
      requires Valid()
      modifies this`published, registry
      ensures Valid() && (old(Covering()) ==> Covering())
      ensures ok == Accepts(t)
      ensures registry.State() == if ok then AfterAdd(old(registry.State()), t.(active := true), servingDefault)
                                  else old(registry.State())
    {
      if !valid(Cleared(t)) || !AdmissibleName(t.name) || t.version == "" {
        assert t.version == "" ==> !registry.semver.isVersion(t.version);
        return false;
      }
      ghost var c, before := registry.State(), published;
      var activated := t.(active := true);
      assert Cleared(activated) == Cleared(t);
      ok := registry.AddRevision(activated, servingDefault);
      if ok {
        ghost var d := registry.State();
        AddKeepsSound(c, activated, servingDefault);
        AddKeepsAccepted(c, activated, servingDefault);
        AddDiffers(c, activated, servingDefault);
        RefreshTools(t.name);
        RefreshAddsNothingElse(c, d, t.name, before, published);
        AdmissibleNamesAreSafe(d, t.name);
        if Covers(c, before) {
          RefreshRestoresCoverExactly(c, d, t.name, before, published);
        }
      }
    }

    /** Withdraws one revision from the registry and the listing, whatever it is called.  If
        no tool has that name, but an active revision has it as its exact name, that revision
        goes off the listing. */
    method DeregisterTool(name: string, version: string)
      requires Valid()
      modifies this`published, registry
      ensures Valid()
      ensures registry.State() == AfterRemove(old(registry.State()), Revision(name, version))
      ensures Refreshed(registry.State(), name, old(published), published)
      ensures old(Covering()) ==> (Covering() <==> !NamesLiveRevision(registry.State(), name))
    {
      ghost var c, before := registry.State(), published;
      registry.Remove(name, version);
      ghost var d := registry.State();
      RemoveKeepsSound(c, Revision(name, version));
      RemoveKeepsAccepted(c, Revision(name, version));
      RemoveDiffers(c, Revision(name, version));
      RefreshTools(name);
      RefreshAddsNothingElse(c, d, name, before, published);
      if Covers(c, before) {
        RefreshRestoresCoverExactly(c, d, name, before, published);
      }
    }

    // ----- The pass ----------------------------------------------------------------------

    /** Registers the next desired row unless the registry already has it so. */
    method EnsureRegistered(rows: seq<Tool>, i: nat, ghost before: Catalog) returns (ok: bool, changed: bool)
      requires Valid() && i < |rows| && rows[i].active && Progress(before, registry.State(), rows, i)
      modifies this`published, registry
      ensures Valid() && (old(Covering()) ==> Covering())
      ensures Progress(before, registry.State(), rows, if ok then i + 1 else i)
      ensures Accepts(rows[i]) ==> ok
      ensures AllManaged(old(registry.State())) && Managed(rows[i]) ==> ok == Accepts(rows[i])
      ensures AllInForce(before, rows) ==> ok && !changed
    {
      var row := rows[i];
      ghost var c := registry.State();
      var existing := registry.Resolve(row.name, row.version);
      if InForce(c, row) {
        InForceIsFound(c, registry.semver, row, existing);
      }
      if existing.None? || existing.value.digest != row.digest || existing.value.serving != row.serving {
        changed := RegisterTool(row, false);
        ok := changed;
        if ok {
          assert row.(active := true) == row;
          ProgressByRegistering(before, c, rows, i);
        }
      } else {
        ok, changed := true, false;
        ProgressBySkipping(before, c, registry.semver, rows, i);
        SkippedIsAccepted(c, row, existing.value);
      }
    }

    /** What the lookup finds under a faithful digest has been accepted before. */
    lemma SkippedIsAccepted(c: Catalog, row: Tool, found: Tool)
      requires Filed(c) && AllAccepted(c)
      requires Resolves(c, registry.semver, row.name, row.version, Some(found)) && found.digest == row.digest
      ensures AllManaged(c) && Managed(row) ==> Accepts(row)
    {
      assert found.Key() in c.tools && c.tools[found.Key()] == found;
    }

    /** Where the first half of a pass stands before row `i`. */
    ghost predicate Halfway(before: Catalog, c: Catalog, rows: seq<Tool>, i: nat, wanted: set<RevisionKey>, registered: nat)
      requires i <= |rows|
    {
      && wanted == Wanted(rows[..i]) && Progress(before, c, rows, i)
      && (AllInForce(before, rows) ==> registered == 0)
      && (AllManaged(before) && ManagedRows(rows) ==> AcceptsRows(rows[..i]))
    }

    lemma HalfwayStep(
      before: Catalog, c: Catalog, d: Catalog, rows: seq<Tool>, i: nat, wanted: set<RevisionKey>, registered: nat, changed: bool)
      requires i < |rows| && Halfway(before, c, rows, i, wanted, registered) && Progress(before, d, rows, i + 1)
      requires AllInForce(before, rows) ==> !changed
      requires rows[i].active && AllManaged(c) && Managed(rows[i]) ==> Accepts(rows[i])
      ensures Halfway(before, d, rows, i + 1, if rows[i].active then wanted + {rows[i].Key()} else wanted,
                      registered + if changed then 1 else 0)
    {
      WantedStep(rows, i);
      assert forall j :: 0 <= j < i ==> rows[..i + 1][j] == rows[..i][j];
    }

    lemma HalfwayDone(before: Catalog, c: Catalog, rows: seq<Tool>, wanted: set<RevisionKey>, registered: nat)
      requires Sound(c) && Halfway(before, c, rows, |rows|, wanted, registered)
      ensures wanted == Wanted(rows) && Undisturbed(before, c, rows)
      ensures AllManaged(before) && ManagedRows(rows) ==> AcceptsRows(rows)
      ensures AllInForce(before, rows) ==> registered == 0 && c == before
    {
      assert rows[..|rows|] == rows;
      ProgressIsUndisturbed(before, c, rows, |rows|);
    }

    /** The first half of a pass: brings every desired active row into force, up to the first
        that is not accepted. */
    method RegisterDesired(rows: seq<Tool>) returns (ok: bool, wanted: set<RevisionKey>, registered: nat)
      requires Valid()
      modifies this`published, registry
      ensures Valid() && (old(Covering()) ==> Covering())
      ensures Undisturbed(old(registry.State()), registry.State(), rows)
      ensures ok ==> Progress(old(registry.State()), registry.State(), rows, |rows|) && wanted == Wanted(rows)
      ensures AcceptsRows(rows) ==> ok
      ensures AllManaged(old(registry.State())) && ManagedRows(rows) ==> ok == AcceptsRows(rows)
      ensures AllInForce(old(registry.State()), rows) ==>
                ok && registered == 0 && registry.State() == old(registry.State())
    {
      ghost var before := registry.State();
      wanted, registered := {}, 0;
      for i := 0 to |rows|
        invariant Valid() && (old(Covering()) ==> Covering())
        invariant Halfway(before, registry.State(), rows, i, wanted, registered)
      {
        ghost var c := registry.State();
        var changed := false;
        if rows[i].active {
          ok, changed := EnsureRegistered(rows, i, before);
          if !ok {
            ProgressIsUndisturbed(before, registry.State(), rows, i);
            return;
          }
        } else {
          ProgressBySkipping(before, c, registry.semver, rows, i);
        }
        HalfwayStep(before, c, registry.State(), rows, i, wanted, registered, changed);
        wanted := if rows[i].active then wanted + {rows[i].Key()} else wanted;
        registered := registered + if changed then 1 else 0;
      }
      ok := true;
      HalfwayDone(before, registry.State(), rows, wanted, registered);
    }

    /** The second half: withdraws the active revisions no row asks for, builtins aside. */
    method DeregisterStale(wanted: set<RevisionKey>) returns (removed: nat)
      requires Valid()
      modifies this`published, registry
      ensures Valid() && (old(Covering()) ==> Covering())
      ensures Swept(old(registry.State()), registry.State(), wanted)
      ensures (forall k :: !Stale(old(registry.State()), wanted, k)) ==>
                removed == 0 && registry.State() == old(registry.State())
    {
      ghost var before := registry.State();
      var listed := registry.ListActive();
      removed := 0;
      var i := 0;
      while i < |listed|
        invariant 0 <= i <= |listed| && Valid() && (old(Covering()) ==> Covering())
        invariant SweptBut(before, registry.State(), wanted, listed[i..])
        invariant (forall k :: !Stale(before, wanted, k)) ==> removed == 0 && registry.State() == before
      {
        var n := DropIfStale(wanted, listed, i, before);
        removed := removed + n;
        i := i + 1;
      }
    }

    /** One listed revision: withdrawn if no row asks for it. */
    method DropIfStale(wanted: set<RevisionKey>, listed: seq<Tool>, i: nat, ghost before: Catalog) returns (removed: nat)
      requires Valid() && Filed(before) && Named(before) && i < |listed|
      requires Active(before, listed[i].Key()) && before.tools[listed[i].Key()] == listed[i]
      requires SweptBut(before, registry.State(), wanted, listed[i..])
      modifies this`published, registry
      ensures Valid() && (old(Covering()) ==> Covering())
      ensures SweptBut(before, registry.State(), wanted, listed[i + 1..])
      ensures !Stale(before, wanted, listed[i].Key()) ==> removed == 0 && registry.State() == old(registry.State())
    {
      SweepFirst(before, registry.State(), wanted, listed[i..]);
      assert listed[i..][1..] == listed[i + 1..];
      removed := 0;
      if listed[i].moduleName != BUILTIN && listed[i].Key() !in wanted {
        assert Nameable(listed[i].Key());
        DeregisterTool(listed[i].name, listed[i].version);
        AdmissibleNamesAreSafe(registry.State(), listed[i].name);
        removed := 1;
      }
    }

    /** One reconciliation pass over the stored rows.  `flushed` tells whether the plugin
        bindings' cached results could be invalidated; `hash` names the stored state. */
    method Reconcile(rows: seq<Tool>, hash: string, flushed: bool) returns (ok: bool, registered: nat, removed: nat)
      requires Valid()
      modifies this, registry
      ensures Valid() && (old(Covering()) ==> Covering())
      ensures lastDesiredHash == if ok then hash else old(lastDesiredHash)
      ensures lifecycleGeneration == old(lifecycleGeneration) + if hash == old(lastDesiredHash) then 0 else 1
      ensures hash == old(lastDesiredHash) ==> ok && registered == 0 && removed == 0
      ensures hash == old(lastDesiredHash) || !flushed ==> registry.State() == old(registry.State())
      ensures hash != old(lastDesiredHash) && !flushed ==> !ok
      ensures flushed && AcceptsRows(rows) ==> ok
      ensures hash != old(lastDesiredHash) && flushed && AllManaged(old(registry.State())) && ManagedRows(rows) ==>
                ok == AcceptsRows(rows)
      ensures Undisturbed(old(registry.State()), registry.State(), rows)
      ensures ok && hash != old(lastDesiredHash) ==> Reconciled(old(registry.State()), registry.State(), rows)
      ensures ok ==> SparesBuiltins(old(registry.State()), registry.State(), rows)
      ensures flushed && Converged(old(registry.State()), rows) ==>
                ok && registered == 0 && removed == 0 && registry.State() == old(registry.State())
    {
      ghost var before := registry.State();
      registered, removed := 0, 0;
      if hash == lastDesiredHash {
        return true, 0, 0;
      }
      lifecycleGeneration := lifecycleGeneration + 1;
      if !flushed {
        return false, 0, 0;
      }
      var wanted;
      ok, wanted, registered := RegisterDesired(rows);
      if ok {
        ghost var c := registry.State();
        removed := DeregisterStale(wanted);
        lastDesiredHash := hash;
        SweepConverges(before, c, registry.State(), rows);
        SweepSparesBuiltins(before, c, registry.State(), rows);
      }
    }
  }
}
