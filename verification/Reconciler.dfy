/** What reconciling the registry with the stored rows achieves, on the registry's state. */
module Reconciler {
  import opened Common
  import opened ToolResource
  import opened ToolRegistry

  // ----- Convergence ---------------------------------------------------------------------

  /** A desired row is in force: same revision, content and serving choice. */
  predicate InForce(c: Catalog, d: Tool) {
    Active(c, d.Key()) && c.tools[d.Key()].digest == d.digest && c.tools[d.Key()].serving == d.serving
  }

  /** The revisions the active rows ask for. */
  function Wanted(rows: seq<Tool>): set<RevisionKey> {
    set i | 0 <= i < |rows| && rows[i].active :: rows[i].Key()
  }

  /** The stored rows: one row per revision, at most one active serving row per name. */
  ghost predicate OneRowEach(rows: seq<Tool>) {
    && (forall i, j :: 0 <= i < j < |rows| ==> rows[i].Key() != rows[j].Key())
    && (forall i, j :: 0 <= i < j < |rows| && rows[i].active && rows[j].active && rows[i].name == rows[j].name ==>
          !(rows[i].serving && rows[j].serving))
  }

  /** A digest names one revision, across the active rows and the active registry entries. */
  ghost predicate DigestsTell(c: Catalog, rows: seq<Tool>) {
    && (forall i, k :: 0 <= i < |rows| && rows[i].active && Active(c, k) && c.tools[k].digest == rows[i].digest ==>
          k == rows[i].Key())
    && (forall i, j :: 0 <= i < j < |rows| && rows[i].active && rows[j].active ==> rows[i].digest != rows[j].digest)
  }

  /** The registry serves exactly the desired active rows, besides builtin revisions that
      no row asks for. */
  ghost predicate Converged(c: Catalog, rows: seq<Tool>) {
    && AllInForce(c, rows)
    && (forall k :: Active(c, k) && c.tools[k].moduleName != BUILTIN ==> k in Wanted(rows))
  }

  const BUILTIN := "system"

  /** A resource whose digest matches its content. */
  predicate Managed(t: Tool) {
    t.digest == CanonicalDigest(t)
  }

  ghost predicate AllManaged(c: Catalog) {
    forall k :: k in c.tools ==> Managed(c.tools[k])
  }

  ghost predicate ManagedRows(rows: seq<Tool>) {
    forall i :: 0 <= i < |rows| ==> Managed(rows[i])
  }

  lemma AdditionKeepsManaged(c: Catalog, t: Tool, servingDefault: bool)
    requires AllManaged(c) && Managed(t)
    ensures AllManaged(AfterAdd(c, t, servingDefault))
  {
  }

  lemma RemovalKeepsManaged(c: Catalog, k: RevisionKey)
    requires AllManaged(c)
    ensures AllManaged(AfterRemove(c, k))
  {
  }

  ghost predicate AllInForce(c: Catalog, rows: seq<Tool>) {
    forall i :: 0 <= i < |rows| && rows[i].active ==> InForce(c, rows[i])
  }

  /** Where a reconciliation can start from.  Flags and pointers need not agree. */
  ghost predicate Reconcilable(c: Catalog, rows: seq<Tool>) {
    Sound(c) && OneRowEach(rows) && DigestsTell(c, rows)
  }

  lemma WantedStep(rows: seq<Tool>, i: nat)
    requires i < |rows|
    ensures Wanted(rows[..i + 1]) ==
            if rows[i].active then Wanted(rows[..i]) + {rows[i].Key()} else Wanted(rows[..i])
  {
    forall j | 0 <= j < i ensures rows[..i + 1][j] == rows[..i][j] {
    }
    if rows[i].active {
      assert rows[..i + 1][i] == rows[i];
    }
    forall k | k in Wanted(rows[..i]) ensures k in Wanted(rows[..i + 1]) {
      var j :| 0 <= j < i && rows[..i][j].active && rows[..i][j].Key() == k;
      assert rows[..i + 1][j] == rows[..i][j];
    }
  }

  lemma RegisterEstablishes(c: Catalog, t: Tool)
    requires t.active
    ensures InForce(AfterAdd(c, t, false), t)
  {
  }

  lemma RegisterKeepsInForce(c: Catalog, t: Tool, d: Tool)
    requires FlagsPointed(c) && InForce(c, d) && d.Key() != t.Key()
    requires d.name == t.name ==> !(d.serving && t.serving)
    ensures InForce(AfterAdd(c, t, false), d)
  {
  }

  /** Registering one revision leaves every other one registered, active and unaltered, up
      to its serving flag. */
  lemma RegisterSparesOthers(c: Catalog, t: Tool, k: RevisionKey)
    requires k != t.Key()
    ensures var e := AfterAdd(c, t, false);
            && (k in e.tools <==> k in c.tools)
            && (k in c.tools ==> e.tools[k] == c.tools[k].(serving := e.tools[k].serving))
  {
  }

  lemma RegisterKeepsTelling(c: Catalog, rows: seq<Tool>, i: nat)
    requires DigestsTell(c, rows) && i < |rows| && rows[i].active
    ensures DigestsTell(AfterAdd(c, rows[i], false), rows)
  {
    var t := rows[i];
    var e := AfterAdd(c, t, false);
    forall j, k | 0 <= j < |rows| && rows[j].active && Active(e, k) && e.tools[k].digest == rows[j].digest
      ensures k == rows[j].Key()
    {
      if k == t.Key() {
        assert e.tools[k].digest == t.digest;
      } else {
        RegisterSparesOthers(c, t, k);
        assert Active(c, k);
      }
    }
  }

  lemma InForceIsFound(c: Catalog, semver: Semver, d: Tool, r: Option<Tool>)
    requires Filed(c) && InForce(c, d) && Resolves(c, semver, d.name, d.version, r)
    ensures r == Some(c.tools[d.Key()])
  {
    assert Revision(d.name, d.version) == d.Key();
  }

  /** One revision as two registries see it, the serving flag aside. */
  ghost predicate SameRevision(c: Catalog, d: Catalog, k: RevisionKey) {
    && (k in c.tools <==> k in d.tools)
    && (k in c.tools ==> d.tools[k] == c.tools[k].(serving := d.tools[k].serving))
  }

  // ----- What becomes of pointers --------------------------------------------------------

  predicate HasServingRow(rows: seq<Tool>, name: string) {
    exists i :: 0 <= i < |rows| && rows[i].active && rows[i].serving && rows[i].name == name
  }

  /** The name is served, and if a row asks for the serving version, that row is in force. */
  ghost predicate PointerHolds(c0: Catalog, rows: seq<Tool>, n: string) {
    && n in c0.serving
    && forall i :: 0 <= i < |rows| && rows[i].active && rows[i].Key() == Revision(n, c0.serving[n]) ==> InForce(c0, rows[i])
  }

  ghost predicate SameEntry(c: Catalog, d: Catalog, k: RevisionKey) {
    (k in c.tools <==> k in d.tools) && (k in c.tools ==> d.tools[k] == c.tools[k])
  }

  /** A name none of the rows serves is served as before, unless the row of its version had
      to be registered; what the rows do not ask for is untouched under that name. */
  ghost predicate LeavesUnserved(c0: Catalog, c: Catalog, rows: seq<Tool>) {
    forall n :: !HasServingRow(rows, n) ==> LeavesName(c0, c, rows, n)
  }

  ghost predicate LeavesName(c0: Catalog, c: Catalog, rows: seq<Tool>, n: string) {
    && (n in c.serving <==> PointerHolds(c0, rows, n)) && (n in c.serving ==> c.serving[n] == c0.serving[n])
    && forall k: RevisionKey :: k.name == n && k !in Wanted(rows) ==> SameEntry(c0, c, k)
  }

  lemma OneRowMore(rows: seq<Tool>, row: Tool, c0: Catalog, n: string)
    ensures Wanted(rows + [row]) == if row.active then Wanted(rows) + {row.Key()} else Wanted(rows)
    ensures HasServingRow(rows + [row], n) <==> HasServingRow(rows, n) || (row.active && row.serving && row.name == n)
    ensures PointerHolds(c0, rows + [row], n) <==>
            PointerHolds(c0, rows, n) && (row.active && row.Key() == Revision(n, c0.serving[n]) ==> InForce(c0, row))
  {
    var all := rows + [row];
    assert all[|rows|] == row && forall i :: 0 <= i < |rows| ==> all[i] == rows[i];
    WantedStep(all, |rows|);
    assert all[..|rows|] == rows && all[..|rows| + 1] == all;
  }

  /** A row in force at its turn was so from the start. */
  lemma InForceAsBefore(c0: Catalog, c: Catalog, rows: seq<Tool>, row: Tool)
    requires LeavesName(c0, c, rows, row.name) && row.Key() !in Wanted(rows)
    ensures InForce(c, row) <==> InForce(c0, row)
  {
    assert SameEntry(c0, c, row.Key());
  }

  lemma SkippingLeavesUnserved(c0: Catalog, c: Catalog, rows: seq<Tool>, row: Tool)
    requires LeavesUnserved(c0, c, rows)
    requires row.active ==> row.Key() !in Wanted(rows) && InForce(c, row)
    ensures LeavesUnserved(c0, c, rows + [row])
  {
    forall n | !HasServingRow(rows + [row], n) ensures LeavesName(c0, c, rows + [row], n) {
      OneRowMore(rows, row, c0, n);
      assert LeavesName(c0, c, rows, n);
      if row.active && row.name == n {
        InForceAsBefore(c0, c, rows, row);
      }
    }
  }

  lemma RegisteringLeavesName(c0: Catalog, c: Catalog, rows: seq<Tool>, row: Tool, n: string)
    requires LeavesName(c0, c, rows, n) && row.active && row.version != ""
    requires row.name == n ==> !row.serving && row.Key() !in Wanted(rows) && !InForce(c, row)
    ensures LeavesName(c0, AfterAdd(c, row, false), rows + [row], n)
  {
    var d := AfterAdd(c, row, false);
    OneRowMore(rows, row, c0, n);
    if row.name == n {
      InForceAsBefore(c0, c, rows, row);
    }
    forall k: RevisionKey | k.name == n && k !in Wanted(rows + [row]) ensures SameEntry(c0, d, k) {
      assert SameEntry(c0, c, k);
    }
  }

  lemma RegisteringLeavesUnserved(c0: Catalog, c: Catalog, rows: seq<Tool>, row: Tool)
    requires LeavesUnserved(c0, c, rows) && row.active && row.version != ""
    requires row.Key() !in Wanted(rows) && !InForce(c, row)
    ensures LeavesUnserved(c0, AfterAdd(c, row, false), rows + [row])
  {
    forall n | !HasServingRow(rows + [row], n) ensures LeavesName(c0, AfterAdd(c, row, false), rows + [row], n) {
      OneRowMore(rows, row, c0, n);
      RegisteringLeavesName(c0, c, rows, row, n);
    }
  }

  lemma NotYetWanted(rows: seq<Tool>, i: nat)
    requires OneRowEach(rows) && i < |rows|
    ensures rows[i].Key() !in Wanted(rows[..i]) && rows[..i + 1] == rows[..i] + [rows[i]]
  {
    forall j | 0 <= j < i ensures rows[..i][j].Key() != rows[i].Key() {
      assert rows[..i][j] == rows[j];
    }
  }

  // ----- Registering the rows ------------------------------------------------------------

  /** What the first `i` rows have brought about since the registry was `c0`. */
  ghost predicate Progress(c0: Catalog, c: Catalog, rows: seq<Tool>, i: nat)
    requires i <= |rows|
  {
    && (Reconcilable(c0, rows) ==> Reconcilable(c, rows) && AllInForce(c, rows[..i]) && LeavesUnserved(c0, c, rows[..i]))
    && (forall k :: k !in Wanted(rows[..i]) ==> SameRevision(c0, c, k))
    && (AllInForce(c0, rows) ==> c == c0)
    && (AllManaged(c0) && ManagedRows(rows) ==> AllManaged(c))
    && (Agreed(c0) ==> Agreed(c))
  }

  lemma ProgressByRegistering(c0: Catalog, c: Catalog, rows: seq<Tool>, i: nat)
    requires i < |rows| && rows[i].active && rows[i].version != "" && Sound(c)
    requires Progress(c0, c, rows, i) && !AllInForce(c0, rows) && !InForce(c, rows[i])
    ensures Progress(c0, AfterAdd(c, rows[i], false), rows, i + 1)
  {
    var d := AfterAdd(c, rows[i], false);
    WantedStep(rows, i);
    if AllManaged(c) && Managed(rows[i]) {
      AdditionKeepsManaged(c, rows[i], false);
    }
    forall k | k !in Wanted(rows[..i + 1]) ensures SameRevision(c0, d, k) {
      assert k !in Wanted(rows[..i]) && SameRevision(c0, c, k);
      RegisterSparesOthers(c, rows[i], k);
    }
    AddKeepsSound(c, rows[i], false);
    if Agreed(c) {
      AddKeepsAgreedExactly(c, rows[i], false);
    }
    if Reconcilable(c0, rows) {
      RegisterReconciles(c0, c, rows, i);
    }
  }

  lemma RegisterReconciles(c0: Catalog, c: Catalog, rows: seq<Tool>, i: nat)
    requires i < |rows| && rows[i].active && rows[i].version != "" && !InForce(c, rows[i])
    requires Reconcilable(c, rows) && AllInForce(c, rows[..i]) && LeavesUnserved(c0, c, rows[..i])
    ensures var d := AfterAdd(c, rows[i], false);
            DigestsTell(d, rows) && AllInForce(d, rows[..i + 1]) && LeavesUnserved(c0, d, rows[..i + 1])
  {
    var d := AfterAdd(c, rows[i], false);
    RegisterKeepsTelling(c, rows, i);
    RegisterEstablishes(c, rows[i]);
    forall j | 0 <= j < i && rows[j].active ensures InForce(d, rows[j]) {
      assert rows[..i][j] == rows[j];
      RegisterKeepsInForce(c, rows[i], rows[j]);
    }
    NotYetWanted(rows, i);
    RegisteringLeavesUnserved(c0, c, rows[..i], rows[i]);
  }

  lemma ProgressBySkipping(c0: Catalog, c: Catalog, semver: Semver, rows: seq<Tool>, i: nat)
    requires i < |rows| && Progress(c0, c, rows, i) && Sound(c)
    requires rows[i].active ==>
               exists t :: Resolves(c, semver, rows[i].name, rows[i].version, Some(t))
                           && t.digest == rows[i].digest && t.serving == rows[i].serving
    ensures Progress(c0, c, rows, i + 1)
  {
    WantedStep(rows, i);
    if Reconcilable(c0, rows) {
      if rows[i].active {
        var t :| Resolves(c, semver, rows[i].name, rows[i].version, Some(t))
                 && t.digest == rows[i].digest && t.serving == rows[i].serving;
        SkippedRowIsInForce(c, semver, rows, i, t);
      }
      forall j | 0 <= j < i + 1 && rows[j].active ensures InForce(c, rows[j]) {
        assert j < i ==> rows[..i][j] == rows[j];
      }
      NotYetWanted(rows, i);
      SkippingLeavesUnserved(c0, c, rows[..i], rows[i]);
    }
  }

  /** A row is passed over only if it is in force already. */
  lemma SkippedRowIsInForce(c: Catalog, semver: Semver, rows: seq<Tool>, i: nat, found: Tool)
    requires Filed(c) && DigestsTell(c, rows) && i < |rows| && rows[i].active
    requires Resolves(c, semver, rows[i].name, rows[i].version, Some(found))
    requires found.digest == rows[i].digest && found.serving == rows[i].serving
    ensures InForce(c, rows[i])
  {
    assert Active(c, found.Key()) && c.tools[found.Key()] == found;
  }

  /** An active revision that no row asks for and that is no builtin. */
  predicate Stale(c: Catalog, wanted: set<RevisionKey>, k: RevisionKey) {
    Active(c, k) && k !in wanted && c.tools[k].moduleName != BUILTIN
  }

  /** What is not stale stands untouched. */
  ghost predicate Spared(c: Catalog, d: Catalog, wanted: set<RevisionKey>) {
    && c.tools.Keys == d.tools.Keys
    && forall k :: k in c.tools && !Stale(c, wanted, k) ==> d.tools[k] == c.tools[k]
  }

  /** A name stays served by its version as long as that is active. */
  ghost predicate PointersFollow(c: Catalog, d: Catalog) {
    forall n :: (n in d.serving <==> n in c.serving && Active(d, Revision(n, c.serving[n])))
                && (n in d.serving ==> d.serving[n] == c.serving[n])
  }

  /** Soundness, agreement and faithful digests are kept. */
  ghost predicate KeepsOrder(c: Catalog, d: Catalog) {
    Sound(d) && (Agreed(c) ==> Agreed(d)) && (AllManaged(c) ==> AllManaged(d))
  }

  /** Exactly the stale revisions are gone. */
  ghost predicate Swept(c: Catalog, d: Catalog, wanted: set<RevisionKey>) {
    && KeepsOrder(c, d) && Spared(c, d, wanted) && PointersFollow(c, d)
    && (forall k :: Stale(c, wanted, k) ==> !Active(d, k))
  }

  /** As `Swept`, with the sweep of the `pending` revisions still to come. */
  ghost predicate SweptBut(c: Catalog, d: Catalog, wanted: set<RevisionKey>, pending: seq<Tool>) {
    && KeepsOrder(c, d) && Spared(c, d, wanted) && PointersFollow(c, d)
    && (forall k :: Stale(c, wanted, k) && Active(d, k) ==> c.tools[k] in pending)
  }

  lemma RemovalKeepsOrder(c: Catalog, d: Catalog, k: RevisionKey)
    requires KeepsOrder(c, d)
    ensures KeepsOrder(c, AfterRemove(d, k))
  {
    RemoveKeepsSound(d, k);
    if AllManaged(d) {
      RemovalKeepsManaged(d, k);
    }
  }

  lemma RemovalSpares(c: Catalog, d: Catalog, wanted: set<RevisionKey>, k: RevisionKey)
    requires Spared(c, d, wanted) && Stale(c, wanted, k)
    ensures Spared(c, AfterRemove(d, k), wanted)
  {
  }

  lemma RemovalLetsPointersFollow(c: Catalog, d: Catalog, k: RevisionKey)
    requires PointersFollow(c, d) && k in d.tools
    ensures PointersFollow(c, AfterRemove(d, k))
  {
    var e := AfterRemove(d, k);
    forall n ensures n in e.serving <==> n in c.serving && Active(e, Revision(n, c.serving[n]))
             ensures n in e.serving ==> e.serving[n] == c.serving[n]
    {
      assert n in c.serving && Revision(n, c.serving[n]) == k ==> n == k.name && c.serving[n] == k.version;
    }
  }

  lemma RemovalSweeps(c: Catalog, d: Catalog, wanted: set<RevisionKey>, pending: seq<Tool>)
    requires SweptBut(c, d, wanted, pending) && pending != [] && Stale(c, wanted, pending[0].Key())
    ensures SweptBut(c, AfterRemove(d, pending[0].Key()), wanted, pending)
    ensures !Active(AfterRemove(d, pending[0].Key()), pending[0].Key())
  {
    var k := pending[0].Key();
    RemovalKeepsOrder(c, d, k);
    RemovalSpares(c, d, wanted, k);
    RemovalLetsPointersFollow(c, d, k);
    forall j | Stale(c, wanted, j) && Active(AfterRemove(d, k), j) ensures c.tools[j] in pending {
      assert Active(d, j);
    }
  }

  lemma SweepSkips(c: Catalog, d: Catalog, wanted: set<RevisionKey>, pending: seq<Tool>)
    requires Filed(c) && SweptBut(c, d, wanted, pending) && pending != []
    requires Stale(c, wanted, pending[0].Key()) ==> !Active(d, pending[0].Key())
    ensures SweptBut(c, d, wanted, pending[1..])
  {
    forall k | Stale(c, wanted, k) && Active(d, k) ensures c.tools[k] in pending[1..] {
      assert c.tools[k] in pending && c.tools[k].Key() == k;
    }
  }

  /** The first pending revision is removed or passed over. */
  lemma SweepFirst(c: Catalog, d: Catalog, wanted: set<RevisionKey>, pending: seq<Tool>)
    requires Filed(c) && SweptBut(c, d, wanted, pending) && pending != []
    requires Active(c, pending[0].Key()) && c.tools[pending[0].Key()] == pending[0]
    ensures var stale := pending[0].moduleName != BUILTIN && pending[0].Key() !in wanted;
            && SweptBut(c, if stale then AfterRemove(d, pending[0].Key()) else d, wanted, pending[1..])
            && (stale <==> Stale(c, wanted, pending[0].Key()))
  {
    if Stale(c, wanted, pending[0].Key()) {
      RemovalSweeps(c, d, wanted, pending);
      SweepSkips(c, AfterRemove(d, pending[0].Key()), wanted, pending);
    } else {
      SweepSkips(c, d, wanted, pending);
    }
  }

  /** A builtin revision no row asks for stays as it was, its serving flag aside. */
  ghost predicate SparesBuiltins(c: Catalog, d: Catalog, rows: seq<Tool>) {
    forall k :: k in c.tools && k !in Wanted(rows) && c.tools[k].moduleName == "system" ==> SameRevision(c, d, k)
  }

  /** What no pass does, successful or not: part flags and pointers, register what has no
      faithful digest, or bring up what no row wants. */
  ghost predicate Undisturbed(c0: Catalog, c: Catalog, rows: seq<Tool>) {
    && (Sound(c0) ==> Sound(c)) && (Agreed(c0) ==> Agreed(c))
    && (AllManaged(c0) && ManagedRows(rows) ==> AllManaged(c))
    && forall k :: Active(c, k) && k !in Wanted(rows) ==> Active(c0, k) && c.tools[k].moduleName == c0.tools[k].moduleName
  }

  /** A name that no row serves stays served if and only if its version stays registered, not
      registered anew: its row was in force from the start, or it is a builtin without one. */
  ghost predicate StaysServed(c0: Catalog, rows: seq<Tool>, n: string) {
    && PointerHolds(c0, rows, n)
    && var k := Revision(n, c0.serving[n]); k in Wanted(rows) || (k in c0.tools && c0.tools[k].moduleName == BUILTIN)
  }

  /** What a successful pass from `c0` makes of the registry. */
  ghost predicate Reconciled(c0: Catalog, c: Catalog, rows: seq<Tool>) {
    && Undisturbed(c0, c, rows)
    && (Reconcilable(c0, rows) ==>
          Converged(c, rows) && forall n :: !HasServingRow(rows, n) ==> (n in c.serving <==> StaysServed(c0, rows, n)))
  }

  lemma SweepLeavesServed(c0: Catalog, c: Catalog, d: Catalog, rows: seq<Tool>, n: string)
    requires LeavesName(c0, c, rows, n) && Sound(c) && Swept(c, d, Wanted(rows))
    ensures n in d.serving <==> StaysServed(c0, rows, n)
  {
    if n in c.serving {
      var k := Revision(n, c.serving[n]);
      assert Active(c, k);
      assert k !in Wanted(rows) ==> SameEntry(c0, c, k);
      assert Active(d, k) <==> !Stale(c, Wanted(rows), k);
    }
  }

  lemma WantedGrows(rows: seq<Tool>, i: nat)
    requires i <= |rows|
    ensures Wanted(rows[..i]) <= Wanted(rows)
  {
    forall k | k in Wanted(rows[..i]) ensures k in Wanted(rows) {
      var j :| 0 <= j < i && rows[..i][j].active && rows[..i][j].Key() == k;
      assert rows[j].Key() == k;
    }
  }

  lemma ProgressIsUndisturbed(c0: Catalog, c: Catalog, rows: seq<Tool>, i: nat)
    requires i <= |rows| && Progress(c0, c, rows, i) && Sound(c)
    ensures Undisturbed(c0, c, rows)
  {
    WantedGrows(rows, i);
    forall k | Active(c, k) && k !in Wanted(rows)
      ensures Active(c0, k) && c.tools[k].moduleName == c0.tools[k].moduleName
    {
      assert k !in Wanted(rows[..i]) && SameRevision(c0, c, k);
    }
  }

  lemma SweepIsUndisturbed(c0: Catalog, c: Catalog, d: Catalog, rows: seq<Tool>)
    requires Undisturbed(c0, c, rows) && Swept(c, d, Wanted(rows))
    ensures Undisturbed(c0, d, rows)
  {
    forall k | Active(d, k) && k !in Wanted(rows)
      ensures Active(c0, k) && d.tools[k].moduleName == c0.tools[k].moduleName
    {
      assert !Stale(c, Wanted(rows), k);
    }
  }

  lemma SweepMeetsRows(c: Catalog, d: Catalog, rows: seq<Tool>)
    requires AllInForce(c, rows) && Swept(c, d, Wanted(rows))
    ensures Converged(d, rows)
  {
    forall i | 0 <= i < |rows| && rows[i].active ensures InForce(d, rows[i]) {
      assert rows[i].Key() in Wanted(rows) && InForce(c, rows[i]);
    }
    forall k | Active(d, k) && d.tools[k].moduleName != BUILTIN ensures k in Wanted(rows) {
      assert !Stale(c, Wanted(rows), k);
    }
  }

  lemma SweepConverges(c0: Catalog, c: Catalog, d: Catalog, rows: seq<Tool>)
    requires Progress(c0, c, rows, |rows|) && Sound(c) && Swept(c, d, Wanted(rows))
    ensures Reconciled(c0, d, rows)
  {
    assert rows[..|rows|] == rows;
    ProgressIsUndisturbed(c0, c, rows, |rows|);
    SweepIsUndisturbed(c0, c, d, rows);
    if Reconcilable(c0, rows) {
      SweepMeetsRows(c, d, rows);
      forall n | !HasServingRow(rows, n) ensures n in d.serving <==> StaysServed(c0, rows, n) {
        SweepLeavesServed(c0, c, d, rows, n);
      }
    }
  }

  lemma SweepSparesBuiltins(c0: Catalog, c: Catalog, d: Catalog, rows: seq<Tool>)
    requires Progress(c0, c, rows, |rows|) && Swept(c, d, Wanted(rows))
    ensures SparesBuiltins(c0, d, rows)
  {
    assert rows[..|rows|] == rows;
    forall k | k in c0.tools && k !in Wanted(rows) && c0.tools[k].moduleName == BUILTIN
      ensures SameRevision(c0, d, k)
    {
      assert SameRevision(c0, c, k);
    }
  }

  // ----- What convergence means ----------------------------------------------------------

  /** The live revisions are exactly those the active rows ask for, builtins included. */
  ghost predicate Exact(c: Catalog, rows: seq<Tool>) {
    AllInForce(c, rows) && forall k :: Active(c, k) ==> k in Wanted(rows)
  }

  /** A revision is live exactly if a row wants it, and its name is served by it exactly if
      that row says so. */
  lemma ExactIsDesired(c: Catalog, rows: seq<Tool>, k: RevisionKey)
    requires Agreed(c) && Exact(c, rows) && OneRowEach(rows)
    ensures Active(c, k) <==> k in Wanted(rows)
    ensures (k.name in c.serving && c.serving[k.name] == k.version) <==>
            exists i :: 0 <= i < |rows| && rows[i].active && rows[i].serving && rows[i].Key() == k
  {
    if k.name in c.serving && c.serving[k.name] == k.version {
      assert Revision(k.name, c.serving[k.name]) == k && Active(c, k);
      var i :| 0 <= i < |rows| && rows[i].active && rows[i].Key() == k;
      assert InForce(c, rows[i]);
    }
    if i :| 0 <= i < |rows| && rows[i].active && rows[i].serving && rows[i].Key() == k {
      assert InForce(c, rows[i]);
    }
  }

  /** In a registry that is otherwise exact, flags and pointers agree if and only if every
      served name has a row that says so. */
  lemma ExactAgreesExactly(c: Catalog, rows: seq<Tool>)
    requires Sound(c) && Exact(c, rows)
    ensures Agreed(c) <==> forall n :: n in c.serving ==> HasServingRow(rows, n)
  {
    if Agreed(c) {
      forall n | n in c.serving ensures HasServingRow(rows, n) {
        var k := Revision(n, c.serving[n]);
        assert Active(c, k) && k in Wanted(rows);
        var i :| 0 <= i < |rows| && rows[i].active && rows[i].Key() == k;
        assert InForce(c, rows[i]);
      }
    }
    if forall n :: n in c.serving ==> HasServingRow(rows, n) {
      forall n | n in c.serving && Revision(n, c.serving[n]) in c.tools
        ensures c.tools[Revision(n, c.serving[n])].serving
      {
        assert HasServingRow(rows, n);
        var i :| 0 <= i < |rows| && rows[i].active && rows[i].serving && rows[i].name == n;
        assert InForce(c, rows[i]) && rows[i].Key().name == n;
      }
    }
  }

  /** With faithful digests a row in force has its very resource registered, up to the status
      text and the admission record. */
  lemma InForceIsFaithful(c: Catalog, d: Tool)
    requires Filed(c) && InForce(c, d) && d.active
    requires Managed(d) && Managed(c.tools[d.Key()])
    ensures c.tools[d.Key()] == d.(status := c.tools[d.Key()].status, admission := c.tools[d.Key()].admission)
  {
    DigestCoversExecutableContent(c.tools[d.Key()], d);
  }

  /** When the lookup answers with what the pass looks for, the row is in force if and only if
      its own version is registered at all: the constraint fallback can stand in for it. */
  lemma FoundIsInForceExactly(c: Catalog, semver: Semver, row: Tool, found: Tool)
    requires Filed(c) && row.version != "" && Resolves(c, semver, row.name, row.version, Some(found))
    requires found.digest == row.digest && found.serving == row.serving
    ensures InForce(c, row) <==> row.Key() in c.tools
  {
    assert Revision(row.name, row.version) == row.Key();
  }

  /** With faithful digests it always is: another revision has another digest. */
  lemma FaithfulFindIsInForce(c: Catalog, semver: Semver, row: Tool, found: Tool)
    requires Filed(c) && AllManaged(c) && Managed(row)
    requires Resolves(c, semver, row.name, row.version, Some(found))
    requires found.digest == row.digest && found.serving == row.serving
    ensures InForce(c, row)
  {
    assert Active(c, found.Key()) && c.tools[found.Key()] == found && Managed(found);
    DigestCoversExecutableContent(found, row);
  }

  /** The rows are in force and none asks to serve, yet an unflagged entry is served. */
  ghost predicate ServedUnasked(c: Catalog, rows: seq<Tool>) {
    && Sound(c) && OneRowEach(rows) && DigestsTell(c, rows) && Exact(c, rows)
    && (forall i :: 0 <= i < |rows| ==> !rows[i].serving)
    && exists n :: n in c.serving && Active(c, Revision(n, c.serving[n]))
  }

  /** Adding an unserving revision twice through the programmatic entry point leaves a pointer
      without a flag; over it the pass finds nothing to do, and the name stays served although
      no row serves it. */
  lemma StalePointerSurvives()
    ensures exists ops, rows :: AllRegistrable(ops) && ServedUnasked(Run(Catalog(map[], map[]), ops), rows)
  {
    var bare := Tool("a", "1", "m", "x", "", true, false, NoDigest, None);
    var t := bare.(digest := CanonicalDigest(bare));
    var k, ops, empty := t.Key(), [Add(t), Add(t)], Catalog(map[], map[]);
    var once := AfterAdd(empty, t, true);
    var c := AfterAdd(once, t, true);
    assert Revision("a", "1") == k && Pointer(once, "a") == "1";
    assert c.tools == map[k := t] && c.serving == map["a" := "1"];
    assert ops[1..] == [Add(t)] && [Add(t)][1..] == [];
    assert Run(once, [Add(t)]) == Run(c, []) == c;
    assert Apply(empty, ops[0]) == once;
    assert Run(empty, ops) == Run(once, ops[1..]) == c;
    assert Exact(c, [t]) by {
      assert InForce(c, t) && [t][0].Key() in Wanted([t]);
    }
    assert ServedUnasked(c, [t]);
  }
}
