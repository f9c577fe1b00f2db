/** Bringing rows written before digests, admission records and serving pointers up to date. */
module LegacyMigration {
  import opened Common
  import opened ToolResource

  /** Versions: which texts are versions, which of them are releases, and their precedence
      (section 11 of Semantic Versioning 2.0.0), a total preorder. */
  datatype Versions = Versions(isVersion: string -> bool, isRelease: string -> bool, rank: string -> real)

  /** Deriving a row's approved origins: whether its content lacks them, and the content with
      them, unless none can be derived. */
  datatype Origins = Origins(lacking: string -> bool, bound: string -> Option<string>)

  ghost predicate Derives(o: Origins) {
    forall c :: o.lacking(c) && o.bound(c).Some? ==> !o.lacking(o.bound(c).value)
  }

  predicate IsLegacy(t: Tool) {
    t.digest.NoDigest? || t.admission.None?
  }

  const MIGRATION_ACTOR := "legacy-migration"

  /** One row with its origins, digest and admission record; none if no origin is derivable. */
  function Adopted(t: Tool, o: Origins): Option<Tool> {
    if o.lacking(t.content) && o.bound(t.content).None? then None
    else
      var bound := if o.lacking(t.content) then t.(content := o.bound(t.content).value) else t;
      Some(if IsLegacy(t) then bound.(digest := CanonicalDigest(bound), admission := Some(t.admission.GetOr(MIGRATION_ACTOR)))
           else bound)
  }

  ghost predicate AllAdopted(rows: seq<Tool>, adopted: seq<Tool>, o: Origins) {
    |adopted| == |rows| && forall i :: 0 <= i < |rows| ==> Adopted(rows[i], o) == Some(adopted[i])
  }

  predicate LegacyName(rows: seq<Tool>, name: string) {
    exists i :: 0 <= i < |rows| && rows[i].name == name && IsLegacy(rows[i])
  }

  /** The positions of a name's active rows, in order. */
  function ActiveOf(rows: seq<Tool>, name: string): seq<nat> {
    if rows == [] then []
    else
      var n := |rows| - 1;
      ActiveOf(rows[..n], name) + if rows[n].active && rows[n].name == name then [n] else []
  }

  lemma {:induction false} ActiveOfAre(rows: seq<Tool>, name: string)
    ensures forall i: nat :: i in ActiveOf(rows, name) <==> i < |rows| && rows[i].active && rows[i].name == name
    ensures forall j, k :: 0 <= j < k < |ActiveOf(rows, name)| ==> ActiveOf(rows, name)[j] < ActiveOf(rows, name)[k]
  {
    if rows != [] {
      var front := rows[..|rows| - 1];
      ActiveOfAre(front, name);
      forall j | 0 <= j < |ActiveOf(front, name)| ensures ActiveOf(front, name)[j] < |front| {
        assert ActiveOf(front, name)[j] in ActiveOf(front, name);
      }
    }
  }

  ghost predicate Positions(rows: seq<Tool>, indices: seq<nat>) {
    forall k :: 0 <= k < |indices| ==> indices[k] < |rows|
  }

  predicate Eligible(v: Versions, t: Tool, releasesOnly: bool) {
    v.isVersion(t.version) && (releasesOnly ==> v.isRelease(t.version))
  }

  /** The first of the highest eligible versions among some rows. */
  function Highest(v: Versions, rows: seq<Tool>, indices: seq<nat>, releasesOnly: bool): (r: Option<nat>)
    requires Positions(rows, indices)
    ensures r.Some? ==> r.value < |rows|
  {
    if indices == [] then None
    else
      var last := indices[|indices| - 1];
      var best := Highest(v, rows, indices[..|indices| - 1], releasesOnly);
      if Eligible(v, rows[last], releasesOnly) && (best.None? || v.rank(rows[last].version) > v.rank(rows[best.value].version))
      then Some(last) else best
  }

  function Latest(v: Versions, rows: seq<Tool>, indices: seq<nat>): Option<nat>
    requires Positions(rows, indices)
  {
    var release := Highest(v, rows, indices, true);
    if release.Some? then release else Highest(v, rows, indices, false)
  }

  ghost predicate Ascending(indices: seq<nat>) {
    forall j, k :: 0 <= j < k < |indices| ==> indices[j] < indices[k]
  }

  /** No later place has a lower precedence, nor does an earlier one match it. */
  predicate Outranks(v: Versions, rows: seq<Tool>, i: nat, j: nat)
    requires i < |rows| && j < |rows|
  {
    v.rank(rows[j].version) < v.rank(rows[i].version) || (v.rank(rows[j].version) == v.rank(rows[i].version) && i <= j)
  }

  lemma {:induction false} HighestIsHighest(v: Versions, rows: seq<Tool>, indices: seq<nat>, releasesOnly: bool)
    requires Positions(rows, indices) && Ascending(indices)
    ensures var r := Highest(v, rows, indices, releasesOnly);
            && (r.None? <==> forall k :: 0 <= k < |indices| ==> !Eligible(v, rows[indices[k]], releasesOnly))
            && (r.Some? ==> r.value in indices && Eligible(v, rows[r.value], releasesOnly)
                            && forall k :: 0 <= k < |indices| && Eligible(v, rows[indices[k]], releasesOnly) ==>
                                 Outranks(v, rows, r.value, indices[k]))
  {
    if indices != [] {
      var front := indices[..|indices| - 1];
      HighestIsHighest(v, rows, front, releasesOnly);
      var best := Highest(v, rows, front, releasesOnly);
      if best.Some? {
        var k :| 0 <= k < |front| && front[k] == best.value;
        assert best.value < indices[|indices| - 1];
      }
    }
  }

  /** The revision chosen to serve: the first of highest precedence among the releases, or among
      all versions if there is no release; none only if no version can be read. */
  lemma LatestIsLatest(v: Versions, rows: seq<Tool>, indices: seq<nat>)
    requires Positions(rows, indices) && Ascending(indices)
    ensures var r := Latest(v, rows, indices);
            && (r.None? <==> forall k :: 0 <= k < |indices| ==> !v.isVersion(rows[indices[k]].version))
            && (r.Some? ==> && r.value in indices && v.isVersion(rows[r.value].version)
                            && forall k :: 0 <= k < |indices| && v.isVersion(rows[indices[k]].version) ==>
                                 if v.isRelease(rows[indices[k]].version)
                                 then v.isRelease(rows[r.value].version) && Outranks(v, rows, r.value, indices[k])
                                 else v.isRelease(rows[r.value].version) || Outranks(v, rows, r.value, indices[k]))
  {
    HighestIsHighest(v, rows, indices, true);
    HighestIsHighest(v, rows, indices, false);
    forall k | 0 <= k < |indices| && v.isVersion(rows[indices[k]].version)
      ensures Eligible(v, rows[indices[k]], false)
      ensures v.isRelease(rows[indices[k]].version) ==> Eligible(v, rows[indices[k]], true)
    {
    }
  }

  function ServingCount(rows: seq<Tool>, indices: seq<nat>): nat
    requires Positions(rows, indices)
  {
    if indices == [] then 0
    else ServingCount(rows, indices[..|indices| - 1]) + if rows[indices[|indices| - 1]].serving then 1 else 0
  }

  // ----- The loops -----------------------------------------------------------------------

  method LatestLegacyRevision(v: Versions, rows: seq<Tool>, indices: seq<nat>) returns (r: Option<nat>)
    requires Positions(rows, indices)
    ensures r == Latest(v, rows, indices)
  {
    var latestStable: Option<nat>, latestAny: Option<nat> := None, None;
    for k := 0 to |indices|
      invariant latestStable == Highest(v, rows, indices[..k], true)
      invariant latestAny == Highest(v, rows, indices[..k], false)
    {
      var i := indices[k];
      assert indices[..k + 1][..k] == indices[..k];
      if v.isVersion(rows[i].version) {
        if latestAny.None? || v.rank(rows[i].version) > v.rank(rows[latestAny.value].version) {
          latestAny := Some(i);
        }
        if v.isRelease(rows[i].version)
           && (latestStable.None? || v.rank(rows[i].version) > v.rank(rows[latestStable.value].version)) {
          latestStable := Some(i);
        }
      }
    }
    assert indices[..|indices|] == indices;
    r := if latestStable.Some? then latestStable else latestAny;
  }

  /** A row after the serving choice of its name. */
  function Rechosen(v: Versions, rows: seq<Tool>, indices: seq<nat>, i: nat): Tool
    requires Positions(rows, indices) && i < |rows|
  {
    if i in indices && ServingCount(rows, indices) != 1 then rows[i].(serving := Latest(v, rows, indices) == Some(i)) else rows[i]
  }

  /** Leaves one serving revision among some active rows, unless there is exactly one. */
  method ChooseServing(v: Versions, rows: seq<Tool>, indices: seq<nat>) returns (chosen: seq<Tool>, changed: bool)
    requires Positions(rows, indices)
    ensures |chosen| == |rows| && forall i :: 0 <= i < |rows| ==> chosen[i] == Rechosen(v, rows, indices, i)
    ensures changed <==> chosen != rows
  {
    chosen, changed := rows, false;
    var servingCount := 0;
    for k := 0 to |indices|
      invariant servingCount == ServingCount(rows, indices[..k])
    {
      assert indices[..k + 1][..k] == indices[..k];
      if rows[indices[k]].serving {
        servingCount := servingCount + 1;
      }
    }
    assert indices[..|indices|] == indices;
    if servingCount == 1 {
      return;
    }
    var selected := LatestLegacyRevision(v, rows, indices);
    for k := 0 to |indices|
      invariant |chosen| == |rows|
      invariant forall i :: 0 <= i < |rows| ==>
                  chosen[i] == if i in indices[..k] then rows[i].(serving := selected == Some(i)) else rows[i]
      invariant changed <==> chosen != rows
    {
      var i := indices[k];
      var want := selected == Some(i);
      assert indices[..k + 1] == indices[..k] + [i];
      if chosen[i].serving != want {
        assert i !in indices[..k];
        chosen := chosen[i := chosen[i].(serving := want)];
        assert chosen[i] != rows[i];
        changed := true;
      }
    }
    assert indices[..|indices|] == indices;
  }

  method AdoptRows(rows: seq<Tool>, o: Origins) returns (adopted: Option<seq<Tool>>, changed: bool)
    ensures adopted.None? <==> exists i :: 0 <= i < |rows| && Adopted(rows[i], o).None?
    ensures adopted.Some? ==> AllAdopted(rows, adopted.value, o)
    ensures adopted.Some? ==> (changed <==> exists i :: 0 <= i < |rows| && (IsLegacy(rows[i]) || o.lacking(rows[i].content)))
  {
    var done: seq<Tool> := [];
    changed := false;
    for i := 0 to |rows|
      invariant AllAdopted(rows[..i], done, o)
      invariant changed <==> exists j :: 0 <= j < i && (IsLegacy(rows[j]) || o.lacking(rows[j].content))
    {
      var row := rows[i];
      if o.lacking(row.content) {
        var bound := o.bound(row.content);
        if bound.None? {
          assert Adopted(rows[i], o).None?;
          return None, changed;
        }
        row := row.(content := bound.value);
        changed := true;
      }
      if row.digest.NoDigest? || row.admission.None? {
        row := row.(digest := CanonicalDigest(row));
        if row.admission.None? {
          row := row.(admission := Some(MIGRATION_ACTOR));
        }
        changed := true;
      }
      assert Adopted(rows[i], o) == Some(row);
      done := done + [row];
    }
    assert rows[..|rows|] == rows;
    adopted := Some(done);
  }

  // ----- The migration -------------------------------------------------------------------

  /** A row after the migration of all rows. */
  function Migrated(v: Versions, rows: seq<Tool>, adopted: seq<Tool>, i: nat): Tool
    requires |adopted| == |rows| && i < |rows|
  {
    var name := adopted[i].name;
    ActiveAreRows(adopted, name);
    if LegacyName(rows, name) then Rechosen(v, adopted, ActiveOf(adopted, name), i) else adopted[i]
  }

  lemma ActiveAreRows(rows: seq<Tool>, name: string)
    ensures Positions(rows, ActiveOf(rows, name))
  {
    ActiveOfAre(rows, name);
    forall k | 0 <= k < |ActiveOf(rows, name)| ensures ActiveOf(rows, name)[k] < |rows| {
      assert ActiveOf(rows, name)[k] in ActiveOf(rows, name);
    }
  }

  ghost predicate MigratesTo(v: Versions, o: Origins, rows: seq<Tool>, result: seq<Tool>) {
    exists adopted :: AllAdopted(rows, adopted, o) && ChosenFor(v, rows, adopted, result)
  }

  ghost predicate ChosenFor(v: Versions, rows: seq<Tool>, adopted: seq<Tool>, result: seq<Tool>) {
    |result| == |adopted| == |rows| && forall i: nat :: i < |rows| ==> result[i] == Migrated(v, rows, adopted, i)
  }

  /** Rows that differ at most in serving flags outside one name. */
  ghost predicate AlikeFor(a: seq<Tool>, b: seq<Tool>, name: string) {
    && |a| == |b|
    && (forall i :: 0 <= i < |a| ==> b[i] == a[i].(serving := b[i].serving))
    && (forall i :: 0 <= i < |a| && a[i].name == name ==> b[i] == a[i])
  }

  lemma {:induction false} AlikeHaveSameActive(a: seq<Tool>, b: seq<Tool>, name: string)
    requires AlikeFor(a, b, name)
    ensures ActiveOf(a, name) == ActiveOf(b, name)
  {
    if a != [] {
      AlikeHaveSameActive(a[..|a| - 1], b[..|b| - 1], name);
    }
  }

  lemma {:induction false} AlikeHaveSameHighest(v: Versions, a: seq<Tool>, b: seq<Tool>, name: string, indices: seq<nat>, releasesOnly: bool)
    requires AlikeFor(a, b, name) && Positions(a, indices)
    requires forall k :: 0 <= k < |indices| ==> a[indices[k]].name == name
    ensures Positions(b, indices) && Highest(v, a, indices, releasesOnly) == Highest(v, b, indices, releasesOnly)
    ensures ServingCount(a, indices) == ServingCount(b, indices)
  {
    if indices != [] {
      AlikeHaveSameHighest(v, a, b, name, indices[..|indices| - 1], releasesOnly);
    }
  }

  lemma AlikeChooseAlike(v: Versions, a: seq<Tool>, b: seq<Tool>, name: string, i: nat)
    requires AlikeFor(a, b, name) && i < |a| && a[i].name == name
    ensures Positions(a, ActiveOf(a, name)) && Positions(b, ActiveOf(b, name))
    ensures Rechosen(v, a, ActiveOf(a, name), i) == Rechosen(v, b, ActiveOf(b, name), i)
  {
    ActiveOfAre(a, name);
    ActiveAreRows(a, name);
    AlikeHaveSameActive(a, b, name);
    var indices := ActiveOf(a, name);
    forall k | 0 <= k < |indices| ensures a[indices[k]].name == name {
      assert indices[k] in indices;
    }
    AlikeHaveSameHighest(v, a, b, name, indices, true);
    AlikeHaveSameHighest(v, a, b, name, indices, false);
  }

  /** Rows of the names not yet visited are as adopted, the others as migrated. */
  ghost predicate Visited(v: Versions, rows: seq<Tool>, adopted: seq<Tool>, result: seq<Tool>, rest: set<string>) {
    && |result| == |adopted| == |rows|
    && forall i: nat :: i < |rows| ==>
         result[i] == if adopted[i].name in rest then adopted[i] else Migrated(v, rows, adopted, i)
  }

  lemma VisitedIsAlike(v: Versions, rows: seq<Tool>, adopted: seq<Tool>, result: seq<Tool>, rest: set<string>, name: string)
    requires Visited(v, rows, adopted, result, rest) && name in rest
    ensures AlikeFor(adopted, result, name)
  {
    forall i: nat | i < |rows| ensures result[i] == adopted[i].(serving := result[i].serving) {
      ActiveAreRows(adopted, adopted[i].name);
    }
  }

  lemma VisitOne(v: Versions, rows: seq<Tool>, adopted: seq<Tool>, result: seq<Tool>, rest: set<string>, name: string, next: seq<Tool>)
    requires Visited(v, rows, adopted, result, rest) && name in rest && LegacyName(rows, name)
    requires |next| == |result| && Positions(result, ActiveOf(result, name))
    requires forall i :: 0 <= i < |result| ==> next[i] == Rechosen(v, result, ActiveOf(result, name), i)
    ensures Visited(v, rows, adopted, next, rest - {name})
  {
    VisitedIsAlike(v, rows, adopted, result, rest, name);
    forall i: nat | i < |rows|
      ensures next[i] == if adopted[i].name in rest - {name} then adopted[i] else Migrated(v, rows, adopted, i)
    {
      if adopted[i].name == name {
        AlikeChooseAlike(v, adopted, result, name, i);
      } else {
        OthersAreSpared(v, result, name, i);
      }
    }
  }

  lemma OthersAreSpared(v: Versions, rows: seq<Tool>, name: string, i: nat)
    requires i < |rows| && rows[i].name != name
    ensures Positions(rows, ActiveOf(rows, name)) && Rechosen(v, rows, ActiveOf(rows, name), i) == rows[i]
  {
    ActiveOfAre(rows, name);
    ActiveAreRows(rows, name);
    assert i !in ActiveOf(rows, name);
  }

  method NamesOf(rows: seq<Tool>) returns (names: set<string>)
    ensures forall i :: 0 <= i < |rows| ==> rows[i].name in names
  {
    names := {};
    for i := 0 to |rows|
      invariant forall j :: 0 <= j < i ==> rows[j].name in names
    {
      names := names + {rows[i].name};
    }
  }

  /** Migrates all rows or, if some origin cannot be derived, none. */
  method MigrateLegacyTools(v: Versions, o: Origins, rows: seq<Tool>) returns (result: seq<Tool>, ok: bool, saved: bool)
    ensures ok <==> forall i :: 0 <= i < |rows| ==> Adopted(rows[i], o).Some?
    ensures ok ==> MigratesTo(v, o, rows, result)
    ensures !ok ==> result == rows
    ensures saved ==> ok
    ensures ok && (forall i :: 0 <= i < |rows| ==> !IsLegacy(rows[i]) && !o.lacking(rows[i].content)) ==> !saved
    ensures !saved ==> result == rows
  {
    var adoption, changed := AdoptRows(rows, o);
    if adoption.None? {
      return rows, false, false;
    }
    var adopted := adoption.value;
    result := adopted;
    var rest := NamesOf(adopted);
    while rest != {}
      invariant Visited(v, rows, adopted, result, rest)
      invariant !changed ==> result == adopted == rows
      invariant (forall i :: 0 <= i < |rows| ==> !IsLegacy(rows[i]) && !o.lacking(rows[i].content)) ==> !changed
    {
      var name :| name in rest;
      if LegacyName(rows, name) {
        ActiveAreRows(result, name);
        var next, moved := ChooseServing(v, result, ActiveOf(result, name));
        VisitOne(v, rows, adopted, result, rest, name, next);
        result := next;
        changed := changed || moved;
      }
      rest := rest - {name};
    }
    ok, saved := true, changed;
  }

  // ----- What the migration achieves -----------------------------------------------------

  lemma {:induction false} SameActive(a: seq<Tool>, b: seq<Tool>, name: string)
    requires |a| == |b| && forall i :: 0 <= i < |a| ==> b[i] == a[i].(serving := b[i].serving)
    ensures ActiveOf(a, name) == ActiveOf(b, name)
  {
    if a != [] {
      SameActive(a[..|a| - 1], b[..|b| - 1], name);
    }
  }

  lemma MigratedIsAlike(v: Versions, rows: seq<Tool>, adopted: seq<Tool>, result: seq<Tool>, name: string)
    requires ChosenFor(v, rows, adopted, result)
    ensures forall i :: 0 <= i < |result| ==> result[i] == adopted[i].(serving := result[i].serving)
    ensures ActiveOf(result, name) == ActiveOf(adopted, name)
  {
    forall i: nat | i < |result| ensures result[i] == adopted[i].(serving := result[i].serving) {
      ActiveAreRows(adopted, adopted[i].name);
    }
    SameActive(adopted, result, name);
  }

  lemma {:induction false} CountTells(rows: seq<Tool>, indices: seq<nat>)
    requires Positions(rows, indices) && Ascending(indices)
    ensures ServingCount(rows, indices) == 0 <==> forall i :: i in indices ==> !rows[i].serving
    ensures ServingCount(rows, indices) == 1 <==> exists i :: OnlyOne(rows, indices, i)
  {
    if indices != [] {
      var front, last := indices[..|indices| - 1], indices[|indices| - 1];
      CountTells(rows, front);
      assert indices == front + [last] && last !in front;
      if i :| OnlyOne(rows, front, i) {
        assert !rows[last].serving ==> OnlyOne(rows, indices, i);
      }
      if ServingCount(rows, front) == 0 && rows[last].serving {
        assert OnlyOne(rows, indices, last);
      }
      if i :| OnlyOne(rows, indices, i) {
        assert if i == last then ServingCount(rows, front) == 0 else OnlyOne(rows, front, i);
      }
    }
  }

  predicate OnlyOne(rows: seq<Tool>, indices: seq<nat>, i: nat)
    requires Positions(rows, indices)
  {
    i in indices && rows[i].serving && forall j :: j in indices && rows[j].serving ==> j == i
  }

  /** The row serves its name. */
  predicate Serves(rows: seq<Tool>, name: string, i: nat) {
    i < |rows| && rows[i].active && rows[i].name == name && rows[i].serving
  }

  /** And no other one does. */
  ghost predicate ServesAlone(rows: seq<Tool>, name: string, i: nat) {
    Serves(rows, name, i) && forall j :: Serves(rows, name, j) ==> j == i
  }

  lemma AloneIsOnlyOne(rows: seq<Tool>, name: string, i: nat)
    ensures Positions(rows, ActiveOf(rows, name))
    ensures ServesAlone(rows, name, i) <==> OnlyOne(rows, ActiveOf(rows, name), i)
  {
    ActiveOfAre(rows, name);
    ActiveAreRows(rows, name);
    forall j: nat ensures Serves(rows, name, j) <==> j in ActiveOf(rows, name) && rows[j].serving {
    }
  }

  /** The name's active row that no other one with a readable version outranks: a release before
      any other version, then by precedence, then the first one. */
  ghost predicate IsLatest(v: Versions, rows: seq<Tool>, name: string, i: nat) {
    && i < |rows| && rows[i].active && rows[i].name == name && v.isVersion(rows[i].version)
    && forall j: nat :: j < |rows| && rows[j].active && rows[j].name == name && v.isVersion(rows[j].version) ==>
         if v.isRelease(rows[i].version) then v.isRelease(rows[j].version) ==> Outranks(v, rows, i, j)
         else !v.isRelease(rows[j].version) && Outranks(v, rows, i, j)
  }

  lemma LatestRowIsLatest(v: Versions, rows: seq<Tool>, name: string)
    ensures Positions(rows, ActiveOf(rows, name))
    ensures var r := Latest(v, rows, ActiveOf(rows, name));
            if r.Some? then IsLatest(v, rows, name, r.value)
            else forall j :: 0 <= j < |rows| && rows[j].active && rows[j].name == name ==> !v.isVersion(rows[j].version)
  {
    var indices := ActiveOf(rows, name);
    ActiveOfAre(rows, name);
    ActiveAreRows(rows, name);
    LatestIsLatest(v, rows, indices);
    forall j: nat | j < |rows| && rows[j].active && rows[j].name == name
      ensures exists k :: 0 <= k < |indices| && indices[k] == j
    {
      assert j in indices;
    }
  }

  /** What becomes of a name with a row that lacks a digest or an admission record: served by
      exactly one active row it stays so; otherwise its latest one serves, and none does if no
      version can be read. */
  lemma LegacyNameSettles(v: Versions, rows: seq<Tool>, adopted: seq<Tool>, result: seq<Tool>, name: string)
    requires ChosenFor(v, rows, adopted, result)
    requires exists i :: 0 <= i < |rows| && rows[i].name == name && (rows[i].digest.NoDigest? || rows[i].admission.None?)
    ensures if exists i :: ServesAlone(adopted, name, i)
            then forall i :: Serves(adopted, name, i) <==> Serves(result, name, i)
            else if exists i :: IsLatest(v, adopted, name, i)
            then exists i :: IsLatest(v, adopted, name, i) && ServesAlone(result, name, i)
            else forall i :: !Serves(result, name, i)
  {
    var indices := ActiveOf(adopted, name);
    ActiveOfAre(adopted, name);
    ActiveAreRows(adopted, name);
    MigratedIsAlike(v, rows, adopted, result, name);
    LatestRowIsLatest(v, adopted, name);
    assert LegacyName(rows, name);
    forall i: nat | i in indices ensures result[i] == Rechosen(v, adopted, indices, i) {
      assert result[i] == Migrated(v, rows, adopted, i);
    }
    forall i: nat ensures Serves(result, name, i) <==> i in indices && result[i].serving {
      if i < |result| {
        assert result[i] == adopted[i].(serving := result[i].serving);
      }
    }
    CountTells(adopted, indices);
    OneServesExactly(adopted, name);
    var r := Latest(v, adopted, indices);
    if ServingCount(adopted, indices) != 1 && r.Some? {
      assert r.value in indices;
      assert ServesAlone(result, name, r.value);
    }
  }

  lemma OneServesExactly(rows: seq<Tool>, name: string)
    ensures Positions(rows, ActiveOf(rows, name))
    ensures (exists i :: ServesAlone(rows, name, i)) <==> exists i :: OnlyOne(rows, ActiveOf(rows, name), i)
  {
    ActiveAreRows(rows, name);
    if i :| ServesAlone(rows, name, i) {
      AloneIsOnlyOne(rows, name, i);
      assert OnlyOne(rows, ActiveOf(rows, name), i);
    }
    if i :| OnlyOne(rows, ActiveOf(rows, name), i) {
      AloneIsOnlyOne(rows, name, i);
      assert ServesAlone(rows, name, i);
    }
  }

  /** Adoption completes a row once and for all. */
  lemma AdoptedStaysAdopted(t: Tool, o: Origins, serving: bool)
    requires Derives(o) && Adopted(t, o).Some?
    ensures var row: Tool := Adopted(t, o).value;
            var done := row.(serving := serving);
            !IsLegacy(done) && !o.lacking(done.content) && Adopted(done, o) == Some(done)
  {
  }

  /** Migrating migrated rows changes nothing. */
  lemma MigrationIsIdempotent(v: Versions, o: Origins, rows: seq<Tool>, result: seq<Tool>, again: seq<Tool>)
    requires Derives(o) && MigratesTo(v, o, rows, result) && MigratesTo(v, o, result, again)
    ensures again == result
    ensures forall i :: 0 <= i < |result| ==> !IsLegacy(result[i]) && !o.lacking(result[i].content)
  {
    var adopted: seq<Tool> :| AllAdopted(rows, adopted, o) && ChosenFor(v, rows, adopted, result);
    MigratedIsAlike(v, rows, adopted, result, "");
    forall i | 0 <= i < |result|
      ensures !IsLegacy(result[i]) && !o.lacking(result[i].content) && Adopted(result[i], o) == Some(result[i])
    {
      AdoptedStaysAdopted(rows[i], o, result[i].serving);
      assert result[i] == adopted[i].(serving := result[i].serving);
    }
    var second: seq<Tool> :| AllAdopted(result, second, o) && ChosenFor(v, result, second, again);
    assert second == result;
    assert forall name :: !LegacyName(result, name);
  }

  /** A migrated row is the row it was but for the origins it lacked, the digest and record it
      lacked one of, and its serving mark; a row that lacked nothing of these keeps them. */
  lemma AdoptionChangesOnly(t: Tool, o: Origins)
    ensures Adopted(t, o).None? <==> o.lacking(t.content) && o.bound(t.content).None?
    ensures Adopted(t, o).Some? ==>
              var done: Tool := Adopted(t, o).value;
              && done == t.(content := done.content, digest := done.digest, admission := done.admission)
              && done.content == (if o.lacking(t.content) then o.bound(t.content).value else t.content)
              && done.digest == (if t.digest.NoDigest? || t.admission.None? then CanonicalDigest(done) else t.digest)
              && done.admission == (if t.admission.None? then Some("legacy-migration") else t.admission)
  {
  }

  lemma MigrationChangesOnly(v: Versions, o: Origins, rows: seq<Tool>, result: seq<Tool>, i: nat)
    requires MigratesTo(v, o, rows, result) && i < |rows|
    ensures |result| == |rows| && Adopted(rows[i], o).Some?
    ensures result[i] == Adopted(rows[i], o).value.(serving := result[i].serving)
  {
    var adopted: seq<Tool> :| AllAdopted(rows, adopted, o) && ChosenFor(v, rows, adopted, result);
    MigratedIsAlike(v, rows, adopted, result, "");
  }

  /** A row whose digest, if any, matched its content has a matching one after the migration if
      and only if it was a legacy row or lacked no origins: origins bound on a completely
      admitted row make its digest stale. */
  lemma DigestAfterAdoption(t: Tool, o: Origins)
    requires Derives(o) && Adopted(t, o).Some? && (t.digest.NoDigest? || t.digest == CanonicalDigest(t))
    ensures var done: Tool := Adopted(t, o).value;
            done.digest == CanonicalDigest(done) <==> IsLegacy(t) || !o.lacking(t.content)
  {
  }

  /** Such a row: admitted, with a faithful digest, but without approved origins. */
  lemma BoundOriginsLeaveAStaleDigest()
    ensures exists t: Tool, o: Origins ::
              && Derives(o) && t.digest == CanonicalDigest(t) && t.admission.Some? && o.lacking(t.content)
              && Adopted(t, o).Some? && Stale(Adopted(t, o).value)
  {
    var bare := Tool("orders", "1", "m", "no origins", "", true, true, NoDigest, Some("op"));
    var t := bare.(digest := CanonicalDigest(bare));
    var o := Origins(c => c == "no origins", c => Some("https origin"));
    assert Cleared(t) == Cleared(bare);
    DigestAfterAdoption(t, o);
    assert Stale(Adopted(t, o).value);
  }

  predicate Stale(t: Tool) {
    t.digest != CanonicalDigest(t)
  }

  /** The chosen revision, seen by a caller: names without legacy rows keep their choice. */
  lemma OtherNamesKeepTheirChoice(v: Versions, rows: seq<Tool>, adopted: seq<Tool>, result: seq<Tool>, o: Origins, i: nat)
    requires AllAdopted(rows, adopted, o) && ChosenFor(v, rows, adopted, result)
    requires i < |rows|
    requires !rows[i].active || forall j :: 0 <= j < |rows| && rows[j].name == rows[i].name ==> rows[j].digest.Sha? && rows[j].admission.Some?
    ensures result[i].serving == rows[i].serving
  {
    assert Adopted(rows[i], o) == Some(adopted[i]);
    assert result[i] == Migrated(v, rows, adopted, i);
    ActiveOfAre(adopted, adopted[i].name);
    ActiveAreRows(adopted, adopted[i].name);
  }
}
