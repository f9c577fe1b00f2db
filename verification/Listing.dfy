/** The tool listing the server publishes from its registry: aliases and exact names. */
module Listing {
  import opened Common
  import opened ToolResource
  import opened ToolRegistry
  import opened QualifiedNames

  /** What the server accepts for registration, as far as naming goes. */
  predicate Nameable(k: RevisionKey) {
    AdmissibleName(k.name) && k.version != "" && IsBytes(k.version)
  }

  ghost predicate Named(c: Catalog) {
    forall k :: k in c.tools ==> Nameable(k)
  }

  /** The revision an exact name stands for, if one is registered under it. */
  predicate ExactNameOf(c: Catalog, s: string) {
    var k := ParseQualifiedName(s);
    k.Some? && k.value in c.tools && IsBytes(k.value.version) && s == QualifiedName(k.value)
  }

  /** A name clients should see: of a served tool, or of an active revision. */
  predicate LiveName(c: Catalog, s: string) {
    s in c.serving || (ExactNameOf(c, s) && Active(c, ParseQualifiedName(s).value))
  }

  predicate Builtin(s: string) {
    |s| >= 7 && s[..7] == "system."
  }

  /** Everything published is a name of the registry, live or past. */
  ghost predicate OnlyNames(c: Catalog, published: set<string>) {
    forall s :: s in published && !Builtin(s) ==> s in c.serving || ExactNameOf(c, s)
  }

  /** Everything live is published. */
  ghost predicate ShowsAll(c: Catalog, published: set<string>)
    requires Named(c)
  {
    (forall k :: Active(c, k) ==> QualifiedName(k) in published) && forall n :: n in c.serving ==> n in published
  }

  /** The published names are those of the registry, the live ones all among them. */
  ghost predicate Covers(c: Catalog, published: set<string>)
    requires Named(c)
  {
    OnlyNames(c, published) && ShowsAll(c, published)
  }

  // ----- The filter ----------------------------------------------------------------------

  /** A published name outlives the filter if it still resolves. */
  ghost predicate Passes(c: Catalog, semver: Semver, s: string) {
    Builtin(s) || exists t :: Resolves(c, semver, LookupName(s), LookupVersion(s), Some(t))
  }

  function LookupName(s: string): string {
    var k := ParseQualifiedName(s);
    if k.Some? then k.value.name else s
  }

  function LookupVersion(s: string): string {
    var k := ParseQualifiedName(s);
    if k.Some? then k.value.version else ""
  }

  lemma ExactNameParses(k: RevisionKey)
    requires Nameable(k)
    ensures ParseQualifiedName(QualifiedName(k)) == Some(k)
  {
    QualifiedNameRoundTrip(k);
  }

  /** Of what is published the filter keeps exactly the live names, builtin ones aside. */
  lemma FilterKeepsLiveNames(c: Catalog, semver: Semver, published: set<string>, s: string)
    requires Sound(c) && Named(c) && OnlyNames(c, published) && s in published && !("system." <= s)
    ensures Passes(c, semver, s) <==> LiveName(c, s)
  {
    if s in c.serving {
      var k := Revision(s, c.serving[s]);
      assert Active(c, k) && Nameable(k);
      AliasIsNotQualified(s, k);
      assert Resolves(c, semver, LookupName(s), LookupVersion(s), Some(c.tools[k]));
    } else {
      var k := ParseQualifiedName(s).value;
      assert Nameable(k) && Revision(k.name, k.version) == k;
      if Active(c, k) {
        assert Resolves(c, semver, LookupName(s), LookupVersion(s), Some(c.tools[k]));
      }
    }
  }

  /** While the published names cover the registry, the listing shows, outside the builtin
      names, exactly one alias per served name and one exact name per active revision. */
  lemma ListingIsExact(c: Catalog, semver: Semver, published: set<string>, s: string)
    requires Sound(c) && Named(c) && Covers(c, published) && !("system." <= s)
    ensures s in published && Passes(c, semver, s) <==> LiveName(c, s)
  {
    if s in published {
      FilterKeepsLiveNames(c, semver, published, s);
    }
  }

  /** Unless exact names are advertised, what is listed to clients has no name that reads as
      one. */
  ghost predicate Shown(c: Catalog, semver: Semver, published: set<string>, advertised: bool, s: string) {
    s in published && Passes(c, semver, s) && (advertised || ParseQualifiedName(s).None?)
  }

  /** So clients are shown exactly one alias per served name, and besides, if advertised, one
      exact name per active revision; by its exact name a revision stays callable either way. */
  lemma ClientsSeeExactly(c: Catalog, semver: Semver, published: set<string>, advertised: bool, s: string)
    requires Sound(c) && Named(c) && Covers(c, published) && !("system." <= s)
    ensures Shown(c, semver, published, advertised, s) <==> s in c.serving || (advertised && LiveName(c, s))
  {
    ListingIsExact(c, semver, published, s);
    if s in c.serving {
      var k := Revision(s, c.serving[s]);
      assert Active(c, k) && Nameable(k);
      AliasIsNotQualified(s, k);
    }
  }

  /** Distinct revisions have distinct exact names, and none is an alias. */
  lemma ListedNamesAreDistinct(j: RevisionKey, k: RevisionKey, alias: string)
    requires Nameable(j) && Nameable(k) && AdmissibleName(alias)
    ensures QualifiedName(j) == QualifiedName(k) <==> j == k
    ensures QualifiedName(k) != alias
  {
    QualifiedNameRoundTrip(j);
    QualifiedNameRoundTrip(k);
    AliasIsNotQualified(alias, k);
  }

  // ----- Republishing one name -----------------------------------------------------------

  /** Two registries that differ in revisions of one name only. */
  ghost predicate DifferAt(c: Catalog, d: Catalog, name: string) {
    && (forall k :: k in c.tools ==> k in d.tools)
    && (forall k :: k in d.tools && k.name != name ==> k in c.tools && d.tools[k].active == c.tools[k].active)
    && (forall n :: n != name ==> (n in d.serving <==> n in c.serving))
  }

  lemma AddDiffers(c: Catalog, t: Tool, servingDefault: bool)
    ensures DifferAt(c, AfterAdd(c, t, servingDefault), t.name)
    ensures forall k :: k in AfterAdd(c, t, servingDefault).tools ==> k in c.tools || k == t.Key()
  {
  }

  lemma RemoveDiffers(c: Catalog, k: RevisionKey)
    ensures DifferAt(c, AfterRemove(c, k), k.name)
    ensures AfterRemove(c, k).tools.Keys == c.tools.Keys
  {
  }

  /** An exact name of an active revision of this tool. */
  predicate LiveExactName(c: Catalog, name: string, s: string) {
    ExactNameOf(c, s) && ParseQualifiedName(s).value.name == name && Active(c, ParseQualifiedName(s).value)
  }

  lemma LiveExactNameOf(c: Catalog, k: RevisionKey)
    requires Named(c) && Active(c, k)
    ensures LiveExactName(c, k.name, QualifiedName(k))
  {
    ExactNameParses(k);
  }

  /** The listed revisions are the active ones. */
  ghost predicate Lists(c: Catalog, listed: seq<Tool>) {
    && (forall i :: 0 <= i < |listed| ==> Active(c, listed[i].Key()) && c.tools[listed[i].Key()] == listed[i])
    && (forall k :: Active(c, k) ==> c.tools[k] in listed)
  }

  /** The first `i` of the listed revisions have been published as far as they have this name. */
  ghost predicate PublishedUpTo(c: Catalog, name: string, listed: seq<Tool>, i: nat, before: set<string>, now: set<string>)
    requires Named(c) && Lists(c, listed) && i <= |listed|
  {
    && before <= now
    && (forall j :: 0 <= j < i && listed[j].name == name ==> QualifiedName(listed[j].Key()) in now)
    && (forall s :: s in now ==> s in before || LiveExactName(c, name, s))
  }

  lemma PublishedOneMore(c: Catalog, name: string, listed: seq<Tool>, i: nat, before: set<string>, now: set<string>)
    requires Named(c) && Lists(c, listed) && i < |listed| && PublishedUpTo(c, name, listed, i, before, now)
    ensures PublishedUpTo(c, name, listed, i + 1, before,
                          if listed[i].name == name then now + {QualifiedName(listed[i].Key())} else now)
  {
    LiveExactNameOf(c, listed[i].Key());
  }

  lemma PublishedAll(c: Catalog, name: string, listed: seq<Tool>, before: set<string>, now: set<string>)
    requires Filed(c) && Named(c) && Lists(c, listed) && PublishedUpTo(c, name, listed, |listed|, before, now)
    ensures forall s :: s in now <==> s in before || LiveExactName(c, name, s)
  {
    forall s | LiveExactName(c, name, s) ensures s in now {
      assert c.tools[ParseQualifiedName(s).value] in listed;
    }
  }

  /** Republishing a name adds the exact names of its active revisions, and keeps the name
      itself exactly if it is served. */
  ghost predicate Refreshed(c: Catalog, name: string, before: set<string>, after: set<string>) {
    && (name in after <==> name in c.serving)
    && forall s :: s != name ==> (s in after <==> s in before || LiveExactName(c, name, s))
  }

  /** The name is really the exact name of an active revision. */
  ghost predicate NamesLiveRevision(c: Catalog, name: string)
    requires Named(c)
  {
    exists k :: Active(c, k) && QualifiedName(k) == name
  }

  lemma RefreshAddsNothingElse(c: Catalog, d: Catalog, name: string, before: set<string>, after: set<string>)
    requires Named(c) && OnlyNames(c, before) && DifferAt(c, d, name) && Refreshed(d, name, before, after)
    ensures OnlyNames(d, after)
  {
    forall s | s in after && !Builtin(s) ensures s in d.serving || ExactNameOf(d, s) {
      if s != name && s in before {
        assert s in c.serving || ExactNameOf(c, s);
      }
    }
  }

  lemma RefreshShowsAll(c: Catalog, d: Catalog, name: string, before: set<string>, after: set<string>)
    requires Named(c) && Named(d) && ShowsAll(c, before) && DifferAt(c, d, name) && Refreshed(d, name, before, after)
    requires !NamesLiveRevision(d, name)
    ensures ShowsAll(d, after)
  {
    forall k | Active(d, k) ensures QualifiedName(k) in after {
      assert QualifiedName(k) != name;
      if k.name == name {
        ExactNameParses(k);
        assert LiveExactName(d, name, QualifiedName(k));
      } else {
        assert Active(c, k);
      }
    }
  }

  /** Republishing the one name that changed restores the cover, unless that name is the exact
      name of an active revision: then it takes that revision off the listing. */
  lemma RefreshRestoresCoverExactly(c: Catalog, d: Catalog, name: string, before: set<string>, after: set<string>)
    requires Sound(d) && Named(c) && Named(d) && Covers(c, before)
    requires DifferAt(c, d, name) && Refreshed(d, name, before, after)
    ensures Covers(d, after) <==> !NamesLiveRevision(d, name)
  {
    RefreshAddsNothingElse(c, d, name, before, after);
    if NamesLiveRevision(d, name) {
      var k :| Active(d, k) && QualifiedName(k) == name;
      if name in d.serving {
        assert Nameable(Revision(name, d.serving[name]));
        AliasIsNotQualified(name, k);
      }
    } else {
      RefreshShowsAll(c, d, name, before, after);
    }
  }

  /** An admissible name is the exact name of nothing. */
  lemma AdmissibleNamesAreSafe(c: Catalog, name: string)
    requires Named(c) && AdmissibleName(name)
    ensures !NamesLiveRevision(c, name)
  {
    forall k | Active(c, k) ensures QualifiedName(k) != name {
      AliasIsNotQualified(name, k);
    }
  }

  /** A withdrawal that names an exact alias as the tool leaves the registry alone, but takes
      the active revision of that alias off the listing. */
  lemma WithdrawingAnAliasUnpublishes(c: Catalog, published: set<string>, k: RevisionKey, version: string, after: set<string>)
    requires Sound(c) && Named(c) && Active(c, k)
    requires Refreshed(AfterRemove(c, Revision(QualifiedName(k), version)), QualifiedName(k), published, after)
    ensures AfterRemove(c, Revision(QualifiedName(k), version)) == c
    ensures LiveName(c, QualifiedName(k)) && QualifiedName(k) !in after && !Covers(c, after)
  {
    var s := QualifiedName(k);
    ExactNameParses(k);
    if Revision(s, version) in c.tools {
      AliasIsNotQualified(s, k);
    }
    if s in c.serving {
      assert Nameable(Revision(s, c.serving[s]));
      AliasIsNotQualified(s, k);
    }
  }

  /** It takes one registered revision for that. */
  lemma AnAliasToWithdraw()
    ensures exists c, k :: Sound(c) && Named(c) && Active(c, k) && Covers(c, {QualifiedName(k)}) && Refreshed(c, QualifiedName(k), {QualifiedName(k)}, {})
  {
    var k := Revision("a", "1");
    var c := Catalog(map[k := Tool("a", "1", "m", "x", "", true, false, NoDigest, None)], map[]);
    assert !ContainsSeparator("a");
    ExactNameParses(k);
    assert Active(c, k) && Sound(c) && Named(c);
    OnlyOneName(c, k);
  }

  lemma OnlyOneName(c: Catalog, k: RevisionKey)
    requires Named(c) && c.tools.Keys == {k} && c.serving == map[] && Nameable(k)
    ensures Covers(c, {QualifiedName(k)}) && Refreshed(c, QualifiedName(k), {QualifiedName(k)}, {})
  {
    ExactNameParses(k);
    forall s | s != QualifiedName(k) ensures !LiveExactName(c, QualifiedName(k), s) {
    }
  }
}
