/** Store, registry and reconciliation together: what applying and deleting tools keeps,
    whatever fails on the way, and what a successful pass restores. */
module ControlPlane {
  import opened Common
  import opened ToolResource
  import Store = AdmissionStore
  import opened ToolRegistry
  import opened Reconciler

  /** The checks a resource meets: on being applied, and besides on being registered, where
      its version must be a semantic one and its descriptor must be projectable.  Both look
      at executable content only. */
  datatype Rules = Rules(validates: Tool -> bool, registers: Tool -> bool)

  ghost predicate Sensible(rules: Rules) {
    forall t :: rules.validates(t) ==> t.version != ""
  }

  predicate Accepted(rules: Rules, t: Tool) {
    rules.validates(Cleared(t)) && rules.registers(Cleared(t))
  }

  /** The stored rows, the registry, and whether the stored state differs from the one the
      last successful pass has read. */
  datatype Control = Control(rows: Store.Rows, catalog: Catalog, dirty: bool)

  /** Besides requests and ticks: a write to the store that concerns no tool, of a plugin or a
      binding, and a restart, which starts with an empty registry and remembers no pass. */
  datatype Event = Apply(tool: Tool, actor: string) | Delete(key: RevisionKey, hard: bool) | Tick | OtherWrite | Restart

  // ----- The events ----------------------------------------------------------------------

  /** A reading of the store: every row once, in any order. */
  ghost predicate Reads(listing: seq<Tool>, rows: Store.Rows) {
    && (forall i :: 0 <= i < |listing| ==> listing[i].Key() in rows && rows[listing[i].Key()] == listing[i])
    && (forall i, j :: 0 <= i < j < |listing| ==> listing[i].Key() != listing[j].Key())
    && (forall k :: k in rows ==> rows[k] in listing)
  }

  /** Every active row passes registration; one that does not stops each pass. */
  ghost predicate RowsAccepted(rules: Rules, rows: Store.Rows) {
    forall k :: k in rows && rows[k].active ==> Accepted(rules, rows[k])
  }

  /** A pass that runs to its end. */
  ghost predicate PassSucceeds(rules: Rules, s: Control, s': Control) {
    && s.dirty && !s'.dirty && s'.rows == s.rows && RowsAccepted(rules, s.rows)
    && exists listing :: Reads(listing, s.rows) && Reconciled(s.catalog, s'.catalog, listing)
  }

  /** A pass that stops at a row, or before the first one. */
  ghost predicate PassFails(rules: Rules, s: Control, s': Control) {
    && s.dirty && s'.dirty && s'.rows == s.rows
    && (s'.catalog == s.catalog
        || (!RowsAccepted(rules, s.rows)
            && exists listing :: Reads(listing, s.rows) && Undisturbed(s.catalog, s'.catalog, listing)))
  }

  /** A pass is skipped when the stored state is the one last read. */
  ghost predicate Pass(rules: Rules, s: Control, s': Control) {
    (!s.dirty && s' == s) || PassSucceeds(rules, s, s') || PassFails(rules, s, s')
  }

  /** A write that changes rows shows in the state hash; one that does not may, by its time. */
  predicate Shows(s: Control, rows: Store.Rows, dirty: bool) {
    (s.dirty || rows != s.rows) ==> dirty
  }

  ghost function Row(s: Control, t: Tool, actor: string): Tool {
    Store.AdmittedRow(s.rows, t, actor)
  }

  /** The resource is admitted and, if it passes, registered at once. */
  ghost function Admitted(rules: Rules, s: Control, t: Tool, actor: string, dirty: bool): Control {
    Control(Store.AfterAdmit(s.rows, t, actor),
            if Accepted(rules, t) then AfterAdd(s.catalog, Row(s, t, actor), true) else s.catalog, dirty)
  }

  ghost function RowsWithout(rows: Store.Rows, k: RevisionKey, hard: bool): Store.Rows {
    if hard then Store.AfterHardDelete(rows, k) else Store.AfterDelete(rows, k)
  }

  predicate Admissible(rules: Rules, s: Control, t: Tool) {
    t.active && rules.validates(Cleared(t)) && !Store.Conflicts(s.rows, t)
  }

  function Restarted(s: Control): Control {
    Control(s.rows, Catalog(map[], map[]), true)
  }

  /** Everything an event can come to: refused or failed before it had an effect, stopped half
      way, or followed by a pass. */
  ghost predicate Step(rules: Rules, s: Control, e: Event, s': Control) {
    match e
    case Tick => Pass(rules, s, s')
    case OtherWrite => s' == s || s' == s.(dirty := true)
    case Restart => s' == Restarted(s)
    case Apply(t, actor) =>
      || s' == s
      || (Admissible(rules, s, t)
          && exists dirty :: Shows(s, Store.AfterAdmit(s.rows, t, actor), dirty)
               && var m := Admitted(rules, s, t, actor, dirty);
                  if Accepted(rules, t) then Pass(rules, m, s') else s' == m)
    case Delete(k, hard) =>
      || s' == s
      || s' == s.(catalog := AfterRemove(s.catalog, k))
      || exists dirty :: Shows(s, RowsWithout(s.rows, k, hard), dirty)
           && Pass(rules, Control(RowsWithout(s.rows, k, hard), AfterRemove(s.catalog, k), dirty), s')
  }

  // ----- What holds throughout -----------------------------------------------------------

  /** Builtin revisions are live only as long as their row wants them: no pass removes them. */
  ghost predicate BuiltinsStored(c: Catalog, rows: Store.Rows) {
    forall k :: Active(c, k) && c.tools[k].moduleName == BUILTIN ==> k in rows && rows[k].active
  }

  /** Store and registry are sound, each for itself. */
  ghost predicate Orderly(s: Control) {
    Store.Sound(s.rows) && Sound(s.catalog) && AllManaged(s.catalog) && BuiltinsStored(s.catalog, s.rows)
  }

  /** Exactly the active rows are live. */
  ghost predicate RowsExact(c: Catalog, rows: Store.Rows) {
    && (forall k :: k in rows && rows[k].active ==> InForce(c, rows[k]))
    && (forall k :: Active(c, k) ==> k in rows && rows[k].active)
  }

  /** The registry is exactly what the stored rows ask for. */
  ghost predicate InSync(s: Control) {
    Orderly(s) && Agreed(s.catalog) && RowsExact(s.catalog, s.rows)
  }

  // ----- Reading the store ---------------------------------------------------------------

  lemma ReadingIsOrderly(listing: seq<Tool>, rows: Store.Rows)
    requires Store.Sound(rows) && Reads(listing, rows)
    ensures OneRowEach(listing) && ManagedRows(listing)
  {
    forall i, j | 0 <= i < j < |listing| && listing[i].active && listing[j].active && listing[i].name == listing[j].name
      ensures !(listing[i].serving && listing[j].serving)
    {
      assert rows[listing[i].Key()] == listing[i] && rows[listing[j].Key()] == listing[j];
    }
    forall i | 0 <= i < |listing| ensures Managed(listing[i]) {
      assert rows[listing[i].Key()] == listing[i];
    }
  }

  lemma WantedIsStored(listing: seq<Tool>, rows: Store.Rows, k: RevisionKey)
    requires Store.Filed(rows) && Reads(listing, rows)
    ensures k in Wanted(listing) <==> k in rows && rows[k].active
  {
    if k in rows && rows[k].active {
      assert rows[k] in listing;
      var i :| 0 <= i < |listing| && listing[i] == rows[k];
      assert listing[i].Key() == k;
    }
    if k in Wanted(listing) {
      var i :| 0 <= i < |listing| && listing[i].active && listing[i].Key() == k;
      assert rows[listing[i].Key()] == listing[i];
    }
  }

  lemma ExactForReading(c: Catalog, listing: seq<Tool>, rows: Store.Rows)
    requires Store.Filed(rows) && Reads(listing, rows)
    ensures Exact(c, listing) <==> RowsExact(c, rows)
  {
    forall k ensures k in Wanted(listing) <==> k in rows && rows[k].active {
      WantedIsStored(listing, rows, k);
    }
    if Exact(c, listing) {
      forall k | k in rows && rows[k].active ensures InForce(c, rows[k]) {
        assert rows[k] in listing;
      }
    }
    if RowsExact(c, rows) {
      forall i | 0 <= i < |listing| && listing[i].active ensures InForce(c, listing[i]) {
        assert rows[listing[i].Key()] == listing[i];
      }
    }
  }

  /** Faithful digests tell revisions apart: they cover name and version. */
  lemma FaithfulDigestsTell(c: Catalog, listing: seq<Tool>)
    requires Filed(c) && AllManaged(c) && ManagedRows(listing)
    requires forall i, j :: 0 <= i < j < |listing| ==> listing[i].Key() != listing[j].Key()
    ensures DigestsTell(c, listing)
  {
    forall i, k | 0 <= i < |listing| && listing[i].active && Active(c, k) && c.tools[k].digest == listing[i].digest
      ensures k == listing[i].Key()
    {
      assert Managed(c.tools[k]) && Managed(listing[i]) && c.tools[k].Key() == k;
      DigestCoversExecutableContent(c.tools[k], listing[i]);
    }
    forall i, j | 0 <= i < j < |listing| ensures listing[i].digest != listing[j].digest {
      assert Managed(listing[i]) && Managed(listing[j]);
      DigestCoversExecutableContent(listing[i], listing[j]);
    }
  }

  predicate ServingStored(rows: Store.Rows, name: string) {
    exists k :: k in rows && k.name == name && rows[k].active && rows[k].serving
  }

  lemma ServingForReading(listing: seq<Tool>, rows: Store.Rows, name: string)
    requires Store.Filed(rows) && Reads(listing, rows)
    ensures HasServingRow(listing, name) <==> ServingStored(rows, name)
  {
    if ServingStored(rows, name) {
      var k :| k in rows && k.name == name && rows[k].active && rows[k].serving;
      assert rows[k] in listing && rows[k].Key() == k;
    }
    if HasServingRow(listing, name) {
      var i :| 0 <= i < |listing| && listing[i].active && listing[i].serving && listing[i].name == name;
      assert rows[listing[i].Key()] == listing[i] && listing[i].Key().name == name;
    }
  }

  // ----- Passes --------------------------------------------------------------------------

  lemma UndisturbedKeepsBuiltins(c: Catalog, d: Catalog, listing: seq<Tool>, rows: Store.Rows)
    requires Store.Filed(rows) && Reads(listing, rows) && Undisturbed(c, d, listing) && BuiltinsStored(c, rows)
    ensures BuiltinsStored(d, rows)
  {
    forall k | Active(d, k) && d.tools[k].moduleName == BUILTIN ensures k in rows && rows[k].active {
      WantedIsStored(listing, rows, k);
    }
  }

  lemma PassKeepsOrderly(rules: Rules, s: Control, s': Control)
    requires Orderly(s) && Pass(rules, s, s')
    ensures Orderly(s') && s'.rows == s.rows && (Agreed(s.catalog) ==> Agreed(s'.catalog))
  {
    if s'.catalog != s.catalog {
      var listing :| Reads(listing, s.rows) && Undisturbed(s.catalog, s'.catalog, listing);
      ReadingIsOrderly(listing, s.rows);
      UndisturbedKeepsBuiltins(s.catalog, s'.catalog, listing, s.rows);
    }
  }

  /** The name is served by a version whose row is in force already, though neither that row
      nor another one of the name says so: the pass finds nothing to do about it. */
  ghost predicate Stuck(s: Control, n: string) {
    && n in s.catalog.serving && !ServingStored(s.rows, n)
    && var k := Revision(n, s.catalog.serving[n]); k in s.rows && s.rows[k].active && InForce(s.catalog, s.rows[k])
  }

  lemma StaysServedIfStuck(s: Control, listing: seq<Tool>, n: string)
    requires Orderly(s) && Reads(listing, s.rows) && !ServingStored(s.rows, n)
    ensures StaysServed(s.catalog, listing, n) <==> Stuck(s, n)
  {
    if n in s.catalog.serving {
      var k := Revision(n, s.catalog.serving[n]);
      assert Active(s.catalog, k);
      WantedIsStored(listing, s.rows, k);
      if k in s.rows {
        assert s.rows[k] in listing && s.rows[k].Key() == k;
      }
      forall i | 0 <= i < |listing| && listing[i].Key() == k ensures k in s.rows && s.rows[k] == listing[i] {
        assert listing[i].Key() in s.rows;
      }
    }
  }

  lemma PassMakesExact(rules: Rules, s: Control, s': Control) returns (listing: seq<Tool>)
    requires Orderly(s) && PassSucceeds(rules, s, s')
    ensures Reads(listing, s.rows) && Reconciled(s.catalog, s'.catalog, listing) && Reconcilable(s.catalog, listing)
    ensures Exact(s'.catalog, listing)
  {
    listing :| Reads(listing, s.rows) && Reconciled(s.catalog, s'.catalog, listing);
    PassKeepsOrderly(rules, s, s');
    ReadingIsOrderly(listing, s.rows);
    FaithfulDigestsTell(s.catalog, listing);
    forall k | Active(s'.catalog, k) ensures k in Wanted(listing) {
      WantedIsStored(listing, s.rows, k);
    }
  }

  /** A successful pass makes exactly the active rows live, whatever happened before; it puts
      store and registry in step if and only if no name was stuck, and none is while flags and
      pointers agree. */
  lemma SuccessfulPassRestores(rules: Rules, s: Control, s': Control)
    requires Orderly(s) && PassSucceeds(rules, s, s')
    ensures RowsExact(s'.catalog, s'.rows)
    ensures InSync(s') <==> forall n :: !Stuck(s, n)
    ensures Agreed(s.catalog) ==> InSync(s')
  {
    var listing := PassMakesExact(rules, s, s');
    PassKeepsOrderly(rules, s, s');
    ExactForReading(s'.catalog, listing, s.rows);
    ExactAgreesExactly(s'.catalog, listing);
    forall n ensures Stuck(s, n) <==> n in s'.catalog.serving && !HasServingRow(listing, n) {
      ServingForReading(listing, s.rows, n);
      if !ServingStored(s.rows, n) {
        StaysServedIfStuck(s, listing, n);
      }
    }
  }

  // ----- Requests ------------------------------------------------------------------------

  lemma RowIsManaged(s: Control, t: Tool, actor: string)
    ensures Managed(Row(s, t, actor)) && Row(s, t, actor).Key() == t.Key()
    ensures Row(s, t, actor).moduleName == t.moduleName && Row(s, t, actor).active == t.active
  {
  }

  lemma AdmissionKeepsActive(rows: Store.Rows, t: Tool, actor: string, k: RevisionKey)
    requires t.active && !Store.Conflicts(rows, t)
    requires k == t.Key() || (k in rows && rows[k].active)
    ensures k in Store.AfterAdmit(rows, t, actor) && Store.AfterAdmit(rows, t, actor)[k].active
  {
  }

  lemma AdditionActivates(c: Catalog, t: Tool, k: RevisionKey)
    requires Active(AfterAdd(c, t, true), k) && k != t.Key()
    ensures Active(c, k) && AfterAdd(c, t, true).tools[k].moduleName == c.tools[k].moduleName
  {
  }

  lemma AdmissionKeepsBuiltins(rules: Rules, s: Control, t: Tool, actor: string, dirty: bool)
    requires Orderly(s) && Admissible(rules, s, t)
    ensures var m := Admitted(rules, s, t, actor, dirty); BuiltinsStored(m.catalog, m.rows)
  {
    var m, row := Admitted(rules, s, t, actor, dirty), Row(s, t, actor);
    RowIsManaged(s, t, actor);
    forall k | Active(m.catalog, k) && m.catalog.tools[k].moduleName == BUILTIN ensures k in m.rows && m.rows[k].active {
      if k != t.Key() && Accepted(rules, t) {
        AdditionActivates(s.catalog, row, k);
      }
      AdmissionKeepsActive(s.rows, t, actor, k);
    }
  }

  lemma AdmissionKeepsOrderly(rules: Rules, s: Control, t: Tool, actor: string, dirty: bool)
    requires Sensible(rules) && Orderly(s) && Admissible(rules, s, t)
    ensures Orderly(Admitted(rules, s, t, actor, dirty))
  {
    Store.AdmitKeepsSound(s.rows, t, actor);
    AdmissionKeepsBuiltins(rules, s, t, actor, dirty);
    RowIsManaged(s, t, actor);
    assert Cleared(t).version == t.version;
    AddKeepsSound(s.catalog, Row(s, t, actor), true);
    AdditionKeepsManaged(s.catalog, Row(s, t, actor), true);
  }

  lemma RemovalKeepsBuiltins(c: Catalog, rows: Store.Rows, k: RevisionKey, hard: bool)
    requires BuiltinsStored(c, rows)
    ensures BuiltinsStored(AfterRemove(c, k), rows) && BuiltinsStored(AfterRemove(c, k), RowsWithout(rows, k, hard))
  {
    var d := AfterRemove(c, k);
    forall j | Active(d, j) && d.tools[j].moduleName == BUILTIN
      ensures j != k && j in rows && rows[j].active
    {
      assert Active(c, j);
    }
  }

  lemma RowsWithoutStaySound(rows: Store.Rows, k: RevisionKey, hard: bool)
    requires Store.Sound(rows)
    ensures Store.Sound(RowsWithout(rows, k, hard))
  {
  }

  lemma RemovalKeepsCatalog(c: Catalog, k: RevisionKey)
    requires Sound(c) && AllManaged(c)
    ensures Sound(AfterRemove(c, k)) && AllManaged(AfterRemove(c, k))
    ensures Agreed(c) ==> Agreed(AfterRemove(c, k))
  {
    RemoveKeepsSound(c, k);
    RemovalKeepsManaged(c, k);
  }

  lemma RemovalKeepsOrderly(s: Control, k: RevisionKey, hard: bool, dirty: bool)
    requires Orderly(s)
    ensures Orderly(s.(catalog := AfterRemove(s.catalog, k)))
    ensures Orderly(Control(RowsWithout(s.rows, k, hard), AfterRemove(s.catalog, k), dirty))
    ensures Agreed(s.catalog) ==> Agreed(AfterRemove(s.catalog, k))
  {
    RemovalKeepsCatalog(s.catalog, k);
    RowsWithoutStaySound(s.rows, k, hard);
    RemovalKeepsBuiltins(s.catalog, s.rows, k, hard);
  }

  /** Whatever fails, store and registry stay sound. */
  lemma StepKeepsOrderly(rules: Rules, s: Control, e: Event, s': Control)
    requires Sensible(rules) && Orderly(s) && Step(rules, s, e, s')
    ensures Orderly(s')
  {
    if s' != s {
      match e {
        case Tick => PassKeepsOrderly(rules, s, s');
        case OtherWrite =>
        case Restart =>
        case Apply(t, actor) =>
          var dirty :| Shows(s, Store.AfterAdmit(s.rows, t, actor), dirty)
                       && var m := Admitted(rules, s, t, actor, dirty);
                          if Accepted(rules, t) then Pass(rules, m, s') else s' == m;
          AdmissionKeepsOrderly(rules, s, t, actor, dirty);
          if Accepted(rules, t) {
            PassKeepsOrderly(rules, Admitted(rules, s, t, actor, dirty), s');
          }
        case Delete(k, hard) =>
          RemovalKeepsOrderly(s, k, hard, s.dirty);
          if s' != s.(catalog := AfterRemove(s.catalog, k)) {
            var dirty :| Shows(s, RowsWithout(s.rows, k, hard), dirty)
              && Pass(rules, Control(RowsWithout(s.rows, k, hard), AfterRemove(s.catalog, k), dirty), s');
            RemovalKeepsOrderly(s, k, hard, dirty);
            PassKeepsOrderly(rules, Control(RowsWithout(s.rows, k, hard), AfterRemove(s.catalog, k), dirty), s');
          }
      }
    }
  }

  // ----- Flags and pointers --------------------------------------------------------------

  /** The resource is re-applied without a serving claim, while its name is still served by
      that version in the registry. */
  ghost predicate Parts(rules: Rules, s: Control, e: Event) {
    && e.Apply? && Admissible(rules, s, e.tool) && Accepted(rules, e.tool)
    && !Row(s, e.tool, e.actor).serving && Pointer(s.catalog, e.tool.name) == e.tool.version
  }

  /** Applying a tool keeps flags and pointers in step if and only if it does not part them. */
  lemma ApplyKeepsAgreedExactly(rules: Rules, s: Control, t: Tool, actor: string, dirty: bool)
    requires Sensible(rules) && Orderly(s) && Agreed(s.catalog) && Admissible(rules, s, t)
    ensures Agreed(Admitted(rules, s, t, actor, dirty).catalog) <==> !Parts(rules, s, Apply(t, actor))
  {
    RowIsManaged(s, t, actor);
    assert Cleared(t).version == t.version;
    if Accepted(rules, t) {
      AddKeepsAgreedExactly(s.catalog, Row(s, t, actor), true);
    }
  }

  lemma StepKeepsAgreed(rules: Rules, s: Control, e: Event, s': Control)
    requires Sensible(rules) && Orderly(s) && Agreed(s.catalog) && Step(rules, s, e, s') && !Parts(rules, s, e)
    ensures Agreed(s'.catalog)
  {
    if s' != s {
      match e {
        case Tick => PassKeepsOrderly(rules, s, s');
        case OtherWrite =>
        case Restart =>
        case Apply(t, actor) =>
          var dirty :| Shows(s, Store.AfterAdmit(s.rows, t, actor), dirty)
                       && var m := Admitted(rules, s, t, actor, dirty);
                          if Accepted(rules, t) then Pass(rules, m, s') else s' == m;
          AdmissionKeepsOrderly(rules, s, t, actor, dirty);
          ApplyKeepsAgreedExactly(rules, s, t, actor, dirty);
          if Accepted(rules, t) {
            PassKeepsOrderly(rules, Admitted(rules, s, t, actor, dirty), s');
          }
        case Delete(k, hard) =>
          RemovalKeepsOrderly(s, k, hard, s.dirty);
          if s' != s.(catalog := AfterRemove(s.catalog, k)) {
            var dirty :| Shows(s, RowsWithout(s.rows, k, hard), dirty)
              && Pass(rules, Control(RowsWithout(s.rows, k, hard), AfterRemove(s.catalog, k), dirty), s');
            RemovalKeepsOrderly(s, k, hard, dirty);
            PassKeepsOrderly(rules, Control(RowsWithout(s.rows, k, hard), AfterRemove(s.catalog, k), dirty), s');
          }
      }
    }
  }

  /** The version a name is served by is flagged as serving in the store as well. */
  lemma ServedIsStored(s: Control, name: string)
    requires InSync(s) && name in s.catalog.serving
    ensures var k := Revision(name, s.catalog.serving[name]); k in s.rows && s.rows[k].serving
  {
    var k := Revision(name, s.catalog.serving[name]);
    assert Active(s.catalog, k) && s.catalog.tools[k].serving;
    assert InForce(s.catalog, s.rows[k]) && s.rows[k].Key() == k;
  }

  /** With store and registry in step no request can part flag and pointer. */
  lemma InSyncNeverParts(rules: Rules, s: Control, e: Event)
    requires Sensible(rules) && InSync(s)
    ensures !Parts(rules, s, e)
  {
    if Parts(rules, s, e) {
      assert Cleared(e.tool).version == e.tool.version;
      ServedIsStored(s, e.tool.name);
    }
  }

  // ----- Runs with any failures ----------------------------------------------------------

  ghost predicate Trace(rules: Rules, states: seq<Control>, events: seq<Event>) {
    |states| == |events| + 1 && forall i :: 0 <= i < |events| ==> Step(rules, states[i], events[i], states[i + 1])
  }

  /** Over every run, whatever fails in it, store and registry stay sound. */
  lemma {:induction false} EveryRunStaysOrderly(rules: Rules, states: seq<Control>, events: seq<Event>, n: nat)
    requires Sensible(rules) && Trace(rules, states, events) && n < |states| && Orderly(states[0])
    ensures Orderly(states[n])
  {
    if n > 0 {
      EveryRunStaysOrderly(rules, states, events, n - 1);
      StepKeepsOrderly(rules, states[n - 1], events[n - 1], states[n]);
    }
  }

  /** A run that starts in step and parts nothing is in step again after its next successful
      pass, whatever has failed before. */
  lemma {:induction false} EveryRunRecovers(rules: Rules, states: seq<Control>, events: seq<Event>, n: nat)
    requires Sensible(rules) && Trace(rules, states, events) && n < |states| && InSync(states[0])
    requires forall i :: 0 <= i < n ==> !Parts(rules, states[i], events[i])
    ensures Orderly(states[n]) && Agreed(states[n].catalog)
    ensures forall s' :: PassSucceeds(rules, states[n], s') ==> InSync(s')
  {
    if n > 0 {
      EveryRunRecovers(rules, states, events, n - 1);
      StepKeepsOrderly(rules, states[n - 1], events[n - 1], states[n]);
      StepKeepsAgreed(rules, states[n - 1], events[n - 1], states[n]);
    }
    forall s' | PassSucceeds(rules, states[n], s') ensures InSync(s') {
      SuccessfulPassRestores(rules, states[n], s');
    }
  }

  /** A restart forgets whatever parted flags and pointers: the first pass behind it puts store
      and registry in step. */
  lemma RestartRepairs(rules: Rules, s: Control, m: Control, s': Control)
    requires Orderly(s) && Step(rules, s, Restart, m) && Step(rules, m, Tick, s') && !s'.dirty
    ensures InSync(s')
  {
    SuccessfulPassRestores(rules, m, s');
  }

  // ----- What requests come to -----------------------------------------------------------

  /** A change of the rows cannot go unnoticed: when the stored state counts as read again, all
      active rows are live and nothing else is. */
  lemma ChangesAreNotOverlooked(rules: Rules, s: Control, e: Event, s': Control)
    requires Sensible(rules) && Orderly(s) && Step(rules, s, e, s') && s'.rows != s.rows && !s'.dirty
    ensures RowsExact(s'.catalog, s'.rows)
  {
    match e
    case Apply(t, actor) =>
      AdmissionKeepsOrderly(rules, s, t, actor, true);
      SuccessfulPassRestores(rules, Admitted(rules, s, t, actor, true), s');
    case Delete(k, hard) =>
      RemovalKeepsOrderly(s, k, hard, true);
      SuccessfulPassRestores(rules, Control(RowsWithout(s.rows, k, hard), AfterRemove(s.catalog, k), true), s');
    case _ =>
  }

  /** A request to apply a resource stores it or does nothing; what the registry refuses stays
      out of it. */
  lemma ApplyStoresOrNothing(rules: Rules, s: Control, t: Tool, actor: string, s': Control)
    requires Step(rules, s, Apply(t, actor), s') && s' != s
    ensures s'.rows == Store.AfterAdmit(s.rows, t, actor)
    ensures t.active && rules.validates(Cleared(t)) && (t.Key() in s.rows ==> CanonicalDigest(s.rows[t.Key()]) == CanonicalDigest(t))
    ensures !rules.registers(Cleared(t)) ==> s'.catalog == s.catalog
  {
  }

  /** A request to delete a revision that has any effect leaves it unregistered, whatever fails
      behind it, and its row, if it gets so far, inactive or gone as asked. */
  lemma DeleteUnregisters(rules: Rules, s: Control, k: RevisionKey, hard: bool, s': Control)
    requires Store.Filed(s.rows) && Step(rules, s, Delete(k, hard), s') && s' != s
    ensures !Active(s'.catalog, k)
    ensures s'.rows == s.rows || if hard then s'.rows == s.rows - {k} else k in s.rows && s'.rows == s.rows[k := s.rows[k].(active := false, serving := false)]
  {
    var rows, d := RowsWithout(s.rows, k, hard), AfterRemove(s.catalog, k);
    if s' != s.(catalog := d) {
      var dirty :| Shows(s, rows, dirty) && Pass(rules, Control(rows, d, dirty), s');
      PassBringsNothingBack(rules, Control(rows, d, dirty), s', k);
    }
  }

  lemma PassBringsNothingBack(rules: Rules, s: Control, s': Control, k: RevisionKey)
    requires Store.Filed(s.rows) && Pass(rules, s, s')
    requires !Active(s.catalog, k) && !(k in s.rows && s.rows[k].active)
    ensures !Active(s'.catalog, k) && s'.rows == s.rows
  {
    if s'.catalog != s.catalog {
      var listing :| Reads(listing, s.rows) && Undisturbed(s.catalog, s'.catalog, listing);
      WantedIsStored(listing, s.rows, k);
    }
  }

  // ----- What each failure costs ---------------------------------------------------------

  /** A withdrawal whose store write fails leaves store and registry in step if and only if
      the revision was not live. */
  lemma FailedDeleteBreaksExactly(rules: Rules, s: Control, k: RevisionKey, hard: bool)
    requires InSync(s)
    ensures Step(rules, s, Delete(k, hard), s.(catalog := AfterRemove(s.catalog, k)))
    ensures InSync(s.(catalog := AfterRemove(s.catalog, k))) <==> !Active(s.catalog, k)
  {
    var d := AfterRemove(s.catalog, k);
    RemovalKeepsOrderly(s, k, false, s.dirty);
    if Active(s.catalog, k) {
      assert k in s.rows && s.rows[k].active && s.rows[k].Key() == k && !Active(d, k);
    } else {
      RemovingTheGoneIsHarmless(s, k);
    }
  }

  /** And it stays that way: with the stored state unchanged no later pass looks at it. */
  lemma {:induction false} TicksDoNotRepair(rules: Rules, states: seq<Control>, events: seq<Event>, n: nat)
    requires Trace(rules, states, events) && n < |states| && !states[0].dirty
    requires forall i :: 0 <= i < n ==> events[i] == Tick
    ensures states[n] == states[0]
  {
    if n > 0 {
      TicksDoNotRepair(rules, states, events, n - 1);
      assert Step(rules, states[n - 1], events[n - 1], states[n]);
    }
  }

  lemma AcceptanceIsOfContent(rules: Rules, a: Tool, b: Tool)
    requires CanonicalDigest(a) == CanonicalDigest(b)
    ensures Accepted(rules, a) <==> Accepted(rules, b)
  {
  }

  /** Admitting a resource leaves all active rows fit to be registered if and only if the
      others were and the resource is: the store takes it either way. */
  lemma AdmissionPoisonsExactly(rules: Rules, s: Control, t: Tool, actor: string)
    requires Store.Filed(s.rows) && Admissible(rules, s, t)
    ensures RowsAccepted(rules, Store.AfterAdmit(s.rows, t, actor)) <==>
            Accepted(rules, t) && forall k :: k in s.rows && k != t.Key() && s.rows[k].active ==> Accepted(rules, s.rows[k])
  {
    var after := Store.AfterAdmit(s.rows, t, actor);
    AcceptanceIsOfContent(rules, t, after[t.Key()]);
    forall k | k in s.rows && k != t.Key()
      ensures k in after && after[k].active == s.rows[k].active && (Accepted(rules, after[k]) <==> Accepted(rules, s.rows[k]))
    {
      AcceptanceIsOfContent(rules, s.rows[k], after[k]);
    }
  }

  /** An active row that cannot be registered fails every pass until it is deleted: nothing
      else removes it, and no pass ever brings the system up to date. */
  lemma PoisonStaysUntilDeleted(rules: Rules, s: Control, e: Event, s': Control, k: RevisionKey)
    requires Store.Filed(s.rows) && Step(rules, s, e, s') && (e.Delete? ==> e.key != k)
    requires k in s.rows && s.rows[k].active && !Accepted(rules, s.rows[k])
    ensures k in s'.rows && s'.rows[k].active && !Accepted(rules, s'.rows[k])
    ensures s.dirty ==> s'.dirty
  {
    if e.Apply? && Admissible(rules, s, e.tool) {
      var after := Store.AfterAdmit(s.rows, e.tool, e.actor);
      assert k in after && CanonicalDigest(after[k]) == CanonicalDigest(s.rows[k]);
      AcceptanceIsOfContent(rules, s.rows[k], after[k]);
    }
  }

  // ----- Runs without failures -----------------------------------------------------------

  ghost predicate PassGoesWell(rules: Rules, s: Control, s': Control) {
    (!s.dirty && s' == s) || PassSucceeds(rules, s, s')
  }

  /** An event that is refused at once or goes well to its end. */
  ghost predicate GoesWell(rules: Rules, s: Control, e: Event, s': Control) {
    match e
    case Tick => PassGoesWell(rules, s, s')
    case OtherWrite => s' == s || PassGoesWell(rules, s.(dirty := true), s')
    case Restart => PassGoesWell(rules, Restarted(s), s')
    case Apply(t, actor) =>
      || s' == s
      || (Admissible(rules, s, t) && Accepted(rules, t)
          && exists dirty :: Shows(s, Store.AfterAdmit(s.rows, t, actor), dirty)
               && PassGoesWell(rules, Admitted(rules, s, t, actor, dirty), s'))
    case Delete(k, hard) =>
      || s' == s
      || exists dirty :: Shows(s, RowsWithout(s.rows, k, hard), dirty)
           && PassGoesWell(rules, Control(RowsWithout(s.rows, k, hard), AfterRemove(s.catalog, k), dirty), s')
  }

  /** Adding what is in force already leaves every revision as live, and as serving, as it was. */
  lemma AddingAgainShows(c: Catalog, row: Tool, k: RevisionKey)
    requires Agreed(c) && InForce(c, row) && row.active
    requires row.serving || (Pointer(c, row.name) != "" && Pointer(c, row.name) != row.version)
    ensures var d := AfterAdd(c, row, true);
            && (Active(d, k) <==> Active(c, k))
            && (Active(c, k) ==> d.tools[k].digest == c.tools[k].digest && d.tools[k].serving == c.tools[k].serving)
  {
    if row.serving {
      assert c.tools[row.Key()].serving;
      assert k in c.tools && c.tools[k].serving ==> c.serving[k.name] == k.version;
    }
  }

  /** A name with a serving row has a serving pointer. */
  lemma OtherIsServed(s: Control, key: RevisionKey)
    requires InSync(s) && Store.OtherServes(s.rows, key)
    ensures Pointer(s.catalog, key.name) != "" && Pointer(s.catalog, key.name) != key.version
  {
    var k :| k in s.rows && k.name == key.name && k != key && s.rows[k].active && s.rows[k].serving;
    assert InForce(s.catalog, s.rows[k]) && s.rows[k].Key() == k;
  }

  lemma SameRowsAfterAdding(s: Control, row: Tool)
    requires InSync(s) && row.Key() in s.rows && s.rows[row.Key()] == row && row.active
    requires row.serving || (Pointer(s.catalog, row.name) != "" && Pointer(s.catalog, row.name) != row.version)
    ensures RowsExact(AfterAdd(s.catalog, row, true), s.rows)
  {
    var c, d := s.catalog, AfterAdd(s.catalog, row, true);
    assert InForce(c, row);
    forall k | k in s.rows && s.rows[k].active ensures InForce(d, s.rows[k]) {
      assert InForce(c, s.rows[k]);
      AddingAgainShows(c, row, s.rows[k].Key());
    }
    forall k | Active(d, k) ensures k in s.rows && s.rows[k].active {
      AddingAgainShows(c, row, k);
    }
  }

  /** A row that is in force already is added without a trace. */
  lemma AddingAgainIsHarmless(s: Control, t: Tool, actor: string)
    requires InSync(s) && t.active && !Store.Conflicts(s.rows, t)
    requires Store.AfterAdmit(s.rows, t, actor) == s.rows
    ensures RowsExact(AfterAdd(s.catalog, Row(s, t, actor), true), s.rows)
  {
    var row := Row(s, t, actor);
    assert t.Key() in s.rows && s.rows[t.Key()] == row;
    if !row.serving {
      OtherIsServed(s, t.Key());
    }
    SameRowsAfterAdding(s, row);
  }

  lemma RemovingTheGoneIsHarmless(s: Control, k: RevisionKey)
    requires InSync(s) && !Active(s.catalog, k)
    ensures RowsExact(AfterRemove(s.catalog, k), s.rows)
  {
    var c, d := s.catalog, AfterRemove(s.catalog, k);
    forall j | j in s.rows && s.rows[j].active ensures InForce(d, s.rows[j]) {
      assert InForce(c, s.rows[j]);
    }
    forall j | Active(d, j) ensures j in s.rows && s.rows[j].active {
      assert Active(c, j);
    }
  }

  lemma ApplyingKeepsInSync(rules: Rules, s: Control, t: Tool, actor: string, dirty: bool, s': Control)
    requires Sensible(rules) && InSync(s) && Admissible(rules, s, t) && Accepted(rules, t)
    requires Shows(s, Store.AfterAdmit(s.rows, t, actor), dirty)
    requires PassGoesWell(rules, Admitted(rules, s, t, actor, dirty), s')
    ensures InSync(s')
  {
    var m := Admitted(rules, s, t, actor, dirty);
    AdmissionKeepsOrderly(rules, s, t, actor, dirty);
    InSyncNeverParts(rules, s, Apply(t, actor));
    ApplyKeepsAgreedExactly(rules, s, t, actor, dirty);
    if PassSucceeds(rules, m, s') {
      SuccessfulPassRestores(rules, m, s');
    } else {
      AddingAgainIsHarmless(s, t, actor);
    }
  }

  lemma DeletingKeepsInSync(rules: Rules, s: Control, k: RevisionKey, hard: bool, dirty: bool, s': Control)
    requires InSync(s) && Shows(s, RowsWithout(s.rows, k, hard), dirty)
    requires PassGoesWell(rules, Control(RowsWithout(s.rows, k, hard), AfterRemove(s.catalog, k), dirty), s')
    ensures InSync(s')
  {
    var m := Control(RowsWithout(s.rows, k, hard), AfterRemove(s.catalog, k), dirty);
    RemovalKeepsOrderly(s, k, hard, dirty);
    if PassSucceeds(rules, m, s') {
      SuccessfulPassRestores(rules, m, s');
    } else {
      assert !Active(s.catalog, k);
      RemovingTheGoneIsHarmless(s, k);
    }
  }

  lemma HandlingKeepsInSync(rules: Rules, s: Control, e: Event, s': Control)
    requires Sensible(rules) && InSync(s) && GoesWell(rules, s, e, s')
    ensures InSync(s')
  {
    if s' != s {
      match e {
        case Tick => SuccessfulPassRestores(rules, s, s');
        case OtherWrite => SuccessfulPassRestores(rules, s.(dirty := true), s');
        case Restart => SuccessfulPassRestores(rules, Restarted(s), s');
        case Apply(t, actor) =>
          var dirty :| Shows(s, Store.AfterAdmit(s.rows, t, actor), dirty)
                       && PassGoesWell(rules, Admitted(rules, s, t, actor, dirty), s');
          ApplyingKeepsInSync(rules, s, t, actor, dirty, s');
        case Delete(k, hard) =>
          var dirty :| Shows(s, RowsWithout(s.rows, k, hard), dirty)
            && PassGoesWell(rules, Control(RowsWithout(s.rows, k, hard), AfterRemove(s.catalog, k), dirty), s');
          DeletingKeepsInSync(rules, s, k, hard, dirty, s');
      }
    }
  }

  /** From a system in step, every run in which requests are refused or go well keeps the
      registry equal to the store. */
  lemma {:induction false} EveryRunStaysInSync(rules: Rules, states: seq<Control>, events: seq<Event>, n: nat)
    requires Sensible(rules) && |states| == |events| + 1 && n < |states| && InSync(states[0])
    requires forall i :: 0 <= i < |events| ==> GoesWell(rules, states[i], events[i], states[i + 1])
    ensures InSync(states[n])
  {
    if n > 0 {
      EveryRunStaysInSync(rules, states, events, n - 1);
      HandlingKeepsInSync(rules, states[n - 1], events[n - 1], states[n]);
    }
  }

  /** What being in step means for one revision: it is live exactly if its row is active, its
      entry is the row itself up to status text and admission record, and its name is served
      by it exactly if the row says so. */
  lemma InSyncMeans(s: Control, k: RevisionKey)
    requires InSync(s)
    ensures Active(s.catalog, k) <==> k in s.rows && s.rows[k].active
    ensures Active(s.catalog, k) ==>
              s.catalog.tools[k] == s.rows[k].(status := s.catalog.tools[k].status, admission := s.catalog.tools[k].admission)
    ensures (k.name in s.catalog.serving && s.catalog.serving[k.name] == k.version) <==>
            k in s.rows && s.rows[k].active && s.rows[k].serving
  {
    if Active(s.catalog, k) {
      assert InForce(s.catalog, s.rows[k]) && s.rows[k].Key() == k;
      InForceIsFaithful(s.catalog, s.rows[k]);
    }
    if k.name in s.catalog.serving && s.catalog.serving[k.name] == k.version {
      ServedIsStored(s, k.name);
      assert Revision(k.name, k.version) == k;
    }
  }

  // ----- How a request can part flag and pointer -----------------------------------------

  /** Any non-empty version is admitted, but "two" is no version to register. */
  const RULES := Rules((t: Tool) => t.version != "", (t: Tool) => t.version != "two")
  const ORDERS := Tool("orders", "1", "m", "x", "", true, false, NoDigest, None)
  const SECOND := ORDERS.(version := "two", serving := true)

  function Stored(t: Tool, active: bool, serving: bool): Tool {
    t.(digest := CanonicalDigest(t), admission := Some("op"), active := active, serving := serving)
  }

  function OneRow(): Store.Rows {
    map[ORDERS.Key() := Stored(ORDERS, true, true)]
  }

  function TwoRows(secondActive: bool): Store.Rows {
    map[ORDERS.Key() := Stored(ORDERS, true, false), SECOND.Key() := Stored(SECOND, secondActive, secondActive)]
  }

  /** The registry with the first version, flagged as serving or not, and pointed to. */
  function Served(flag: bool): Catalog {
    Catalog(map[ORDERS.Key() := Stored(ORDERS, true, flag)], map["orders" := "1"])
  }

  /** The last pass succeeded, all active rows are live, but a name is served that no row
      serves. */
  ghost predicate SettledWrong(s: Control) {
    && !s.dirty && RowsExact(s.catalog, s.rows) && !InSync(s)
    && exists n :: n in s.catalog.serving && !ServingStored(s.rows, n)
  }

  lemma SecondIsAdmitted()
    ensures Step(RULES, Control(OneRow(), Served(true), false), Apply(SECOND, "op"), Control(TwoRows(true), Served(true), true))
  {
    var s := Control(OneRow(), Served(true), false);
    var row := Row(s, SECOND, "op");
    assert row == Stored(SECOND, true, true);
    assert Store.AfterAdmit(s.rows, SECOND, "op") == TwoRows(true);
    assert Shows(s, Store.AfterAdmit(s.rows, SECOND, "op"), true);
    assert Admitted(RULES, s, SECOND, "op", true) == Control(TwoRows(true), Served(true), true);
  }

  lemma FirstIsReapplied()
    ensures Step(RULES, Control(TwoRows(true), Served(true), true), Apply(ORDERS, "op"), Control(TwoRows(true), Served(false), true))
  {
    var s := Control(TwoRows(true), Served(true), true);
    assert Store.OtherServes(s.rows, ORDERS.Key()) by {
      assert s.rows[SECOND.Key()].serving && SECOND.Key() != ORDERS.Key();
    }
    var row := Row(s, ORDERS, "op");
    assert row == Stored(ORDERS, true, false);
    assert Store.AfterAdmit(s.rows, ORDERS, "op") == s.rows;
    assert Shows(s, Store.AfterAdmit(s.rows, ORDERS, "op"), true);
    var m := Admitted(RULES, s, ORDERS, "op", true);
    assert m == Control(TwoRows(true), Served(false), true);
    assert PassFails(RULES, m, m);
  }

  function BothRows(): seq<Tool> {
    [Stored(ORDERS, true, false), Stored(SECOND, false, false)]
  }

  lemma BothRowsAreRead()
    ensures Reads(BothRows(), TwoRows(false)) && Wanted(BothRows()) == {ORDERS.Key()}
  {
    assert BothRows()[0].Key() in Wanted(BothRows());
  }

  lemma NothingToReconcile()
    ensures Reconciled(Served(false), Served(false), BothRows())
  {
    var c := Served(false);
    BothRowsAreRead();
    assert InForce(c, BothRows()[0]);
    assert forall n :: n in c.serving ==> Revision(n, c.serving[n]) == ORDERS.Key();
  }

  /** With only the first row left active, the pass finds it in force and changes nothing. */
  lemma PassFindsFirst()
    ensures PassSucceeds(RULES, Control(TwoRows(false), Served(false), true), Control(TwoRows(false), Served(false), false))
  {
    BothRowsAreRead();
    NothingToReconcile();
  }

  lemma SecondIsDeleted()
    ensures Step(RULES, Control(TwoRows(true), Served(false), true), Delete(SECOND.Key(), false),
                 Control(TwoRows(false), Served(false), false))
  {
    var s := Control(TwoRows(true), Served(false), true);
    assert RowsWithout(s.rows, SECOND.Key(), false) == TwoRows(false);
    assert SECOND.Key() !in s.catalog.tools;
    PassFindsFirst();
    assert Shows(s, RowsWithout(s.rows, SECOND.Key(), false), true);
  }

  /** From a system in step: a second version is admitted that cannot be registered, the first
      one is re-applied, and the second deleted again.  The pass then succeeds, and yet the
      name is served by a version whose row does not say so. */
  lemma StaleServingIsReachable()
    ensures exists states: seq<Control>, events: seq<Event> ::
              Trace(RULES, states, events) && InSync(states[0]) && SettledWrong(states[|events|])
  {
    var a, b := Control(OneRow(), Served(true), false), Control(TwoRows(true), Served(true), true);
    var c, d := Control(TwoRows(true), Served(false), true), Control(TwoRows(false), Served(false), false);
    SecondIsAdmitted();
    FirstIsReapplied();
    SecondIsDeleted();
    StartIsInSync();
    EndIsNot();
    TraceStarts(RULES, a);
    TraceGoesOn(RULES, a, a, Apply(SECOND, "op"), b);
    TraceGoesOn(RULES, a, b, Apply(ORDERS, "op"), c);
    TraceGoesOn(RULES, a, c, Delete(SECOND.Key(), false), d);
  }

  /** A trace from one state to another. */
  ghost predicate Leads(rules: Rules, states: seq<Control>, events: seq<Event>, a: Control, z: Control) {
    Trace(rules, states, events) && states[0] == a && states[|events|] == z
  }

  ghost predicate Reaches(rules: Rules, a: Control, z: Control) {
    exists states: seq<Control>, events: seq<Event> :: Leads(rules, states, events, a, z)
  }

  lemma TraceStarts(rules: Rules, a: Control)
    ensures Reaches(rules, a, a)
  {
    assert Leads(rules, [a], [], a, a);
  }

  lemma TraceGoesOn(rules: Rules, a: Control, y: Control, e: Event, z: Control)
    requires Reaches(rules, a, y) && Step(rules, y, e, z)
    ensures Reaches(rules, a, z)
  {
    var states: seq<Control>, events: seq<Event> :| Leads(rules, states, events, a, y);
    TraceOneMore(rules, states, events, e, z);
    assert Leads(rules, states + [z], events + [e], a, z);
  }

  lemma TraceOneMore(rules: Rules, states: seq<Control>, events: seq<Event>, e: Event, z: Control)
    requires Trace(rules, states, events) && Step(rules, states[|events|], e, z)
    ensures Trace(rules, states + [z], events + [e])
  {
    var longer, more := states + [z], events + [e];
    forall i | 0 <= i < |more| ensures longer[i] == (if i < |states| then states[i] else z) && more[i] == (if i < |events| then events[i] else e) {
    }
  }

  lemma StartIsInSync()
    ensures InSync(Control(OneRow(), Served(true), false))
  {
    assert Revision("orders", "1") == ORDERS.Key();
  }

  lemma EndIsNot()
    ensures var s := Control(TwoRows(false), Served(false), false);
            SettledWrong(s)
  {
    var s := Control(TwoRows(false), Served(false), false);
    assert Revision("orders", "1") == ORDERS.Key();
    assert !s.catalog.tools[Revision("orders", s.catalog.serving["orders"])].serving;
    assert "orders" in s.catalog.serving && !ServingStored(s.rows, "orders");
  }
}
