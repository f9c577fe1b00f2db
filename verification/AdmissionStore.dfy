/** The persisted tool rows: admission, soft and hard deletion.  A row is immutable in its
    executable content; lifecycle state and bookkeeping may change around it. */
module AdmissionStore {
  import opened Common
  import opened ToolResource

  const DEFAULT_ACTOR := "control-plane-operator"

  function AdmissionRecord(actor: string): string {
    if actor == "" then DEFAULT_ACTOR else actor
  }

  type Rows = map<RevisionKey, Tool>

  /** Rows are filed under the identity they carry. */
  ghost predicate Filed(rows: Rows) {
    forall k :: k in rows ==> rows[k].Key() == k
  }

  /** At most one serving row per name, and a serving row is active. */
  ghost predicate ServingSound(rows: Rows) {
    && (forall k :: k in rows && rows[k].serving ==> rows[k].active)
    && (forall j, k :: j in rows && k in rows && j.name == k.name && rows[j].serving && rows[k].serving ==> j == k)
  }

  ghost predicate ExactlyOneServing(rows: Rows, name: string) {
    exists k :: IsTheServing(rows, name, k)
  }

  ghost predicate IsTheServing(rows: Rows, name: string, k: RevisionKey) {
    && k in rows && k.name == name && rows[k].active && rows[k].serving
    && forall j :: j in rows && j.name == name && rows[j].serving ==> j == k
  }

  ghost predicate DigestsFaithful(rows: Rows) {
    forall k :: k in rows ==> rows[k].digest == CanonicalDigest(rows[k])
  }

  // ---------------------------------------------------------------------------
  // What the operations do to the rows.

  predicate Conflicts(rows: Rows, t: Tool) {
    t.Key() in rows && CanonicalDigest(rows[t.Key()]) != CanonicalDigest(t)
  }

  ghost predicate OtherServes(rows: Rows, key: RevisionKey) {
    exists k :: k in rows && k.name == key.name && k != key && rows[k].active && rows[k].serving
  }

  ghost function AdmittedRow(rows: Rows, t: Tool, actor: string): Tool {
    var key := t.Key();
    var known := key in rows;
    var keptServing := t.serving || (known && rows[key].serving);
    var byDefault := !OtherServes(rows, key) && !(known && rows[key].serving);
    t.(digest := CanonicalDigest(t),
       admission := if known && rows[key].admission.Some? then rows[key].admission else Some(AdmissionRecord(actor)),
       serving := keptServing || byDefault)
  }

  function Demoted(rows: Rows, name: string, except: RevisionKey): Rows {
    map k | k in rows :: if k.name == name && k != except then rows[k].(serving := false) else rows[k]
  }

  ghost function AfterAdmit(rows: Rows, t: Tool, actor: string): Rows {
    if Conflicts(rows, t) then rows
    else
      var row := AdmittedRow(rows, t, actor);
      (if row.serving then Demoted(rows, t.name, t.Key()) else rows)[t.Key() := row]
  }

  function AfterDelete(rows: Rows, key: RevisionKey): Rows {
    if key in rows then rows[key := rows[key].(active := false, serving := false)] else rows
  }

  function AfterHardDelete(rows: Rows, key: RevisionKey): Rows {
    rows - {key}
  }

  /** The rows with the serving mark of those in `done` cleared. */
  ghost predicate DemotedUpTo(rows: Rows, transaction: Rows, done: set<RevisionKey>, key: RevisionKey) {
    && transaction.Keys == rows.Keys
    && forall k :: k in rows ==> transaction[k] == if k in done && k != key then rows[k].(serving := false) else rows[k]
  }

  lemma DemoteOne(rows: Rows, transaction: Rows, done: set<RevisionKey>, key: RevisionKey, k: RevisionKey)
    requires DemotedUpTo(rows, transaction, done, key) && k in rows
    ensures DemotedUpTo(rows, if k != key && rows[k].serving then transaction[k := rows[k].(serving := false)] else transaction,
                        done + {k}, key)
  {
  }

  // ---------------------------------------------------------------------------
  // The store.

  class Store {
    var rows: Rows

    constructor ()
      ensures rows == map[]
    {
      rows := map[];
    }

    /** Write one row inside a transaction. */
    static method SaveRow(transaction: Rows, t: Tool) returns (written: Rows)
      ensures written == transaction[t.Key() := t]
    {
      written := transaction[t.Key() := t];
    }

    /** Create an immutable revision or reapply the identical content; nothing changes on a
        conflict.  The submitted resource comes back as it was stored. */
    method Admit(t: Tool, actor: string) returns (stored: Option<Tool>)
      requires Filed(rows)
      modifies this
      ensures rows == AfterAdmit(old(rows), t, actor)
      ensures stored == if Conflicts(old(rows), t) then None else Some(AdmittedRow(old(rows), t, actor))
      ensures Filed(rows)
    {
      var row := t;
      var key := t.Key();
      if key in rows {
        var existing := rows[key];
        if CanonicalDigest(existing) != CanonicalDigest(t) {
          return None;
        }
        row := row.(digest := CanonicalDigest(existing), admission := existing.admission,
                    serving := t.serving || existing.serving);
        if row.admission.None? {
          row := row.(admission := Some(AdmissionRecord(actor)));
        }
      } else {
        row := row.(digest := CanonicalDigest(t), admission := Some(AdmissionRecord(actor)));
      }

      var siblings := set k | k in rows && k.name == t.name;
      var hasServing := SiblingServes(siblings, key);
      if !hasServing && (key !in rows || !rows[key].serving) {
        row := row.(serving := true);
      }
      assert row == AdmittedRow(rows, t, actor);

      var transaction := rows;
      if row.serving {
        transaction := DemoteSiblings(siblings, key);
      }
      rows := SaveRow(transaction, row);
      stored := Some(row);
    }

    /** Whether another revision of the tool is active and serving. */
    method SiblingServes(siblings: set<RevisionKey>, key: RevisionKey) returns (serves: bool)
      requires siblings == set k | k in rows && k.name == key.name
      ensures serves == OtherServes(rows, key)
    {
      var pending := siblings;
      while pending != {}
        invariant pending <= siblings
        invariant forall k :: k in siblings - pending && k != key ==> !(rows[k].active && rows[k].serving)
        decreases |pending|
      {
        var k :| k in pending;
        pending := pending - {k};
        if rows[k].active && rows[k].serving && k != key {
          return true;
        }
      }
      serves := false;
    }

    /** Clear the serving mark of every sibling, one row after the other. */
    method DemoteSiblings(siblings: set<RevisionKey>, key: RevisionKey) returns (transaction: Rows)
      requires Filed(rows) && siblings == set k | k in rows && k.name == key.name
      ensures transaction == Demoted(rows, key.name, key)
    {
      transaction := rows;
      var pending := siblings;
      ghost var done := {};
      while pending != {}
        invariant done + pending == siblings && DemotedUpTo(rows, transaction, done, key)
        decreases |pending|
      {
        var k :| k in pending;
        DemoteOne(rows, transaction, done, key, k);
        pending, done := pending - {k}, done + {k};
        if k != key && rows[k].serving {
          transaction := SaveRow(transaction, rows[k].(serving := false));
        }
      }
    }

    /** Soft deletion: the row stays, neither active nor serving. */
    method Delete(key: RevisionKey) returns (found: bool)
      requires Filed(rows)
      modifies this
      ensures found == (key in old(rows))
      ensures rows == AfterDelete(old(rows), key) && Filed(rows)
    {
      found := key in rows;
      if found {
        rows := SaveRow(rows, rows[key].(active := false, serving := false));
      }
    }

    /** The row is gone for good; deleting a missing row is no error. */
    method HardDelete(key: RevisionKey)
      requires Filed(rows)
      modifies this
      ensures rows == AfterHardDelete(old(rows), key) && Filed(rows)
    {
      rows := rows - {key};
    }
  }

  // ---------------------------------------------------------------------------
  // Runs.

  datatype Operation =
    | Admit(tool: Tool, actor: string)
    | Delete(key: RevisionKey)
    | HardDelete(key: RevisionKey)

  ghost function Apply(rows: Rows, op: Operation): Rows {
    match op
    case Admit(t, actor) => AfterAdmit(rows, t, actor)
    case Delete(key) => AfterDelete(rows, key)
    case HardDelete(key) => AfterHardDelete(rows, key)
  }

  ghost function ApplyAll(rows: Rows, ops: seq<Operation>): Rows
    decreases |ops|
  {
    if ops == [] then rows else ApplyAll(Apply(rows, ops[0]), ops[1..])
  }

  /** The control plane marks a resource active before it submits it. */
  predicate AdmitsActive(op: Operation) {
    op.Admit? ==> op.tool.active
  }

  ghost predicate Sound(rows: Rows) {
    Filed(rows) && ServingSound(rows) && DigestsFaithful(rows)
  }

  lemma AdmitLeavesOneServing(rows: Rows, t: Tool, actor: string)
    requires Filed(rows) && ServingSound(rows) && t.active && !Conflicts(rows, t)
    ensures ExactlyOneServing(AfterAdmit(rows, t, actor), t.name)
  {
    var key, rows' := t.Key(), AfterAdmit(rows, t, actor);
    if AdmittedRow(rows, t, actor).serving {
      assert IsTheServing(rows', t.name, key);
    } else {
      var k :| k in rows && k.name == key.name && k != key && rows[k].active && rows[k].serving;
      assert IsTheServing(rows', t.name, k);
    }
  }

  lemma AdmitKeepsSound(rows: Rows, t: Tool, actor: string)
    requires Sound(rows) && t.active
    ensures Sound(AfterAdmit(rows, t, actor))
  {
    var rows' := AfterAdmit(rows, t, actor);
    if !Conflicts(rows, t) {
      AdmitLeavesOneServing(rows, t, actor);
      var s :| IsTheServing(rows', t.name, s);
      forall j, k | j in rows' && k in rows' && j.name == k.name && rows'[j].serving && rows'[k].serving
        ensures j == k
      {
        if j.name == t.name {
          assert j == s && k == s;
        }
      }
    }
  }

  lemma ApplyKeepsSound(rows: Rows, op: Operation)
    requires Sound(rows) && AdmitsActive(op)
    ensures Sound(Apply(rows, op))
  {
    if op.Admit? {
      AdmitKeepsSound(rows, op.tool, op.actor);
    }
  }

  /** Every run keeps at most one serving row per name, active and with a faithful digest. */
  lemma {:induction false} RunKeepsSound(rows: Rows, ops: seq<Operation>)
    requires Sound(rows)
    requires forall i :: 0 <= i < |ops| ==> AdmitsActive(ops[i])
    ensures Sound(ApplyAll(rows, ops))
    decreases |ops|
  {
    if ops != [] {
      ApplyKeepsSound(rows, ops[0]);
      RunKeepsSound(Apply(rows, ops[0]), ops[1..]);
    }
  }

  /** Unless a revision is hard-deleted on the way, a run keeps it with the same content. */
  lemma {:induction false} ContentIsImmutable(rows: Rows, ops: seq<Operation>, key: RevisionKey)
    requires Filed(rows) && key in rows
    requires HardDelete(key) !in ops
    ensures key in ApplyAll(rows, ops)
    ensures CanonicalDigest(ApplyAll(rows, ops)[key]) == CanonicalDigest(rows[key])
    decreases |ops|
  {
    if ops != [] {
      ContentIsImmutable(Apply(rows, ops[0]), ops[1..], key);
    }
  }

  /** Submitting other content for a stored revision is refused in whatever state a run has
      reached, and leaves every row as it was. */
  lemma ChangedContentIsRefused(rows: Rows, ops: seq<Operation>, t: Tool, actor: string)
    requires Filed(rows) && t.Key() in rows
    requires HardDelete(t.Key()) !in ops && CanonicalDigest(rows[t.Key()]) != CanonicalDigest(t)
    ensures AfterAdmit(ApplyAll(rows, ops), t, actor) == ApplyAll(rows, ops)
  {
    ContentIsImmutable(rows, ops, t.Key());
  }

  /** Unless it is hard-deleted, a row keeps the record of its first admission, whoever submits
      the same resource again. */
  lemma {:induction false} FirstRecordStands(rows: Rows, ops: seq<Operation>, key: RevisionKey)
    requires Filed(rows) && key in rows && rows[key].admission.Some? && HardDelete(key) !in ops
    ensures key in ApplyAll(rows, ops) && ApplyAll(rows, ops)[key].admission == rows[key].admission
    decreases |ops|
  {
    if ops != [] {
      FirstRecordStands(Apply(rows, ops[0]), ops[1..], key);
    }
  }

  /** That record names who admitted the row, or stands for nobody in particular. */
  lemma FirstAdmissionIsRecorded(rows: Rows, t: Tool, actor: string, ops: seq<Operation>)
    requires Filed(rows) && (t.Key() in rows ==> rows[t.Key()].admission.None? && !Conflicts(rows, t))
    requires HardDelete(t.Key()) !in ops
    ensures var later := ApplyAll(AfterAdmit(rows, t, actor), ops);
            t.Key() in later && later[t.Key()].admission == Some(if actor == "" then "control-plane-operator" else actor)
  {
    FirstRecordStands(AfterAdmit(rows, t, actor), ops, t.Key());
  }

  /** An admitted row is the resource as it was submitted, but for digest, record and serving
      mark; rows of other names stand, and its siblings but for their serving mark. */
  lemma AdmissionChangesOnly(rows: Rows, t: Tool, actor: string, k: RevisionKey)
    requires Filed(rows) && !Conflicts(rows, t)
    ensures var after := AfterAdmit(rows, t, actor);
            && after.Keys == rows.Keys + {t.Key()}
            && (k == t.Key() ==> after[k] == t.(digest := CanonicalDigest(t), admission := after[k].admission, serving := after[k].serving))
            && (k in rows && k != t.Key() ==> after[k] == rows[k].(serving := after[k].serving))
            && (k in rows && k.name != t.name ==> after[k] == rows[k])
  {
  }

  /** The revision that asks to serve does; one that does not ask keeps its place, leaves it to
      the one that has it, or takes it when nobody has. */
  lemma WhoServes(rows: Rows, t: Tool, actor: string, k: RevisionKey)
    requires Filed(rows) && ServingSound(rows) && t.active && !Conflicts(rows, t) && k.name == t.name
    ensures var after := AfterAdmit(rows, t, actor);
            k in after && after[k].serving <==>
            if t.serving || !(exists j :: j in rows && j.name == t.name && rows[j].serving) then k == t.Key()
            else k in rows && rows[k].serving
  {
    if j :| j in rows && j.name == t.name && rows[j].serving {
      assert j != t.Key() ==> OtherServes(rows, t.Key());
    }
  }

  /** Whatever the rows were: the admitted row serves exactly if it asks to, served before, or no
      other active row of its name serves; then no other one of them serves afterwards. */
  lemma ServingIsTaken(rows: Rows, t: Tool, actor: string, k: RevisionKey)
    requires Filed(rows) && !Conflicts(rows, t)
    ensures var after := AfterAdmit(rows, t, actor);
            && (after[t.Key()].serving <==>
                  || t.serving || (t.Key() in rows && rows[t.Key()].serving)
                  || forall j :: j in rows && j.name == t.name && j != t.Key() ==> !(rows[j].active && rows[j].serving))
            && (k in rows && k.name == t.name && k != t.Key() ==>
                  (after[k].serving <==> rows[k].serving && !after[t.Key()].serving))
  {
  }

  /** Withdrawing a revision makes exactly that row inactive; deleting it removes exactly it. */
  lemma DeletionWithdraws(rows: Rows, key: RevisionKey, k: RevisionKey)
    ensures var after := AfterDelete(rows, key);
            && after.Keys == rows.Keys
            && (k in rows && k != key ==> after[k] == rows[k])
            && (key in rows ==> !after[key].active && !after[key].serving
                                && after[key] == rows[key].(active := false, serving := false))
    ensures key !in AfterHardDelete(rows, key)
    ensures k != key ==> (k in AfterHardDelete(rows, key) <==> k in rows) && (k in rows ==> AfterHardDelete(rows, key)[k] == rows[k])
  {
  }

  /** Withdrawing the serving revision promotes no other one. */
  lemma DeleteNeverFallsForward(rows: Rows, key: RevisionKey)
    requires ServingSound(rows) && key in rows && rows[key].serving
    ensures forall k :: k in AfterDelete(rows, key) && k.name == key.name ==> !AfterDelete(rows, key)[k].serving
  {
  }

  /** An admission leaves its name with exactly one serving row if and only if the admitted
      row serves, or the name had exactly one already: it demotes others, but repairs none. */
  lemma AdmitServesOneExactly(rows: Rows, t: Tool, actor: string)
    requires Filed(rows) && t.active && !Conflicts(rows, t)
    ensures ExactlyOneServing(AfterAdmit(rows, t, actor), t.name) <==>
            AdmittedRow(rows, t, actor).serving || ExactlyOneServing(rows, t.name)
  {
    var key, rows' := t.Key(), AfterAdmit(rows, t, actor);
    if AdmittedRow(rows, t, actor).serving {
      assert IsTheServing(rows', t.name, key);
    } else {
      assert forall k :: k in rows && k != key ==> k in rows' && rows'[k] == rows[k];
      assert !rows'[key].serving && (key in rows ==> !rows[key].serving);
      if k :| IsTheServing(rows, t.name, k) {
        assert IsTheServing(rows', t.name, k);
      }
      if k :| IsTheServing(rows', t.name, k) {
        assert IsTheServing(rows, t.name, k);
      }
    }
  }

  /** A name that the store holds two serving rows of keeps both when a third, unserving
      revision is admitted. */
  lemma AdmitKeepsAnOldDoubleServing()
    ensures exists rows: Rows, t: Tool, actor: string :: Filed(rows) && t.active && !Conflicts(rows, t)
                                     && !ExactlyOneServing(AfterAdmit(rows, t, actor), t.name)
  {
    var one := Tool("a", "1", "", "x", "", true, true, NoDigest, None);
    var two := one.(version := "2");
    var rows := map[one.Key() := one, two.Key() := two];
    var t := one.(version := "3", serving := false);
    assert rows[one.Key()].serving && rows[two.Key()].serving && one.Key() != two.Key() && one.Key() != t.Key();
    assert OtherServes(rows, t.Key());
    assert !ExactlyOneServing(rows, t.name);
    AdmitServesOneExactly(rows, t, "");
  }
}
