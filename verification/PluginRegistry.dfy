/** The runtime snapshot of plugin bindings: built from the stored plugins, bindings and tools,
    and read by calls per revision and phase. */
module PluginRegistry {
  import opened Common
  import opened ToolResource

  datatype Phase = RawResponse | AfterResponse

  datatype Plugin = Plugin(key: RevisionKey, active: bool, spec: string)

  datatype Binding = Binding(
    name: string, active: bool, plugin: RevisionKey, tool: RevisionKey, phase: Phase, priority: int, failing: bool)

  /** An active binding with its plugin. */
  datatype Bound = Bound(binding: Binding, plugin: Plugin)

  type Snapshot = map<RevisionKey, seq<Bound>>

  // ----- Which bindings are admitted -----------------------------------------------------

  /** The last active plugin of that revision. */
  function PluginOf(plugins: seq<Plugin>, key: RevisionKey): Option<Plugin> {
    if plugins == [] then None
    else
      var last := plugins[|plugins| - 1];
      if last.active && last.key == key then Some(last) else PluginOf(plugins[..|plugins| - 1], key)
  }

  /** The first active tool of that revision. */
  function ToolOf(tools: seq<Tool>, key: RevisionKey): Option<Tool> {
    if tools == [] then None
    else if tools[0].active && tools[0].Key() == key then Some(tools[0])
    else ToolOf(tools[1..], key)
  }

  /** What a binding contributes: nothing unless it is active, its plugin and its tool are, and
      the two suit each other if it concerns raw responses. */
  function Admit(plugins: seq<Plugin>, tools: seq<Tool>, suits: (Plugin, Tool) -> bool, b: Binding): Option<Bound> {
    var plugin, tool := PluginOf(plugins, b.plugin), ToolOf(tools, b.tool);
    if b.active && plugin.Some? && tool.Some? && (b.phase.RawResponse? ==> suits(plugin.value, tool.value))
    then Some(Bound(b, plugin.value)) else None
  }

  /** The admitted bindings of one tool, as they are listed. */
  function AdmittedFor(plugins: seq<Plugin>, tools: seq<Tool>, suits: (Plugin, Tool) -> bool, bindings: seq<Binding>, key: RevisionKey)
    : seq<Bound>
  {
    if bindings == [] then []
    else
      var last := bindings[|bindings| - 1];
      var bound := Admit(plugins, tools, suits, last);
      AdmittedFor(plugins, tools, suits, bindings[..|bindings| - 1], key)
      + if bound.Some? && last.tool == key then [bound.value] else []
  }

  // ----- The order in which they run -----------------------------------------------------

  /** Lower priorities first, equal ones by name. */
  predicate Before(a: Bound, b: Bound) {
    || a.binding.priority < b.binding.priority
    || (a.binding.priority == b.binding.priority && TextBefore(a.binding.name, b.binding.name))
  }

  predicate Tied(a: Bound, b: Bound) {
    !Before(a, b) && !Before(b, a)
  }

  lemma OrderIsWeak(a: Bound, b: Bound, c: Bound)
    ensures !(Before(a, b) && Before(b, a))
    ensures !Before(b, a) && !Before(c, b) ==> !Before(c, a)
  {
    TextsAreOrdered(a.binding.name, b.binding.name, c.binding.name);
  }

  ghost predicate Sorted(s: seq<Bound>) {
    forall i, j :: 0 <= i < j < |s| ==> !Before(s[j], s[i])
  }

  /** Behind everything it does not precede. */
  function Inserted(s: seq<Bound>, b: Bound): seq<Bound> {
    if s == [] then [b]
    else
      var n := |s| - 1;
      if Before(b, s[n]) then Inserted(s[..n], b) + [s[n]] else s + [b]
  }

  function InOrder(s: seq<Bound>): seq<Bound> {
    if s == [] then [] else Inserted(InOrder(s[..|s| - 1]), s[|s| - 1])
  }

  /** The elements tied with one, in their order. */
  function Peers(s: seq<Bound>, x: Bound): seq<Bound> {
    if s == [] then []
    else
      var n := |s| - 1;
      Peers(s[..n], x) + if Tied(s[n], x) then [s[n]] else []
  }

  lemma {:induction false} InsertedKeepsElements(s: seq<Bound>, b: Bound)
    ensures multiset(Inserted(s, b)) == multiset(s) + multiset{b}
  {
    if s != [] {
      InsertedKeepsElements(s[..|s| - 1], b);
      assert s == s[..|s| - 1] + [s[|s| - 1]];
    }
  }

  lemma {:induction false} InsertedIsSorted(s: seq<Bound>, b: Bound)
    requires Sorted(s)
    ensures Sorted(Inserted(s, b))
  {
    if s != [] {
      var n := |s| - 1;
      if Before(b, s[n]) {
        InsertedIsSorted(s[..n], b);
        InsertedKeepsElements(s[..n], b);
        var r := Inserted(s[..n], b);
        forall i | 0 <= i < |r| ensures !Before(s[n], r[i]) {
          assert r[i] in multiset(r);
          if r[i] != b {
            var k :| 0 <= k < n && s[..n][k] == r[i];
          } else {
            OrderIsWeak(b, s[n], b);
          }
        }
      } else {
        forall i | 0 <= i < n ensures !Before(b, s[i]) {
          OrderIsWeak(s[i], s[n], b);
        }
      }
    }
  }

  lemma PeersAppend(s: seq<Bound>, b: Bound, x: Bound)
    ensures Peers(s + [b], x) == Peers(s, x) + if Tied(b, x) then [b] else []
  {
    assert (s + [b])[..|s|] == s;
  }

  lemma {:induction false} InsertedKeepsPeers(s: seq<Bound>, b: Bound, x: Bound)
    ensures Peers(Inserted(s, b), x) == Peers(s, x) + if Tied(b, x) then [b] else []
  {
    if s == [] {
      PeersAppend([], b, x);
      assert [] + [b] == [b];
    } else {
      var n := |s| - 1;
      if Before(b, s[n]) {
        InsertedKeepsPeers(s[..n], b, x);
        PeersAppend(Inserted(s[..n], b), s[n], x);
        OrderIsWeak(s[n], x, b);
      } else {
        PeersAppend(s, b, x);
      }
    }
  }

  lemma {:induction false} OrderIsSorted(s: seq<Bound>)
    ensures Sorted(InOrder(s)) && multiset(InOrder(s)) == multiset(s)
  {
    if s != [] {
      var front, last := s[..|s| - 1], s[|s| - 1];
      OrderIsSorted(front);
      InsertedIsSorted(InOrder(front), last);
      InsertedKeepsElements(InOrder(front), last);
      assert s == front + [last];
    }
  }

  lemma {:induction false} OrderKeepsPeers(s: seq<Bound>, x: Bound)
    ensures Peers(InOrder(s), x) == Peers(s, x)
  {
    if s != [] {
      OrderKeepsPeers(s[..|s| - 1], x);
      InsertedKeepsPeers(InOrder(s[..|s| - 1]), s[|s| - 1], x);
    }
  }

  /** The running order: sorted by priority and name, with the elements it was given, and tied
      ones in the order they were given in. */
  lemma OrderIsStable(s: seq<Bound>, x: Bound)
    ensures Sorted(InOrder(s)) && multiset(InOrder(s)) == multiset(s)
    ensures Peers(InOrder(s), x) == Peers(s, x)
  {
    OrderIsSorted(s);
    OrderKeepsPeers(s, x);
  }

  // ----- Building the snapshot -----------------------------------------------------------

  /** Each tool with admitted bindings is filed with them, in running order. */
  ghost predicate IsSnapshotOf(snapshot: Snapshot, plugins: seq<Plugin>, tools: seq<Tool>, suits: (Plugin, Tool) -> bool, bindings: seq<Binding>) {
    forall key :: if AdmittedFor(plugins, tools, suits, bindings, key) == [] then key !in snapshot
                  else key in snapshot && snapshot[key] == InOrder(AdmittedFor(plugins, tools, suits, bindings, key))
  }

  method ActivePlugins(plugins: seq<Plugin>) returns (active: map<RevisionKey, Plugin>)
    ensures forall key :: if PluginOf(plugins, key).None? then key !in active
                          else key in active && active[key] == PluginOf(plugins, key).value
  {
    active := map[];
    for n := 0 to |plugins|
      invariant forall key :: if PluginOf(plugins[..n], key).None? then key !in active
                              else key in active && active[key] == PluginOf(plugins[..n], key).value
    {
      assert plugins[..n + 1][..n] == plugins[..n];
      if plugins[n].active {
        active := active[plugins[n].key := plugins[n]];
      }
    }
    assert plugins[..|plugins|] == plugins;
  }

  method FindActiveTool(tools: seq<Tool>, key: RevisionKey) returns (tool: Option<Tool>)
    ensures tool == ToolOf(tools, key)
  {
    assert tools[0..] == tools;
    for n := 0 to |tools|
      invariant ToolOf(tools, key) == ToolOf(tools[n..], key)
    {
      if tools[n].active && tools[n].Key() == key {
        return Some(tools[n]);
      }
      assert tools[n..][1..] == tools[n + 1..];
    }
    tool := None;
  }

  method Sort(s: seq<Bound>) returns (r: seq<Bound>)
    ensures r == InOrder(s)
  {
    r := [];
    for n := 0 to |s|
      invariant r == InOrder(s[..n])
    {
      assert s[..n + 1][..n] == s[..n];
      r := Inserted(r, s[n]);
    }
    assert s[..|s|] == s;
  }

  /** Each tool with admitted bindings is filed with them, as they are listed. */
  ghost predicate IsFilingOf(filed: Snapshot, plugins: seq<Plugin>, tools: seq<Tool>, suits: (Plugin, Tool) -> bool, bindings: seq<Binding>) {
    forall key :: if AdmittedFor(plugins, tools, suits, bindings, key) == [] then key !in filed
                  else key in filed && filed[key] == AdmittedFor(plugins, tools, suits, bindings, key)
  }

  lemma FiledOneMore(filed: Snapshot, plugins: seq<Plugin>, tools: seq<Tool>, suits: (Plugin, Tool) -> bool, bindings: seq<Binding>, n: nat)
    requires n < |bindings| && IsFilingOf(filed, plugins, tools, suits, bindings[..n])
    ensures var b := bindings[n];
            var bound := Admit(plugins, tools, suits, b);
            IsFilingOf(if bound.None? then filed
                       else filed[b.tool := (if b.tool in filed then filed[b.tool] else []) + [bound.value]],
                       plugins, tools, suits, bindings[..n + 1])
  {
    assert bindings[..n + 1][..n] == bindings[..n];
  }

  /** The bindings of every tool, each list in running order. */
  method SortAll(filed: Snapshot) returns (snapshot: Snapshot)
    ensures snapshot.Keys == filed.Keys
    ensures forall key :: key in filed ==> snapshot[key] == InOrder(filed[key])
  {
    snapshot := filed;
    var rest := filed.Keys;
    while rest != {}
      invariant rest <= filed.Keys == snapshot.Keys
      invariant forall key :: key in filed ==> snapshot[key] == if key in rest then filed[key] else InOrder(filed[key])
    {
      var key :| key in rest;
      var sorted := Sort(filed[key]);
      snapshot := snapshot[key := sorted];
      rest := rest - {key};
    }
  }

  /** What a binding contributes, once the active plugins are looked up. */
  method AdmitBinding(active: map<RevisionKey, Plugin>, plugins: seq<Plugin>, tools: seq<Tool>, suits: (Plugin, Tool) -> bool, b: Binding)
    returns (bound: Option<Bound>)
    requires forall key :: if PluginOf(plugins, key).None? then key !in active
                           else key in active && active[key] == PluginOf(plugins, key).value
    ensures bound == Admit(plugins, tools, suits, b)
  {
    bound := None;
    if b.active && b.plugin in active {
      var tool := FindActiveTool(tools, b.tool);
      if tool.Some? && (b.phase.AfterResponse? || suits(active[b.plugin], tool.value)) {
        bound := Some(Bound(b, active[b.plugin]));
      }
    }
  }

  method BuildSnapshot(plugins: seq<Plugin>, bindings: seq<Binding>, tools: seq<Tool>, suits: (Plugin, Tool) -> bool)
    returns (snapshot: Snapshot)
    ensures IsSnapshotOf(snapshot, plugins, tools, suits, bindings)
  {
    var active := ActivePlugins(plugins);
    var filed: Snapshot := map[];
    for n := 0 to |bindings|
      invariant IsFilingOf(filed, plugins, tools, suits, bindings[..n])
    {
      FiledOneMore(filed, plugins, tools, suits, bindings, n);
      var key := bindings[n].tool;
      var bound := AdmitBinding(active, plugins, tools, suits, bindings[n]);
      if bound.Some? {
        filed := filed[key := (if key in filed then filed[key] else []) + [bound.value]];
      }
    }
    assert bindings[..|bindings|] == bindings;
    snapshot := SortAll(filed);
  }

  // ----- What a snapshot guarantees ------------------------------------------------------

  /** A binding is filed under the revision it names, and that revision has a name. */
  ghost predicate WellFormed(snapshot: Snapshot) {
    forall tool, i :: tool in snapshot && 0 <= i < |snapshot[tool]| ==>
                        snapshot[tool][i].binding.tool == tool && tool.name != ""
  }

  lemma {:induction false} AdmittedAreOf(plugins: seq<Plugin>, tools: seq<Tool>, suits: (Plugin, Tool) -> bool, bindings: seq<Binding>, key: RevisionKey, b: Bound)
    requires b in AdmittedFor(plugins, tools, suits, bindings, key)
    ensures b.binding in bindings && b.binding.tool == key && Admit(plugins, tools, suits, b.binding) == Some(b)
  {
    if bindings != [] {
      var front, last := bindings[..|bindings| - 1], bindings[|bindings| - 1];
      if b in AdmittedFor(plugins, tools, suits, front, key) {
        AdmittedAreOf(plugins, tools, suits, front, key, b);
      }
    }
  }

  /** A built snapshot files each binding under the revision it names, with an active plugin of
      the revision it refers to, in running order. */
  lemma SnapshotIsWellFormed(snapshot: Snapshot, plugins: seq<Plugin>, tools: seq<Tool>, suits: (Plugin, Tool) -> bool, bindings: seq<Binding>)
    requires IsSnapshotOf(snapshot, plugins, tools, suits, bindings)
    requires forall i :: 0 <= i < |bindings| ==> bindings[i].tool.name != ""
    ensures WellFormed(snapshot)
    ensures forall key :: key in snapshot ==> Sorted(snapshot[key])
  {
    forall key | key in snapshot
      ensures Sorted(snapshot[key])
      ensures forall i :: 0 <= i < |snapshot[key]| ==> snapshot[key][i].binding.tool == key && key.name != ""
    {
      var admitted := AdmittedFor(plugins, tools, suits, bindings, key);
      OrderIsStable(admitted, admitted[0]);
      forall i | 0 <= i < |snapshot[key]| ensures snapshot[key][i].binding.tool == key && key.name != "" {
        assert snapshot[key][i] in multiset(snapshot[key]);
        AdmittedAreOf(plugins, tools, suits, bindings, key, snapshot[key][i]);
      }
    }
  }

  lemma {:induction false} PluginOfIsLast(plugins: seq<Plugin>, key: RevisionKey)
    ensures PluginOf(plugins, key).None? <==> forall i :: 0 <= i < |plugins| ==> !(plugins[i].active && plugins[i].key == key)
    ensures PluginOf(plugins, key).Some? ==>
              exists i :: 0 <= i < |plugins| && plugins[i] == PluginOf(plugins, key).value && plugins[i].active && plugins[i].key == key
                && forall j :: i < j < |plugins| ==> !(plugins[j].active && plugins[j].key == key)
  {
    if plugins != [] {
      var n := |plugins| - 1;
      PluginOfIsLast(plugins[..n], key);
      if plugins[n].active && plugins[n].key == key {
        assert plugins[n] == PluginOf(plugins, key).value;
      } else if PluginOf(plugins, key).Some? {
        var i :| 0 <= i < n && plugins[..n][i] == PluginOf(plugins, key).value && plugins[..n][i].active && plugins[..n][i].key == key
                 && forall j :: i < j < n ==> !(plugins[..n][j].active && plugins[..n][j].key == key);
        assert plugins[i] == plugins[..n][i] && forall j :: i < j < n ==> plugins[j] == plugins[..n][j];
      }
    }
  }

  lemma {:induction false} ToolOfIsFirst(tools: seq<Tool>, key: RevisionKey)
    ensures ToolOf(tools, key).None? <==> forall i :: 0 <= i < |tools| ==> !(tools[i].active && tools[i].Key() == key)
    ensures ToolOf(tools, key).Some? ==>
              exists i :: 0 <= i < |tools| && tools[i] == ToolOf(tools, key).value && tools[i].active && tools[i].Key() == key
  {
    if tools != [] {
      ToolOfIsFirst(tools[1..], key);
      if ToolOf(tools[1..], key).Some? {
        var i :| 0 <= i < |tools| - 1 && tools[1..][i] == ToolOf(tools[1..], key).value && tools[1..][i].active && tools[1..][i].Key() == key;
        assert tools[i + 1] == tools[1..][i];
      }
    }
  }

  /** What makes a binding take effect. */
  ghost predicate Effective(plugins: seq<Plugin>, tools: seq<Tool>, suits: (Plugin, Tool) -> bool, b: Binding, plugin: Plugin) {
    && b.active && plugin.active && plugin.key == b.plugin && plugin in plugins
    && exists tool :: tool in tools && tool.active && tool.Key() == b.tool && (b.phase.RawResponse? ==> suits(plugin, tool))
  }

  lemma {:induction false} AdmittedAreAll(plugins: seq<Plugin>, tools: seq<Tool>, suits: (Plugin, Tool) -> bool, bindings: seq<Binding>, b: Binding)
    requires b in bindings && Admit(plugins, tools, suits, b).Some?
    ensures Admit(plugins, tools, suits, b).value in AdmittedFor(plugins, tools, suits, bindings, b.tool)
  {
    var front := bindings[..|bindings| - 1];
    if b in front {
      AdmittedAreAll(plugins, tools, suits, front, b);
    }
  }

  /** Only effective bindings are filed, under their tool and with the plugin they refer to. */
  lemma FiledBindingsAreEffective(snapshot: Snapshot, plugins: seq<Plugin>, tools: seq<Tool>, suits: (Plugin, Tool) -> bool, bindings: seq<Binding>, key: RevisionKey, b: Bound)
    requires IsSnapshotOf(snapshot, plugins, tools, suits, bindings) && key in snapshot && b in snapshot[key]
    ensures b.binding in bindings && b.binding.tool == key && Effective(plugins, tools, suits, b.binding, b.plugin)
  {
    var admitted := AdmittedFor(plugins, tools, suits, bindings, key);
    OrderIsStable(admitted, admitted[0]);
    assert b in multiset(snapshot[key]);
    AdmittedAreOf(plugins, tools, suits, bindings, key, b);
    PluginOfIsLast(plugins, b.binding.plugin);
    ToolOfIsFirst(tools, b.binding.tool);
    assert ToolOf(tools, b.binding.tool).value in tools;
  }

  /** Where each active plugin and tool is listed once, all effective bindings are. */
  lemma EffectiveBindingsAreFiled(snapshot: Snapshot, plugins: seq<Plugin>, tools: seq<Tool>, suits: (Plugin, Tool) -> bool, bindings: seq<Binding>, b: Binding, plugin: Plugin)
    requires IsSnapshotOf(snapshot, plugins, tools, suits, bindings)
    requires forall p, q :: p in plugins && q in plugins && p.active && q.active && p.key == q.key ==> p == q
    requires forall t, u :: t in tools && u in tools && t.active && u.active && t.Key() == u.Key() ==> t == u
    requires b in bindings && Effective(plugins, tools, suits, b, plugin)
    ensures b.tool in snapshot && Bound(b, plugin) in snapshot[b.tool]
  {
    PluginOfIsLast(plugins, b.plugin);
    ToolOfIsFirst(tools, b.tool);
    var tool :| tool in tools && tool.active && tool.Key() == b.tool && (b.phase.RawResponse? ==> suits(plugin, tool));
    assert PluginOf(plugins, b.plugin) == Some(plugin) && ToolOf(tools, b.tool) == Some(tool);
    AdmittedAreAll(plugins, tools, suits, bindings, b);
    var admitted := AdmittedFor(plugins, tools, suits, bindings, b.tool);
    OrderIsStable(admitted, Bound(b, plugin));
    assert Bound(b, plugin) in multiset(admitted);
  }

  // ----- Reading it ----------------------------------------------------------------------

  function InPhase(bindings: seq<Bound>, phase: Phase): seq<Bound> {
    if bindings == [] then []
    else (if bindings[0].binding.phase == phase then [bindings[0]] else []) + InPhase(bindings[1..], phase)
  }

  /** The bindings a call finds for one exact revision and one phase. */
  function RuntimeBindings(snapshot: Snapshot, tool: RevisionKey, phase: Phase): seq<Bound> {
    InPhase(if tool in snapshot then snapshot[tool] else [], phase)
  }

  /** Choosing a phase keeps exactly its bindings, in the order of the snapshot. */
  lemma {:induction false} PhasesStaySorted(bindings: seq<Bound>, phase: Phase)
    requires Sorted(bindings)
    ensures Sorted(InPhase(bindings, phase))
    ensures forall b: Bound :: b in InPhase(bindings, phase) <==> b in bindings && b.binding.phase == phase
  {
    if bindings != [] {
      var rest := InPhase(bindings[1..], phase);
      PhasesStaySorted(bindings[1..], phase);
      forall i | 0 <= i < |rest| ensures !Before(rest[i], bindings[0]) {
        assert rest[i] in bindings[1..];
      }
    }
  }

  /** Ascending priorities, equal ones in the order of their names. */
  ghost predicate RunsInOrder(s: seq<Bound>) {
    forall i, j :: 0 <= i < j < |s| ==>
      || s[i].binding.priority < s[j].binding.priority
      || (s[i].binding.priority == s[j].binding.priority && !TextBefore(s[j].binding.name, s[i].binding.name))
  }

  /** A call of a revision finds exactly the effective bindings of that revision and phase, in
      the order of their priorities and names. */
  lemma CallsFindEffectiveBindings(snapshot: Snapshot, plugins: seq<Plugin>, tools: seq<Tool>, suits: (Plugin, Tool) -> bool, bindings: seq<Binding>, tool: RevisionKey, phase: Phase, b: Bound)
    requires IsSnapshotOf(snapshot, plugins, tools, suits, bindings)
    requires forall p, q :: p in plugins && q in plugins && p.active && q.active && p.key == q.key ==> p == q
    requires forall t, u :: t in tools && u in tools && t.active && u.active && t.Key() == u.Key() ==> t == u
    ensures b in RuntimeBindings(snapshot, tool, phase) <==>
            && b.binding in bindings && b.binding.tool == tool && b.binding.phase == phase
            && Effective(plugins, tools, suits, b.binding, b.plugin)
    ensures RunsInOrder(RuntimeBindings(snapshot, tool, phase))
  {
    if tool in snapshot {
      OrderIsSorted(AdmittedFor(plugins, tools, suits, bindings, tool));
      PhasesStaySorted(snapshot[tool], phase);
      if b in snapshot[tool] {
        FiledBindingsAreEffective(snapshot, plugins, tools, suits, bindings, tool, b);
      }
    }
    if b.binding in bindings && b.binding.tool == tool && Effective(plugins, tools, suits, b.binding, b.plugin) {
      EffectiveBindingsAreFiled(snapshot, plugins, tools, suits, bindings, b.binding, b.plugin);
    }
  }
}
