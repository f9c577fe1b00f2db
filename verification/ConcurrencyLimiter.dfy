/** The bound on active calls per tool, or per tool and principal. */
module ConcurrencyLimiter {
  import opened Common

  const MAX_ENTRIES := 10000
  /** Fifteen minutes, in nanoseconds. */
  const IDLE_TTL := 15 * 60 * 1_000_000_000

  /** What a caller asks for.  A limit of zero or less is no limit. */
  datatype Config = Config(limit: int, perPrincipal: bool)

  function KeyFor(toolName: string, principal: string, config: Config): string {
    if config.perPrincipal then toolName + ['\0'] + principal else toolName
  }

  // ----- The limiter as a table ----------------------------------------------------------

  datatype Slot = Slot(limit: int, perPrincipal: bool, active: nat, lastSeen: int)

  type Table = map<string, Slot>

  predicate Idle(s: Slot, now: int) {
    s.active == 0 && now - s.lastSeen > IDLE_TTL
  }

  function WithoutIdle(t: Table, now: int): Table {
    map k | k in t && !Idle(t[k], now) :: t[k]
  }

  predicate Matches(s: Slot, config: Config) {
    s.limit == config.limit && s.perPrincipal == config.perPrincipal
  }

  /** The table a new entry would be put into. */
  function RoomFor(t: Table, key: string, now: int): Table {
    if key in t then t - {key} else if |t| >= MAX_ENTRIES then WithoutIdle(t, now) else t
  }

  /** A permit is refused at the limit, while calls under an older limit are active, and when
      the table is full of entries in use. */
  predicate Grants(t: Table, key: string, config: Config, now: int) {
    if key in t && Matches(t[key], config) then t[key].active < t[key].limit
    else if key in t && t[key].active > 0 then false
    else |RoomFor(t, key, now)| < MAX_ENTRIES
  }

  function AfterAcquire(t: Table, key: string, config: Config, now: int): Table {
    if key in t && Matches(t[key], config) then
      if t[key].active < t[key].limit then t[key := t[key].(active := t[key].active + 1)] else t
    else if key in t && t[key].active > 0 then t
    else
      var room := RoomFor(t, key, now);
      if |room| < MAX_ENTRIES then room[key := Slot(config.limit, config.perPrincipal, 1, now)] else room
  }

  function AfterRelease(t: Table, key: string, now: int): Table {
    if key in t && t[key].active > 0 then t[key := t[key].(active := t[key].active - 1, lastSeen := now)] else t
  }

  // ----- Conservation over runs ----------------------------------------------------------

  /** Every permit outstanding is counted by its entry, and nothing else is; no entry exceeds
      its limit, and the table its cap. */
  ghost predicate Conserved(t: Table, held: multiset<string>) {
    && (forall k :: k in t ==> t[k].active == held[k] && 0 < t[k].limit && t[k].active <= t[k].limit)
    && (forall k :: k in held ==> k in t)
    && |t| <= MAX_ENTRIES
  }

  lemma WithoutIdleIsSmaller(t: Table, now: int)
    ensures |WithoutIdle(t, now)| <= |t|
  {
    assert WithoutIdle(t, now).Keys <= t.Keys;
    SubsetCount(WithoutIdle(t, now).Keys, t.Keys);
  }

  lemma SizeAfterRemoval(t: Table, key: string)
    requires key in t
    ensures |t - {key}| == |t| - 1
  {
    assert (t - {key}).Keys == t.Keys - {key};
  }

  lemma SizeAfterInsertion(t: Table, key: string, s: Slot)
    ensures |t[key := s]| == if key in t then |t| else |t| + 1
  {
    assert t[key := s].Keys == t.Keys + {key};
  }

  /** Making room drops no entry with a permit outstanding. */
  lemma RoomKeepsHeld(t: Table, held: multiset<string>, key: string, now: int)
    requires Conserved(t, held) && (key in t ==> t[key].active == 0)
    ensures Conserved(RoomFor(t, key, now), held) && key !in RoomFor(t, key, now) && key !in held
  {
    if key in t {
      SizeAfterRemoval(t, key);
    } else if |t| >= MAX_ENTRIES {
      WithoutIdleIsSmaller(t, now);
    }
  }

  lemma TakingConserves(t: Table, held: multiset<string>, key: string)
    requires Conserved(t, held) && key in t && t[key].active < t[key].limit
    ensures Conserved(t[key := t[key].(active := t[key].active + 1)], held + multiset{key})
  {
    SizeAfterInsertion(t, key, t[key].(active := t[key].active + 1));
  }

  lemma AddingConserves(t: Table, held: multiset<string>, key: string, config: Config, now: int)
    requires Conserved(t, held) && key !in t && |t| < MAX_ENTRIES && config.limit > 0
    ensures Conserved(t[key := Slot(config.limit, config.perPrincipal, 1, now)], held + multiset{key})
  {
    SizeAfterInsertion(t, key, Slot(config.limit, config.perPrincipal, 1, now));
  }

  lemma AcquireConserves(t: Table, held: multiset<string>, key: string, config: Config, now: int)
    requires Conserved(t, held) && config.limit > 0
    ensures Conserved(AfterAcquire(t, key, config, now),
                      if Grants(t, key, config, now) then held + multiset{key} else held)
  {
    if key in t && Matches(t[key], config) {
      if t[key].active < t[key].limit {
        TakingConserves(t, held, key);
      }
    } else if key !in t || t[key].active == 0 {
      RoomKeepsHeld(t, held, key, now);
      if |RoomFor(t, key, now)| < MAX_ENTRIES {
        AddingConserves(RoomFor(t, key, now), held, key, config, now);
      }
    }
  }

  lemma ReleaseConserves(t: Table, held: multiset<string>, key: string, now: int)
    requires Conserved(t, held) && key in held
    ensures Conserved(AfterRelease(t, key, now), held - multiset{key})
    ensures key in t && AfterRelease(t, key, now)[key].active == t[key].active - 1
  {
    SizeAfterInsertion(t, key, AfterRelease(t, key, now)[key]);
  }

  /** An entry under an older limit is replaced as if it had not been there. */
  lemma ReplacingIsAdding(t: Table, key: string, config: Config, now: int)
    requires key in t && !Matches(t[key], config) && t[key].active == 0 && |t| <= MAX_ENTRIES
    ensures AfterAcquire(t - {key}, key, config, now) == AfterAcquire(t, key, config, now)
    ensures RoomFor(t - {key}, key, now) == RoomFor(t, key, now)
  {
    SizeAfterRemoval(t, key);
  }

  lemma AcquireStaysCapped(t: Table, key: string, config: Config, now: int)
    requires |t| <= MAX_ENTRIES
    ensures |AfterAcquire(t, key, config, now)| <= MAX_ENTRIES
    ensures forall k :: k in t && t[k].active > 0 ==> k in AfterAcquire(t, key, config, now)
  {
    var room := RoomFor(t, key, now);
    if key in t {
      SizeAfterInsertion(t, key, t[key].(active := t[key].active + 1));
      SizeAfterRemoval(t, key);
    } else {
      WithoutIdleIsSmaller(t, now);
    }
    SizeAfterInsertion(room, key, Slot(config.limit, config.perPrincipal, 1, now));
  }

  datatype Operation = Acquire(key: string, config: Config, now: int) | Release(key: string, now: int)

  function TableAfter(t: Table, op: Operation): Table {
    match op
    case Acquire(key, config, now) => if config.limit <= 0 then t else AfterAcquire(t, key, config, now)
    case Release(key, now) => AfterRelease(t, key, now)
  }

  function HeldAfter(t: Table, held: multiset<string>, op: Operation): multiset<string> {
    match op
    case Acquire(key, config, now) => if config.limit > 0 && Grants(t, key, config, now) then held + multiset{key} else held
    case Release(key, _) => held - multiset{key}
  }

  /** Callers release only permits they hold, each once. */
  ghost predicate Fair(t: Table, held: multiset<string>, ops: seq<Operation>)
    decreases |ops|
  {
    ops == [] || ((ops[0].Release? ==> ops[0].key in held)
                  && Fair(TableAfter(t, ops[0]), HeldAfter(t, held, ops[0]), ops[1..]))
  }

  function RunTable(t: Table, ops: seq<Operation>): Table
    decreases |ops|
  {
    if ops == [] then t else RunTable(TableAfter(t, ops[0]), ops[1..])
  }

  function RunHeld(t: Table, held: multiset<string>, ops: seq<Operation>): multiset<string>
    decreases |ops|
  {
    if ops == [] then held else RunHeld(TableAfter(t, ops[0]), HeldAfter(t, held, ops[0]), ops[1..])
  }

  /** Permits are conserved over every run, whatever limits change and entries are evicted. */
  lemma {:induction false} RunConserves(t: Table, held: multiset<string>, ops: seq<Operation>)
    requires Conserved(t, held) && Fair(t, held, ops)
    ensures Conserved(RunTable(t, ops), RunHeld(t, held, ops))
    decreases |ops|
  {
    if ops != [] {
      match ops[0] {
        case Acquire(key, config, now) => if config.limit > 0 { AcquireConserves(t, held, key, config, now); }
        case Release(key, now) => ReleaseConserves(t, held, key, now);
      }
      RunConserves(TableAfter(t, ops[0]), HeldAfter(t, held, ops[0]), ops[1..]);
    }
  }

  // ----- What is granted -----------------------------------------------------------------

  /** Callers of one tool share an entry, or each principal has its own: entries of different
      tools, and of different principals, never meet. */
  lemma EntriesAreApart(tool: string, principal: string, tool': string, principal': string, config: Config)
    requires '\0' !in tool && '\0' !in tool'
    ensures KeyFor(tool, principal, config) == KeyFor(tool', principal', config) <==>
            tool == tool' && (config.perPrincipal ==> principal == principal')
  {
    if config.perPrincipal {
      var k, k' := tool + ['\0'] + principal, tool' + ['\0'] + principal';
      assert k[..|tool|] == tool && k[|tool| + 1..] == principal && k[|tool|] == '\0';
      assert k'[..|tool'|] == tool' && k'[|tool'| + 1..] == principal' && k'[|tool'|] == '\0';
      assert |tool| < |tool'| ==> k'[|tool|] == tool'[|tool|] && tool'[|tool|] in tool';
      assert |tool'| < |tool| ==> k[|tool'|] == tool[|tool'|] && tool[|tool'|] in tool;
    }
  }

  /** The entries that could not be evicted. */
  function InUse(t: Table, now: int): set<string> {
    set k | k in t && (t[k].active > 0 || now - t[k].lastSeen <= 900_000_000_000)
  }

  lemma WithoutIdleIsInUse(t: Table, now: int)
    ensures WithoutIdle(t, now).Keys == InUse(t, now)
  {
  }

  /** With its limit unchanged, a call is granted exactly while fewer permits than that are
      outstanding for its entry.  Otherwise none may be outstanding, and there must be room: an
      entry to replace, or fewer than ten thousand, not counting idle ones. */
  lemma GrantedExactly(t: Table, held: multiset<string>, key: string, config: Config, now: int)
    requires Conserved(t, held)
    ensures Grants(t, key, config, now) <==>
            if key in t && t[key].limit == config.limit && t[key].perPrincipal == config.perPrincipal then held[key] < config.limit
            else held[key] == 0 && (key in t || |t| < 10_000 || |InUse(t, now)| < 10_000)
  {
    if key in t {
      SizeAfterRemoval(t, key);
    } else {
      WithoutIdleIsInUse(t, now);
      assert |WithoutIdle(t, now)| == |WithoutIdle(t, now).Keys|;
    }
  }

  /** An entry survives what other callers do for fifteen minutes after its last permit was given
      back, however long before it was created. */
  lemma FreshEntriesStay(t: Table, key: string, config: Config, now: int, released: int, other: string, config': Config, later: int)
    requires Grants(t, key, config, now) && key !in t && other != key && later - released <= 900_000_000_000
    ensures key in AfterAcquire(AfterRelease(AfterAcquire(t, key, config, now), key, released), other, config', later)
  {
  }

  // ----- The limiter object --------------------------------------------------------------

  /** A channel of `limit` slots with its bookkeeping. */
  class Entry {
    var filled: nat
    var active: nat
    var lastSeen: int
    const limit: int
    const perPrincipal: bool

    constructor (config: Config, now: int)
      requires config.limit > 0
      ensures limit == config.limit && perPrincipal == config.perPrincipal
      ensures filled == 0 && active == 1 && lastSeen == now
    {
      limit, perPrincipal := config.limit, config.perPrincipal;
      filled, active, lastSeen := 0, 1, now;
    }

    /** Fills one slot; with none free the sender would block. */
    method Send()
      requires filled < limit
      modifies this`filled
      ensures filled == old(filled) + 1
    {
      filled := filled + 1;
    }

    /** Frees one slot. */
    method Receive(now: int)
      requires filled > 0
      modifies this`filled, this`active, this`lastSeen
      ensures filled == old(filled) - 1 && lastSeen == now
      ensures active == if old(active) > 0 then old(active) - 1 else 0
    {
      filled := filled - 1;
      if active > 0 {
        active := active - 1;
      }
      lastSeen := now;
    }
  }

  datatype Permit = Permit(key: string, entry: Entry)

  datatype Answer = Unlimited | Granted(permit: Permit) | Refused

  class Limiter {
    var entries: map<string, Entry>
    /** What the entries amount to. */
    ghost var table: Table

    /** Each entry shows as its row of the table, its channel holding one item per permit. */
    ghost predicate Mirror()
      reads this, entries.Values
    {
      && table.Keys == entries.Keys
      && (forall j, k :: j in entries && k in entries && j != k ==> entries[j] != entries[k])
      && forall k :: k in entries ==>
           table[k] == Slot(entries[k].limit, entries[k].perPrincipal, entries[k].active, entries[k].lastSeen)
           && entries[k].filled == entries[k].active
    }

    ghost predicate Valid()
      reads this, entries.Values
    {
      Mirror() && |table| <= MAX_ENTRIES
    }

    constructor ()
      ensures Valid() && table == map[]
    {
      entries, table := map[], map[];
    }

    method EvictIdle(now: int)
      requires Mirror()
      modifies this`entries, this`table
      ensures Mirror() && table == WithoutIdle(old(table), now)
      ensures forall k :: k in entries ==> k in old(entries) && entries[k] == old(entries[k])
    {
      var rest := entries.Keys;
      while rest != {}
        invariant rest <= entries.Keys <= old(entries.Keys)
        invariant table == old(table)
        invariant forall k :: k in entries ==> entries[k] == old(entries[k])
        invariant forall k :: k in old(entries) ==> (k in entries <==> k in rest || !Idle(table[k], now))
      {
        var k :| k in rest;
        var entry := entries[k];
        assert entry == old(entries[k]) && table[k].active == entry.active && table[k].lastSeen == entry.lastSeen;
        if entry.active == 0 && now - entry.lastSeen > IDLE_TTL {
          entries := entries - {k};
        }
        rest := rest - {k};
      }
      table := WithoutIdle(table, now);
      assert table.Keys == entries.Keys;
    }

    method TakeSlot(key: string) returns (taken: bool)
      requires Mirror() && key in entries
      modifies this`table, entries[key]
      ensures Mirror()
      ensures taken == (old(table)[key].active < old(table)[key].limit)
      ensures table == if taken then old(table)[key := old(table)[key].(active := old(table)[key].active + 1)] else old(table)
    {
      var entry := entries[key];
      taken := entry.filled < entry.limit;
      if taken {
        entry.Send();
        entry.active := entry.active + 1;
        table := table[key := table[key].(active := table[key].active + 1)];
      }
    }

    /** A new entry with its first permit taken. */
    method Insert(key: string, config: Config, now: int)
      requires Mirror() && key !in entries && config.limit > 0
      modifies this`entries, this`table
      ensures Mirror()
      ensures table == old(table)[key := Slot(config.limit, config.perPrincipal, 1, now)]
      ensures key in entries && fresh(entries[key]) && entries == old(entries)[key := entries[key]]
    {
      var entry := new Entry(config, now);
      entries := entries[key := entry];
      entry.Send();
      table := table[key := Slot(config.limit, config.perPrincipal, 1, now)];
    }

    /** Adds an entry with its first permit, if the table has room for it. */
    method AddEntry(key: string, config: Config, now: int) returns (added: bool)
      requires Mirror() && key !in entries && config.limit > 0
      modifies this`entries, this`table
      ensures Mirror()
      ensures added == (|RoomFor(old(table), key, now)| < MAX_ENTRIES)
      ensures table == AfterAcquire(old(table), key, config, now)
      ensures added ==> key in entries && fresh(entries[key])
      ensures forall k :: k in entries && k != key ==> k in old(entries) && entries[k] == old(entries[k])
    {
      assert |table| == |table.Keys| == |entries.Keys| == |entries|;
      if |entries| >= MAX_ENTRIES {
        EvictIdle(now);
      }
      assert |table| == |table.Keys| == |entries.Keys| == |entries|;
      if |entries| >= MAX_ENTRIES {
        return false;
      }
      Insert(key, config, now);
      added := true;
    }

    /** Drops an entry without permits. */
    method Drop(key: string)
      requires Mirror() && key in entries
      modifies this`entries, this`table
      ensures Mirror() && entries == old(entries) - {key} && table == old(table) - {key}
    {
      entries := entries - {key};
      table := table - {key};
    }

    /** The permit for a key, whatever entry it comes from. */
    method AcquireKey(key: string, config: Config, now: int) returns (taken: bool)
      requires Mirror() && config.limit > 0 && |table| <= MAX_ENTRIES
      modifies this`entries, this`table, entries.Values
      ensures Mirror()
      ensures taken == Grants(old(table), key, config, now)
      ensures table == AfterAcquire(old(table), key, config, now)
      ensures taken ==> key in entries
      ensures forall k :: k in entries && (k != key || (key in old(table) && old(table)[key].active > 0)) ==>
                k in old(entries) && entries[k] == old(entries[k])
    {
      if key in entries && entries[key].limit == config.limit && entries[key].perPrincipal == config.perPrincipal {
        taken := TakeSlot(key);
      } else {
        if key in entries {
          if entries[key].active > 0 {
            return false;
          }
          ReplacingIsAdding(table, key, config, now);
          Drop(key);
        }
        taken := AddEntry(key, config, now);
      }
    }

    /** Asks for a permit. */
    method Acquire(toolName: string, principal: string, config: Config, now: int) returns (answer: Answer)
      requires Valid()
      modifies this`entries, this`table, entries.Values
      ensures Valid()
      ensures table == TableAfter(old(table), Operation.Acquire(KeyFor(toolName, principal, config), config, now))
      ensures answer.Unlimited? <==> config.limit <= 0
      ensures config.limit > 0 ==> (answer.Granted? <==> Grants(old(table), KeyFor(toolName, principal, config), config, now))
      ensures answer.Granted? ==> answer.permit.key == KeyFor(toolName, principal, config)
                                  && answer.permit.key in entries && answer.permit.entry == entries[answer.permit.key]
      ensures forall k :: k in old(table) && old(table)[k].active > 0 ==>
                k in entries && k in old(entries) && entries[k] == old(entries[k])
    {
      if config.limit <= 0 {
        return Unlimited;
      }
      var key := KeyFor(toolName, principal, config);
      AcquireStaysCapped(table, key, config, now);
      var taken := AcquireKey(key, config, now);
      answer := if taken then Granted(Permit(key, entries[key])) else Refused;
    }

    /** Gives one permit back, if its entry is the one in the table still. */
    method Release(permit: Permit, now: int)
      requires Valid()
      modifies this`table, permit.entry
      ensures Valid()
      ensures table == if old(permit.key in entries && entries[permit.key] == permit.entry)
                       then AfterRelease(old(table), permit.key, now) else old(table)
    {
      var entry := permit.entry;
      if permit.key !in entries || entries[permit.key] != entry {
        return;
      }
      if entry.filled > 0 {
        SizeAfterInsertion(table, permit.key, AfterRelease(table, permit.key, now)[permit.key]);
        entry.Receive(now);
        table := AfterRelease(table, permit.key, now);
      }
    }
  }
}
