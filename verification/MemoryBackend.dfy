/** The in-memory cache backend: a map of list elements and a doubly linked list of the
    same elements, most recently used in front.  The list is held as the sequence of its
    elements; the map points at the element objects, as in the program. */
module MemoryBackend {
  import opened Common
  import opened RecencyList

  class Element {
    var record: Record

    constructor (record: Record)
      ensures this.record == record
    {
      this.record := record;
    }
  }

  /** The map leads from each key to the element at that key's place in the list. */
  ghost predicate Mirror(items: map<string, Element>, elements: seq<Element>, contents: seq<Record>) {
    && |elements| == |contents| == |items|
    && DistinctKeys(contents)
    && forall i :: 0 <= i < |contents| ==> contents[i].key in items && items[contents[i].key] == elements[i]
  }

  lemma MirrorKeys(items: map<string, Element>, elements: seq<Element>, contents: seq<Record>)
    requires Mirror(items, elements, contents)
    ensures items.Keys == KeysOf(contents)
  {
    DistinctKeysCount(contents);
    assert KeysOf(contents) <= items.Keys && |items.Keys| == |KeysOf(contents)|;
    SubsetOfSameSize(KeysOf(contents), items.Keys);
  }

  lemma MirrorFinds(items: map<string, Element>, elements: seq<Element>, contents: seq<Record>, key: string)
    returns (i: nat)
    requires Mirror(items, elements, contents)
    ensures key in items <==> Find(contents, key).Some?
    ensures key in items ==> i < |elements| && elements[i] == items[key]
                             && contents[i].key == key && Find(contents, key) == Some(contents[i])
  {
    MirrorKeys(items, elements, contents);
    FindNone(contents, key);
    i := 0;
    if key in items {
      i :| 0 <= i < |contents| && contents[i].key == key;
      FindAt(contents, i);
    }
  }

  lemma MirrorMoved(items: map<string, Element>, elements: seq<Element>, contents: seq<Record>, i: nat)
    requires Mirror(items, elements, contents) && i < |elements|
    ensures Mirror(items, Moved(elements, i), Moved(contents, i))
    ensures Moved(contents, i) == [contents[i]] + Purged(contents, {contents[i].key})
  {
    MovedAt(contents, i);
  }

  lemma MirrorRemoved(items: map<string, Element>, elements: seq<Element>, contents: seq<Record>, i: nat)
    requires Mirror(items, elements, contents) && i < |elements|
    ensures Mirror(items - {contents[i].key}, Without(elements, i), Without(contents, i))
    ensures Without(contents, i) == Purged(contents, {contents[i].key})
  {
    RemovedAt(contents, i);
    var rest := Without(contents, i);
    forall j | 0 <= j < |rest|
      ensures rest[j].key in items - {contents[i].key} && items[rest[j].key] == Without(elements, i)[j]
    {
      assert rest[j] == contents[if j < i then j else j + 1];
    }
  }

  lemma MirrorOverwritten(items: map<string, Element>, elements: seq<Element>, contents: seq<Record>, i: nat, r: Record)
    requires Mirror(items, elements, contents) && i < |elements| && r.key == contents[i].key
    ensures Mirror(items, elements, contents[i := r])
    ensures Purged(contents[i := r], {r.key}) == Purged(contents, {r.key})
  {
    OverwrittenAt(contents, i, r);
  }

  lemma MirrorPushed(items: map<string, Element>, elements: seq<Element>, contents: seq<Record>, e: Element, r: Record)
    requires Mirror(items, elements, contents) && r.key !in items
    ensures Mirror(items[r.key := e], [e] + elements, [r] + contents)
    ensures Purged(contents, {r.key}) == contents
  {
    var _ := MirrorFinds(items, elements, contents, r.key);
    PushedFront(contents, r);
    var c, es, m := [r] + contents, [e] + elements, items[r.key := e];
    forall i | 0 <= i < |c| ensures c[i].key in m && m[c[i].key] == es[i] {
      if i > 0 {
        assert c[i] == contents[i - 1] && es[i] == elements[i - 1];
      }
    }
  }

  ghost function Elements(keys: seq<string>): set<string> {
    set k | k in keys
  }

  lemma OneMore(keys: seq<string>, i: nat, all: set<string>)
    requires i < |keys|
    ensures Elements(keys[..i + 1]) == Elements(keys[..i]) + {keys[i]}
    ensures |all * Elements(keys[..i + 1])| ==
            |all * Elements(keys[..i])| + if keys[i] in all - Elements(keys[..i]) then 1 else 0
  {
    assert keys[..i + 1] == keys[..i] + [keys[i]];
    var a, b := all * Elements(keys[..i]), all * Elements(keys[..i + 1]);
    if keys[i] in all - Elements(keys[..i]) {
      assert b == a + {keys[i]};
    } else {
      assert b == a;
    }
  }

  ghost predicate NoRepeats(keys: seq<string>) {
    forall i, j :: 0 <= i < j < |keys| ==> keys[i] != keys[j]
  }

  /** Every record removed for expiry had expired by `now`. */
  ghost predicate ExpiredAt(l: seq<Record>, gone: set<string>, now: int) {
    forall r :: r in l && r.key in gone ==> Expired(r, now)
  }

  /** No record under these keys had expired at `now`. */
  ghost predicate LiveAt(l: seq<Record>, keys: set<string>, now: int) {
    forall r :: r in l && r.key in keys ==> !Expired(r, now)
  }

  lemma LiveOneMore(l: seq<Record>, keys: set<string>, key: string, now: int)
    requires DistinctKeys(l) && LiveAt(l, keys, now)
    requires Find(l, key).Some? && !Expired(Find(l, key).value, now)
    ensures LiveAt(l, keys + {key}, now)
  {
    forall r | r in l && r.key == key ensures !Expired(r, now) {
      var i :| 0 <= i < |l| && l[i] == r;
      FindAt(l, i);
    }
  }

  lemma LivePurged(l: seq<Record>, keys: set<string>, key: string, now: int)
    requires LiveAt(l, keys, now)
    ensures LiveAt(Purged(l, {key}), keys, now)
  {
    PurgedMembers(l, {key});
  }

  lemma PresentNotGone(was: seq<Record>, gone: set<string>, key: string)
    requires Find(Purged(was, gone), key).Some?
    ensures key !in gone
  {
    FindNone(Purged(was, gone), key);
    PurgedMembers(was, gone);
  }

  lemma ExpiredOneMore(was: seq<Record>, gone: set<string>, key: string, earlier: int, now: int)
    requires DistinctKeys(was) && ExpiredAt(was, gone, earlier) && earlier <= now && key !in gone
    requires Find(Purged(was, gone), key).Some? ==> Expired(Find(Purged(was, gone), key).value, now)
    ensures ExpiredAt(was, gone + {key}, now)
    ensures Purged(Purged(was, gone), {key}) == Purged(was, gone + {key})
  {
    PurgedTwice(was, gone, {key});
    PurgedMembers(was, gone);
    PurgedDistinct(was, gone);
    forall r | r in was && r.key == key ensures Expired(r, now) {
      var l := Purged(was, gone);
      var i :| 0 <= i < |l| && l[i] == r;
      FindAt(l, i);
    }
  }

  /** The records left of `was` after some were dropped for expiry by `now`, the keys in `seen`
      having been found live no earlier than `since`. */
  ghost predicate Swept(was: seq<Record>, l: seq<Record>, gone: set<string>, seen: set<string>, since: int, now: int) {
    l == Purged(was, gone) && ExpiredAt(was, gone, now) && LiveAt(l, seen, since)
  }

  lemma SweptOneMore(was: seq<Record>, l: seq<Record>, gone: set<string>, seen: set<string>, key: string, dropped: bool, since: int, earlier: int, now: int)
    requires DistinctKeys(was) && DistinctKeys(l) && Swept(was, l, gone, seen, since, earlier) && since <= earlier <= now
    requires Find(l, key).Some? && if dropped then Expired(Find(l, key).value, now) else !Expired(Find(l, key).value, earlier)
    ensures Swept(was, if dropped then Purged(l, {key}) else l, if dropped then gone + {key} else gone, seen + {key}, since, now)
  {
    if dropped {
      PresentNotGone(was, gone, key);
      ExpiredOneMore(was, gone, key, earlier, now);
      LivePurged(l, seen, key, since);
      PurgedMembers(l, {key});
    } else {
      LiveOneMore(l, seen, key, since);
    }
  }

  lemma TakenFrom(seen: set<string>, pending: set<string>, key: string)
    requires seen !! pending && key in pending
    ensures (seen + pending) - {key} == seen + (pending - {key})
    ensures seen + pending == (seen + {key}) + (pending - {key})
  {
  }

  /** The keys of `seen` the pattern matches. */
  ghost function Matched(seen: set<string>, matches: string -> Option<bool>): set<string> {
    set k | k in seen && matches(k) == Some(true)
  }

  lemma MatchedOneMore(keys: seq<string>, seen: set<string>, key: string, matches: string -> Option<bool>)
    requires NoRepeats(keys) && Elements(keys) == Matched(seen, matches) && key !in seen && matches(key).Some?
    ensures var all := if matches(key).value then keys + [key] else keys;
            NoRepeats(all) && Elements(all) == Matched(seen + {key}, matches)
  {
    assert forall i :: 0 <= i < |keys| ==> keys[i] in Elements(keys);
    if matches(key).value {
      assert Elements(keys + [key]) == Elements(keys) + {key};
      assert Matched(seen + {key}, matches) == Matched(seen, matches) + {key};
    } else {
      assert Matched(seen + {key}, matches) == Matched(seen, matches);
    }
  }

  lemma ReversedKeys(l: seq<Record>, keys: seq<string>)
    requires DistinctKeys(l) && |keys| == |l|
    requires forall j :: 0 <= j < |keys| ==> keys[j] == l[|l| - 1 - j].key
    ensures NoRepeats(keys) && Elements(keys) == KeysOf(l)
  {
    forall k | k in KeysOf(l) ensures k in Elements(keys) {
      var i :| 0 <= i < |l| && l[i].key == k;
      assert keys[|l| - 1 - i] == k;
    }
  }

  class MemoryBackend {
    const maxEntries: int
    var items: map<string, Element>
    var lru: seq<Element>
    var clock: int
    ghost var contents: seq<Record>

    /** The map and the list hold the same elements, and `contents` is what they hold. */
    ghost predicate Agree()
      reads this, lru
    {
      Mirror(items, lru, contents) && forall i :: 0 <= i < |lru| ==> lru[i].record == contents[i]
    }

    ghost predicate Valid()
      reads this, lru
    {
      Agree() && |contents| <= if maxEntries > 0 then maxEntries else 0
    }

    constructor (maxEntries: int)
      ensures Valid() && contents == [] && this.maxEntries == maxEntries && lru == []
    {
      this.maxEntries := maxEntries;
      items := map[];
      lru := [];
      contents := [];
      clock := 0;
    }

    /** Reading the clock; it never runs backwards. */
    method Now() returns (now: int)
      modifies this`clock
      ensures now == clock >= old(clock)
    {
      var tick: nat :| true;
      clock := clock + tick;
      now := clock;
    }

    /** Take an element out of the map and out of the list. */
    method Remove(element: Element)
      requires Agree() && element in lru
      modifies this`items, this`lru, this`contents
      ensures Agree()
      ensures contents == Purged(old(contents), {element.record.key})
      ensures items == old(items) - {element.record.key}
      ensures forall x :: x in lru ==> x in old(lru)
    {
      var i :| 0 <= i < |lru| && lru[i] == element;
      MirrorRemoved(items, lru, contents, i);
      items := items - {element.record.key};
      lru := Without(lru, i);
      contents := Without(contents, i);
    }

    /** Move an element of the list to its front. */
    method MoveToFront(element: Element)
      requires Agree() && element in lru
      modifies this`lru, this`contents
      ensures Agree()
      ensures contents == [element.record] + Purged(old(contents), {element.record.key})
      ensures |lru| == old(|lru|)
      ensures forall x :: x in lru ==> x in old(lru)
    {
      var i :| 0 <= i < |lru| && lru[i] == element;
      MirrorMoved(items, lru, contents, i);
      lru := Moved(lru, i);
      contents := Moved(contents, i);
    }

    /** Add an element for a new key at the front. */
    method PushFront(record: Record)
      requires Agree() && record.key !in items
      modifies this`items, this`lru, this`contents
      ensures Agree()
      ensures contents == [record] + Purged(old(contents), {record.key})
      ensures |contents| == old(|contents|) + 1
      ensures forall x :: x in lru ==> x in old(lru) || fresh(x)
    {
      var element := new Element(record);
      MirrorPushed(items, lru, contents, element, record);
      items := items[record.key := element];
      lru := [element] + lru;
      contents := [record] + contents;
    }

    /** Give an element already in the list a new record for its key, and move it to the front. */
    method Overwrite(element: Element, record: Record)
      requires Agree() && element in lru && element.record.key == record.key
      modifies this`lru, this`contents, element
      ensures Agree()
      ensures contents == [record] + Purged(old(contents), {record.key})
      ensures |contents| == old(|contents|)
      ensures forall x :: x in lru ==> x in old(lru)
    {
      var i :| 0 <= i < |lru| && lru[i] == element;
      MirrorOverwritten(items, lru, contents, i, record);
      assert forall j :: 0 <= j < |lru| && lru[j] == element ==> contents[j].key == contents[i].key;
      element.record := record;
      contents := contents[i := record];
      MoveToFront(element);
    }

    /** Remove from the back until the limit holds. */
    method Evict()
      requires Agree() && maxEntries > 0
      modifies this`items, this`lru, this`contents
      ensures Agree() && |contents| <= maxEntries
      ensures contents == Truncated(old(contents), maxEntries)
      ensures forall x :: x in lru ==> x in old(lru)
    {
      while |items| > maxEntries
        invariant Agree()
        invariant Truncated(contents, maxEntries) == Truncated(old(contents), maxEntries)
        invariant forall x :: x in lru ==> x in old(lru)
        decreases |items|
      {
        RemovedAt(contents, |lru| - 1);
        Remove(lru[|lru| - 1]);
      }
    }

    /** The stored value if the key is present and has not expired. */
    method Get(key: string) returns (value: Option<string>)
      requires Valid()
      modifies this`items, this`lru, this`clock, this`contents
      ensures Valid()
      ensures contents == Looked(old(contents), key, clock)
      ensures value == Answer(old(contents), key, clock)
    {
      var _ := MirrorFinds(items, lru, contents, key);
      if key !in items {
        return None;
      }
      var element := items[key];
      var record := element.record;
      if record.expiresAt.Some? {
        var now := Now();
        if now >= record.expiresAt.value {
          PurgedMembers(contents, {key});
          Remove(element);
          return None;
        }
      }
      MoveToFront(element);
      value := Some(record.value);
    }

    /** Store a value, evicting from the back while there are too many. */
    method Set(key: string, value: string, ttl: int)
      requires Valid()
      modifies this`items, this`lru, this`clock, this`contents, lru
      ensures Valid()
      ensures contents == Stored(old(contents), maxEntries,
                                 Record(key, value, if ttl > 0 then Some(clock + ttl) else None))
      ensures forall x :: x in lru ==> x in old(lru) || fresh(x)
    {
      if maxEntries <= 0 {
        return;
      }
      var expiresAt := None;
      if ttl > 0 {
        var now := Now();
        expiresAt := Some(now + ttl);
      }
      var record := Record(key, value, expiresAt);
      if key in items {
        var _ := MirrorFinds(items, lru, contents, key);
        Overwrite(items[key], record);
        return;
      }
      PushFront(record);
      Evict();
    }

    method DeleteOne(key: string) returns (present: bool)
      requires Valid()
      modifies this`items, this`lru, this`contents
      ensures Valid()
      ensures contents == Purged(old(contents), {key})
      ensures items.Keys == old(items).Keys - {key}
      ensures present <==> key in old(items)
      ensures forall x :: x in lru ==> x in old(lru)
    {
      var _ := MirrorFinds(items, lru, contents, key);
      present := key in items;
      if present {
        PurgedMembers(contents, {key});
        Remove(items[key]);
      } else {
        FindNone(contents, key);
        PurgedNothing(contents, {key});
      }
    }

    /** Delete the given keys and report how many were present. */
    method Delete(keys: seq<string>) returns (count: nat)
      requires Valid()
      modifies this`items, this`lru, this`contents
      ensures Valid()
      ensures contents == Purged(old(contents), Elements(keys))
      ensures count == |old(items).Keys * Elements(keys)|
      ensures items.Keys == old(items).Keys - Elements(keys)
      ensures forall x :: x in lru ==> x in old(lru)
    {
      count := 0;
      PurgedNothing(contents, {});
      assert Elements(keys[..0]) == {};
      for i := 0 to |keys|
        invariant Valid()
        invariant contents == Purged(old(contents), Elements(keys[..i]))
        invariant items.Keys == old(items).Keys - Elements(keys[..i])
        invariant count == |old(items).Keys * Elements(keys[..i])|
        invariant forall x :: x in lru ==> x in old(lru)
      {
        OneMore(keys, i, old(items).Keys);
        PurgedTwice(old(contents), Elements(keys[..i]), {keys[i]});
        var present := DeleteOne(keys[i]);
        count := count + if present then 1 else 0;
      }
      assert keys[..|keys|] == keys;
    }

    /** Drop the element of a key if it has expired at the instant of asking. */
    method DropIfExpired(key: string) returns (dropped: bool)
      requires Valid() && key in items
      modifies this`items, this`lru, this`clock, this`contents
      ensures Valid()
      ensures contents == if dropped then Purged(old(contents), {key}) else old(contents)
      ensures items.Keys == if dropped then old(items).Keys - {key} else old(items).Keys
      ensures old(clock) <= clock
      ensures Find(old(contents), key).Some?
      ensures dropped ==> Expired(Find(old(contents), key).value, clock)
      ensures !dropped ==> !Expired(Find(old(contents), key).value, old(clock))
      ensures forall x :: x in lru ==> x in old(lru)
    {
      var _ := MirrorFinds(items, lru, contents, key);
      dropped := false;
      var expiresAt := items[key].record.expiresAt;
      if expiresAt.Some? {
        var now := Now();
        if now >= expiresAt.value {
          PurgedMembers(contents, {key});
          Remove(items[key]);
          dropped := true;
        }
      }
    }

    /** Collect the keys a pattern matches, dropping expired elements on the way, in any
        order of the map.  `matches` answers nothing when the pattern is malformed. */
    method Scan(matches: string -> Option<bool>) returns (ok: bool, keys: seq<string>, ghost gone: set<string>)
      requires Valid()
      modifies this`items, this`lru, this`clock, this`contents
      ensures Valid()
      ensures contents == Purged(old(contents), gone)
      ensures ExpiredAt(old(contents), gone, clock)
      ensures ok ==> LiveAt(contents, KeysOf(contents), old(clock))
      ensures ok ==> NoRepeats(keys) && Elements(keys) == Matched(items.Keys, matches)
      ensures ok ==> forall k :: k in items ==> matches(k).Some?
      ensures !ok ==> keys == [] && exists k :: k in items && matches(k).None?
      ensures items.Keys == KeysOf(contents)
      ensures forall x :: x in lru ==> x in old(lru)
    {
      keys, gone := [], {};
      var pending := items.Keys;
      PurgedNothing(contents, {});
      ghost var was, seen := contents, {};
      while pending != {}
        invariant Valid() && old(clock) <= clock && DistinctKeys(was)
        invariant items.Keys == seen + pending && seen !! pending && gone !! items.Keys
        invariant contents == Purged(was, gone)
        invariant ExpiredAt(was, gone, clock)
        invariant LiveAt(contents, seen, old(clock))
        invariant NoRepeats(keys) && Elements(keys) == Matched(seen, matches)
        invariant forall k :: k in seen ==> matches(k).Some?
        invariant forall x :: x in lru ==> x in old(lru)
        decreases |pending|
      {
        var key :| key in pending;
        LivePurged(contents, seen, key, old(clock));
        TakenFrom(seen, pending, key);
        ghost var earlier := clock;
        var dropped := DropIfExpired(key);
        pending := pending - {key};
        if dropped {
          ExpiredOneMore(was, gone, key, earlier, clock);
          gone := gone + {key};
        } else {
          LiveOneMore(contents, seen, key, old(clock));
          var matched := matches(key);
          if matched.None? {
            MirrorKeys(items, lru, contents);
            return false, [], gone;
          }
          MatchedOneMore(keys, seen, key, matches);
          if matched.value {
            keys := keys + [key];
          }
          seen := seen + {key};
        }
      }
      MirrorKeys(items, lru, contents);
      assert items.Keys == seen;
      ok := true;
    }

    /** Drop what has expired and count the rest. */
    method Stats() returns (count: nat, ghost gone: set<string>)
      requires Valid()
      modifies this`items, this`lru, this`clock, this`contents
      ensures Valid()
      ensures contents == Purged(old(contents), gone)
      ensures ExpiredAt(old(contents), gone, clock)
      ensures LiveAt(contents, KeysOf(contents), old(clock))
      ensures count == |contents|
    {
      gone := {};
      ghost var was := contents;
      PurgedNothing(was, {});
      MirrorKeys(items, lru, contents);
      var keys := BackToFront();
      for i := 0 to |keys|
        invariant Valid() && old(clock) <= clock
        invariant Swept(was, contents, gone, Elements(keys[..i]), old(clock), clock)
        invariant forall j :: i <= j < |keys| ==> keys[j] in items
      {
        FirstSeen(keys, i);
        ghost var before, earlier := contents, clock;
        var dropped := DropIfExpired(keys[i]);
        SweptOneMore(was, before, gone, Elements(keys[..i]), keys[i], dropped, old(clock), earlier, clock);
        gone := if dropped then gone + {keys[i]} else gone;
      }
      assert keys[..|keys|] == keys;
      MirrorKeys(items, lru, contents);
      KeysOfPurged(was, gone);
      count := |items|;
    }

    /** The keys of the list, least recently used first. */
    method BackToFront() returns (keys: seq<string>)
      requires Valid()
      ensures NoRepeats(keys) && Elements(keys) == items.Keys
    {
      keys := [];
      var i := |lru|;
      while i > 0
        invariant 0 <= i <= |lru| && |keys| == |lru| - i
        invariant forall j :: 0 <= j < |keys| ==> keys[j] == contents[|lru| - 1 - j].key
      {
        i := i - 1;
        keys := keys + [lru[i].record.key];
      }
      MirrorKeys(items, lru, contents);
      ReversedKeys(contents, keys);
    }

    /** Forget everything and report how many elements there were. */
    method FlushAll() returns (count: nat)
      requires Valid()
      modifies this`items, this`lru, this`contents
      ensures Valid() && contents == []
      ensures count == |old(contents)|
    {
      count := |items|;
      items := map[];
      lru := [];
      contents := [];
    }
  }

  lemma {:induction false} NoRepeatsCount(keys: seq<string>)
    requires NoRepeats(keys)
    ensures |Elements(keys)| == |keys|
  {
    if keys != [] {
      var rest := keys[..|keys| - 1];
      NoRepeatsCount(rest);
      assert Elements(keys) == Elements(rest) + {keys[|keys| - 1]};
    }
  }

  /** A batch of distinct keys meets none of the batches before it. */
  lemma NextBatch(keys: seq<string>, start: nat, end: nat, all: set<string>)
    requires NoRepeats(keys) && start <= end <= |keys| && Elements(keys) <= all
    ensures Elements(keys[..end]) == Elements(keys[..start]) + Elements(keys[start..end])
    ensures all - Elements(keys[..start]) - Elements(keys[start..end]) == all - Elements(keys[..end])
    ensures |(all - Elements(keys[..start])) * Elements(keys[start..end])| == end - start
  {
    var batch := keys[start..end];
    assert keys[..end] == keys[..start] + batch;
    NoRepeatsCount(batch);
    assert forall i :: 0 <= i < |batch| ==> batch[i] in Elements(keys);
    assert (all - Elements(keys[..start])) * Elements(batch) == Elements(batch);
  }

  lemma FirstSeen(keys: seq<string>, i: nat)
    requires NoRepeats(keys) && i < |keys|
    ensures keys[i] !in Elements(keys[..i]) && keys[i] in Elements(keys)
    ensures Elements(keys[..i + 1]) == Elements(keys[..i]) + {keys[i]}
  {
    assert keys[..i + 1] == keys[..i] + [keys[i]];
  }

  /** What the cache manager adds: remove everything a pattern matches, in batches of 100.
      `expired` went because the scan found it expired, `matched` because it matched. */
  method ScanAndDelete(backend: MemoryBackend, matches: string -> Option<bool>)
    returns (ok: bool, count: nat, ghost expired: set<string>, ghost matched: set<string>)
    requires backend.Valid()
    modifies backend`items, backend`lru, backend`clock, backend`contents
    ensures backend.Valid()
    ensures backend.contents == Purged(old(backend.contents), expired + matched)
    ensures ExpiredAt(old(backend.contents), expired, backend.clock)
    ensures ok ==> matched == Matched(KeysOf(Purged(old(backend.contents), expired)), matches) && count == |matched|
    ensures ok ==> forall r :: r in backend.contents ==> matches(r.key) == Some(false)
    ensures !ok ==> count == 0 && matched == {}
  {
    var keys;
    ok, keys, expired := backend.Scan(matches);
    count, matched := 0, {};
    assert expired + {} == expired;
    if !ok {
      return;
    }
    ghost var was := backend.contents;
    count := DeleteInBatches(backend, keys);
    matched := Elements(keys);
    NoRepeatsCount(keys);
    PurgedTwice(old(backend.contents), expired, matched);
    RemainingUnmatched(was, matched, matches);
  }

  method DeleteInBatches(backend: MemoryBackend, keys: seq<string>) returns (count: nat)
    requires backend.Valid() && NoRepeats(keys) && Elements(keys) <= backend.items.Keys
    modifies backend`items, backend`lru, backend`contents
    ensures backend.Valid()
    ensures backend.contents == Purged(old(backend.contents), Elements(keys))
    ensures count == |keys|
  {
    ghost var was, all := backend.contents, backend.items.Keys;
    PurgedNothing(was, {});
    assert Elements(keys[..0]) == {};
    count := 0;
    var start := 0;
    while start < |keys|
      invariant 0 <= start <= |keys| && backend.Valid() && count == start
      invariant backend.contents == Purged(was, Elements(keys[..start]))
      invariant backend.items.Keys == all - Elements(keys[..start])
      decreases |keys| - start
    {
      var end := if start + 100 < |keys| then start + 100 else |keys|;
      NextBatch(keys, start, end, all);
      PurgedTwice(was, Elements(keys[..start]), Elements(keys[start..end]));
      var deleted := backend.Delete(keys[start..end]);
      count := count + deleted;
      start := end;
    }
    assert keys[..start] == keys;
  }

  lemma RemainingUnmatched(l: seq<Record>, matched: set<string>, matches: string -> Option<bool>)
    requires matched == Matched(KeysOf(l), matches)
    requires forall k :: k in KeysOf(l) ==> matches(k).Some?
    ensures forall r :: r in Purged(l, matched) ==> matches(r.key) == Some(false)
  {
    PurgedMembers(l, matched);
    forall r | r in Purged(l, matched) ensures matches(r.key) == Some(false) {
      var i :| 0 <= i < |l| && l[i] == r;
      assert r.key in KeysOf(l) && r.key !in Matched(KeysOf(l), matches);
      assert matches(r.key).value ==> matches(r.key) == Some(true);
      assert !matches(r.key).value ==> matches(r.key) == Some(false);
    }
  }
}
