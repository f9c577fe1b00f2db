/** The bounded cache as a plain sequence, most recently used first.  This is the
    specification the in-memory backend is proved against. */
module RecencyList {
  import opened Common

  /** A stored value; no expiry when the requested time to live is not positive. */
  datatype Record = Record(key: string, value: string, expiresAt: Option<int>)

  predicate Expired(r: Record, now: int) {
    r.expiresAt.Some? && now >= r.expiresAt.value
  }

  ghost predicate DistinctKeys(l: seq<Record>) {
    forall i, j :: 0 <= i < j < |l| ==> l[i].key != l[j].key
  }

  ghost function KeysOf(l: seq<Record>): set<string> {
    set i | 0 <= i < |l| :: l[i].key
  }

  function Find(l: seq<Record>, key: string): Option<Record> {
    if l == [] then None
    else if l[0].key == key then Some(l[0])
    else Find(l[1..], key)
  }

  /** The records whose key is not in `gone`, in their order. */
  function Purged(l: seq<Record>, gone: set<string>): seq<Record> {
    if l == [] then []
    else if l[0].key in gone then Purged(l[1..], gone)
    else [l[0]] + Purged(l[1..], gone)
  }

  function Truncated(l: seq<Record>, limit: int): seq<Record> {
    if limit < 0 then [] else if |l| <= limit then l else l[..limit]
  }

  /** Storing a record: in front, nothing kept behind the limit.  No storage at all when
      the limit is not positive. */
  function Stored(l: seq<Record>, limit: int, r: Record): seq<Record> {
    if limit <= 0 then l else Truncated([r] + Purged(l, {r.key}), limit)
  }

  /** Looking a key up at an instant: a live record moves to the front, an expired one goes. */
  function Looked(l: seq<Record>, key: string, now: int): seq<Record> {
    var found := Find(l, key);
    if found.None? then l
    else if Expired(found.value, now) then Purged(l, {key})
    else [found.value] + Purged(l, {key})
  }

  function Answer(l: seq<Record>, key: string, now: int): Option<string> {
    var found := Find(l, key);
    if found.None? || Expired(found.value, now) then None else Some(found.value.value)
  }

  // ---------------------------------------------------------------------------
  // Facts about purging.

  lemma {:induction false} PurgedMembers(l: seq<Record>, gone: set<string>)
    ensures |Purged(l, gone)| <= |l|
    ensures forall x :: x in Purged(l, gone) <==> x in l && x.key !in gone
  {
    if l != [] {
      PurgedMembers(l[1..], gone);
      assert forall x :: x in l <==> x == l[0] || x in l[1..];
    }
  }

  lemma {:induction false} PurgedDistinct(l: seq<Record>, gone: set<string>)
    requires DistinctKeys(l)
    ensures DistinctKeys(Purged(l, gone))
  {
    if l != [] {
      PurgedDistinct(l[1..], gone);
      PurgedMembers(l[1..], gone);
      var rest := Purged(l[1..], gone);
      assert forall i :: 0 <= i < |rest| ==> rest[i] in l[1..] && rest[i].key != l[0].key;
    }
  }

  lemma {:induction false} PurgedConcat(a: seq<Record>, b: seq<Record>, gone: set<string>)
    ensures Purged(a + b, gone) == Purged(a, gone) + Purged(b, gone)
  {
    if a == [] {
      assert a + b == b;
    } else {
      PurgedConcat(a[1..], b, gone);
      assert (a + b)[1..] == a[1..] + b;
      assert Purged(a + b, gone) == if a[0].key in gone then Purged(a[1..] + b, gone) else [a[0]] + Purged(a[1..] + b, gone);
    }
  }

  lemma {:induction false} PurgedNothing(l: seq<Record>, gone: set<string>)
    requires forall i :: 0 <= i < |l| ==> l[i].key !in gone
    ensures Purged(l, gone) == l
  {
    if l != [] {
      PurgedNothing(l[1..], gone);
    }
  }

  /** Removing the one record at a known position. */
  lemma {:induction false} PurgedAt(l: seq<Record>, i: nat)
    requires DistinctKeys(l) && i < |l|
    ensures Purged(l, {l[i].key}) == l[..i] + l[i + 1..]
  {
    if i == 0 {
      PurgedNothing(l[1..], {l[0].key});
      assert l[..0] + l[1..] == l[1..];
    } else {
      PurgedAt(l[1..], i - 1);
      assert l[..i] + l[i + 1..] == [l[0]] + (l[1..][..i - 1] + l[1..][i..]);
    }
  }

  lemma {:induction false} PurgedTwice(l: seq<Record>, a: set<string>, b: set<string>)
    ensures Purged(Purged(l, a), b) == Purged(l, a + b)
  {
    if l != [] {
      PurgedTwice(l[1..], a, b);
      if l[0].key !in a {
        assert ([l[0]] + Purged(l[1..], a))[1..] == Purged(l[1..], a);
      }
    }
  }

  lemma {:induction false} FindAt(l: seq<Record>, i: nat)
    requires DistinctKeys(l) && i < |l|
    ensures Find(l, l[i].key) == Some(l[i])
  {
    if i > 0 {
      FindAt(l[1..], i - 1);
    }
  }

  lemma {:induction false} FindNone(l: seq<Record>, key: string)
    ensures Find(l, key).None? <==> forall i :: 0 <= i < |l| ==> l[i].key != key
    ensures Find(l, key).Some? ==> Find(l, key).value in l && Find(l, key).value.key == key
  {
    if l != [] {
      FindNone(l[1..], key);
    }
  }

  // ---------------------------------------------------------------------------
  // Runs of operations.

  /** What a caller can do; `Discard` is a deletion, a flush, or the removal of expired
      records by a scan or by the statistics. */
  datatype Operation =
    | Put(record: Record)
    | Get(key: string, now: int)
    | Discard(gone: set<string>)

  function Apply(l: seq<Record>, limit: int, op: Operation): seq<Record> {
    match op
    case Put(r) => Stored(l, limit, r)
    case Get(key, now) => Looked(l, key, now)
    case Discard(gone) => Purged(l, gone)
  }

  function ApplyAll(l: seq<Record>, limit: int, ops: seq<Operation>): seq<Record>
    decreases |ops|
  {
    if ops == [] then l else ApplyAll(Apply(l, limit, ops[0]), limit, ops[1..])
  }

  /** The keys an operation brings to the front: the stored one, or the one hit. */
  function Touches(l: seq<Record>, op: Operation): set<string> {
    match op
    case Put(r) => {r.key}
    case Get(key, now) => if Answer(l, key, now).Some? then {key} else {}
    case Discard(_) => {}
  }

  function Touched(l: seq<Record>, limit: int, ops: seq<Operation>): set<string>
    decreases |ops|
  {
    if ops == [] then {}
    else Touches(l, ops[0]) + Touched(Apply(l, limit, ops[0]), limit, ops[1..])
  }

  /** The operation neither overwrites nor removes the record. */
  predicate Spares(op: Operation, r: Record) {
    match op
    case Put(other) => other.key != r.key
    case Get(key, now) => key == r.key ==> !Expired(r, now)
    case Discard(gone) => r.key !in gone
  }

  lemma ApplyDistinct(l: seq<Record>, limit: int, op: Operation)
    requires DistinctKeys(l)
    ensures DistinctKeys(Apply(l, limit, op))
  {
    match op
    case Put(r) =>
      FrontDistinct(l, r);
    case Get(key, now) =>
      FindNone(l, key);
      PurgedDistinct(l, {key});
      if Find(l, key).Some? {
        FrontDistinct(l, Find(l, key).value);
      }
    case Discard(gone) =>
      PurgedDistinct(l, gone);
  }

  lemma ApplyWithinLimit(l: seq<Record>, limit: int, op: Operation)
    requires DistinctKeys(l) && |l| <= limit
    ensures |Apply(l, limit, op)| <= limit
  {
    match op
    case Put(_) =>
    case Discard(gone) => PurgedMembers(l, gone);
    case Get(key, now) =>
      if Find(l, key).Some? {
        PurgeOne(l, key);
      }
  }

  lemma PurgeOne(l: seq<Record>, key: string)
    requires DistinctKeys(l) && Find(l, key).Some?
    ensures |Purged(l, {key})| == |l| - 1
  {
    FindNone(l, key);
    var i :| 0 <= i < |l| && l[i].key == key;
    PurgedAt(l, i);
  }

  /** In every run from an empty cache the keys stay distinct and the limit holds. */
  lemma {:induction false} RunStaysBounded(l: seq<Record>, limit: int, ops: seq<Operation>)
    requires DistinctKeys(l) && |l| <= limit
    ensures DistinctKeys(ApplyAll(l, limit, ops)) && |ApplyAll(l, limit, ops)| <= limit
    decreases |ops|
  {
    if ops != [] {
      ApplyDistinct(l, limit, ops[0]);
      ApplyWithinLimit(l, limit, ops[0]);
      RunStaysBounded(Apply(l, limit, ops[0]), limit, ops[1..]);
    }
  }

  // ---------------------------------------------------------------------------
  // The recency window.

  lemma {:induction false} DistinctKeysCount(l: seq<Record>)
    requires DistinctKeys(l)
    ensures |KeysOf(l)| == |l|
  {
    if l != [] {
      var rest := l[..|l| - 1];
      DistinctKeysCount(rest);
      assert KeysOf(l) == KeysOf(rest) + {l[|l| - 1].key};
    }
  }

  lemma KeysOfPurged(l: seq<Record>, gone: set<string>)
    ensures KeysOf(Purged(l, gone)) == KeysOf(l) - gone
  {
    PurgedMembers(l, gone);
    var p := Purged(l, gone);
    forall k ensures k in KeysOf(p) <==> k in KeysOf(l) - gone {
      if k in KeysOf(p) {
        var i :| 0 <= i < |p| && p[i].key == k;
        assert p[i] in p;
      }
      if k in KeysOf(l) - gone {
        var i :| 0 <= i < |l| && l[i].key == k;
        assert l[i] in p;
      }
    }
  }

  /** Putting a record in front of the others keeps the keys distinct. */
  lemma FrontDistinct(l: seq<Record>, r: Record)
    requires DistinctKeys(l)
    ensures DistinctKeys([r] + Purged(l, {r.key}))
  {
    PurgedDistinct(l, {r.key});
    PurgedMembers(l, {r.key});
    var p := Purged(l, {r.key});
    assert forall i :: 0 <= i < |p| ==> p[i] in p && p[i].key != r.key;
  }

  lemma ToFrontKeys(x: Record, l: seq<Record>)
    ensures KeysOf([x] + l) == {x.key} + KeysOf(l)
  {
    var all := [x] + l;
    assert all[0] == x && forall i :: 0 <= i < |l| ==> all[i + 1] == l[i];
  }

  function Without<T>(l: seq<T>, i: nat): seq<T>
    requires i < |l|
  {
    l[..i] + l[i + 1..]
  }

  function Moved<T>(l: seq<T>, i: nat): seq<T>
    requires i < |l|
  {
    [l[i]] + Without(l, i)
  }

  lemma MovedAt(l: seq<Record>, i: nat)
    requires DistinctKeys(l) && i < |l|
    ensures Moved(l, i) == [l[i]] + Purged(l, {l[i].key})
    ensures DistinctKeys(Moved(l, i)) && KeysOf(Moved(l, i)) == KeysOf(l)
  {
    PurgedAt(l, i);
    FrontDistinct(l, l[i]);
    KeysOfPurged(l, {l[i].key});
    ToFrontKeys(l[i], Purged(l, {l[i].key}));
  }

  lemma RemovedAt(l: seq<Record>, i: nat)
    requires DistinctKeys(l) && i < |l|
    ensures Purged(l, {l[i].key}) == Without(l, i)
    ensures DistinctKeys(Without(l, i)) && KeysOf(Without(l, i)) == KeysOf(l) - {l[i].key}
  {
    PurgedAt(l, i);
    PurgedDistinct(l, {l[i].key});
    KeysOfPurged(l, {l[i].key});
  }

  lemma OverwrittenAt(l: seq<Record>, i: nat, r: Record)
    requires DistinctKeys(l) && i < |l| && r.key == l[i].key
    ensures DistinctKeys(l[i := r]) && KeysOf(l[i := r]) == KeysOf(l)
    ensures Purged(l[i := r], {r.key}) == Purged(l, {r.key})
  {
    var l' := l[i := r];
    assert forall j :: 0 <= j < |l| ==> l'[j].key == l[j].key;
    PurgedAt(l, i);
    PurgedAt(l', i);
  }

  lemma PushedFront(l: seq<Record>, r: Record)
    requires DistinctKeys(l) && Find(l, r.key).None?
    ensures Purged(l, {r.key}) == l
    ensures DistinctKeys([r] + l) && KeysOf([r] + l) == KeysOf(l) + {r.key}
  {
    FindNone(l, r.key);
    PurgedNothing(l, {r.key});
    FrontDistinct(l, r);
    ToFrontKeys(r, l);
  }

  /** A list seen from one of its records. */
  ghost predicate Around(l: seq<Record>, front: seq<Record>, r: Record, back: seq<Record>) {
    l == front + [r] + back
  }

  lemma PurgedAround(l: seq<Record>, front: seq<Record>, r: Record, back: seq<Record>, gone: set<string>)
    requires Around(l, front, r, back) && r.key !in gone
    ensures Around(Purged(l, gone), Purged(front, gone), r, Purged(back, gone))
    ensures KeysOf(Purged(front, gone)) == KeysOf(front) - gone
  {
    PurgedConcat(front + [r], back, gone);
    PurgedConcat(front, [r], gone);
    PurgedNothing([r], gone);
    KeysOfPurged(front, gone);
  }

  lemma ToFront(x: Record, front: seq<Record>, r: Record, back: seq<Record>)
    ensures Around([x] + (front + [r] + back), [x] + front, r, back)
    ensures KeysOf([x] + front) == {x.key} + KeysOf(front)
  {
    ToFrontKeys(x, front);
    assert [x] + (front + [r] + back) == ([x] + front) + [r] + back;
  }

  lemma TruncatedAround(l: seq<Record>, front: seq<Record>, r: Record, back: seq<Record>, limit: int)
    requires Around(l, front, r, back) && |front| < limit
    ensures exists rest :: Around(Truncated(l, limit), front, r, rest)
  {
    var rest := Truncated(back, limit - |front| - 1);
    assert Truncated(l, limit) == front + [r] + rest;
    assert Around(Truncated(l, limit), front, r, rest);
  }

  lemma MoveForward(l: seq<Record>, x: Record, front: seq<Record>, r: Record, back: seq<Record>)
    returns (front': seq<Record>, back': seq<Record>)
    requires DistinctKeys(l) && Around(l, front, r, back) && x.key != r.key
    ensures Around([x] + Purged(l, {x.key}), front', r, back')
    ensures KeysOf(front') == KeysOf(front) + {x.key}
  {
    PurgedAround(l, front, r, back, {x.key});
    var p := Purged(front, {x.key});
    ToFront(x, p, r, Purged(back, {x.key}));
    front', back' := [x] + p, Purged(back, {x.key});
  }

  lemma FrontCount(l: seq<Record>, front: seq<Record>, r: Record, back: seq<Record>)
    requires DistinctKeys(l) && Around(l, front, r, back)
    ensures |front| == |KeysOf(front)| && r.key !in KeysOf(front) && Find(l, r.key) == Some(r)
  {
    assert forall i :: 0 <= i < |front| ==> front[i] == l[i];
    DistinctKeysCount(front);
    assert l[|front|] == r;
    FindAt(l, |front|);
  }

  lemma SubsetOfSameSize(a: set<string>, b: set<string>)
    requires a <= b && |a| == |b|
    ensures a == b
  {
    assert b == a + (b - a);
  }

  lemma SparedPut(l: seq<Record>, limit: int, x: Record, front: seq<Record>, r: Record, back: seq<Record>)
    returns (front': seq<Record>, back': seq<Record>)
    requires DistinctKeys(l) && Around(l, front, r, back) && Spares(Put(x), r)
    requires |(KeysOf(front) + Touches(l, Put(x))) - {r.key}| < limit
    ensures Around(Apply(l, limit, Put(x)), front', r, back')
    ensures KeysOf(front') <= (KeysOf(front) + Touches(l, Put(x))) - {r.key}
  {
    FrontCount(l, front, r, back);
    var f, b := MoveForward(l, x, front, r, back);
    ApplyDistinct(l, |l| + 1, Put(x));
    PurgedMembers(l, {x.key});
    FrontCount([x] + Purged(l, {x.key}), f, r, b);
    TruncatedAround([x] + Purged(l, {x.key}), f, r, b, limit);
    front' := f;
    back' :| Around(Apply(l, limit, Put(x)), f, r, back');
  }

  /** A hit on the spared record itself moves it to the front. */
  lemma SparedHit(l: seq<Record>, limit: int, now: int, front: seq<Record>, r: Record, back: seq<Record>)
    requires DistinctKeys(l) && Around(l, front, r, back) && Spares(Get(r.key, now), r)
    ensures Around(Apply(l, limit, Get(r.key, now)), [], r, front + back)
  {
    FrontCount(l, front, r, back);
    PurgedAt(l, |front|);
    assert [r] + (l[..|front|] + l[|front| + 1..]) == [] + [r] + (front + back);
  }

  /** A hit on another record moves that one, or removes it for having expired. */
  lemma SparedOther(l: seq<Record>, limit: int, key: string, now: int, front: seq<Record>, r: Record, back: seq<Record>)
    returns (front': seq<Record>, back': seq<Record>)
    requires DistinctKeys(l) && Around(l, front, r, back) && key != r.key && Find(l, key).Some?
    ensures Around(Apply(l, limit, Get(key, now)), front', r, back')
    ensures KeysOf(front') <= (KeysOf(front) + Touches(l, Get(key, now))) - {r.key}
  {
    FrontCount(l, front, r, back);
    FindNone(l, key);
    if Expired(Find(l, key).value, now) {
      PurgedAround(l, front, r, back, {key});
      front', back' := Purged(front, {key}), Purged(back, {key});
    } else {
      front', back' := MoveForward(l, Find(l, key).value, front, r, back);
    }
  }

  lemma SparedGet(l: seq<Record>, limit: int, key: string, now: int, front: seq<Record>, r: Record, back: seq<Record>)
    returns (front': seq<Record>, back': seq<Record>)
    requires DistinctKeys(l) && Around(l, front, r, back) && Spares(Get(key, now), r)
    ensures Around(Apply(l, limit, Get(key, now)), front', r, back')
    ensures KeysOf(front') <= (KeysOf(front) + Touches(l, Get(key, now))) - {r.key}
  {
    if key == r.key {
      SparedHit(l, limit, now, front, r, back);
      front', back' := [], front + back;
    } else if Find(l, key).None? {
      FrontCount(l, front, r, back);
      front', back' := front, back;
    } else {
      front', back' := SparedOther(l, limit, key, now, front, r, back);
    }
  }

  /** One operation on a list with at most `limit` records leaves a spared record in place
      unless it is pushed behind the limit; in front of it come only keys just touched. */
  lemma SparedStep(l: seq<Record>, limit: int, op: Operation, front: seq<Record>, r: Record, back: seq<Record>)
    returns (front': seq<Record>, back': seq<Record>)
    requires DistinctKeys(l) && Around(l, front, r, back) && Spares(op, r)
    requires |(KeysOf(front) + Touches(l, op)) - {r.key}| < limit
    ensures Around(Apply(l, limit, op), front', r, back')
    ensures KeysOf(front') <= (KeysOf(front) + Touches(l, op)) - {r.key}
  {
    match op
    case Discard(gone) =>
      FrontCount(l, front, r, back);
      PurgedAround(l, front, r, back, gone);
      front', back' := Purged(front, gone), Purged(back, gone);
    case Put(x) =>
      front', back' := SparedPut(l, limit, x, front, r, back);
    case Get(key, now) =>
      front', back' := SparedGet(l, limit, key, now, front, r, back);
  }

  lemma {:induction false} SparedRecordStays(
    l: seq<Record>, limit: int, ops: seq<Operation>, front: seq<Record>, r: Record, back: seq<Record>)
    requires DistinctKeys(l) && Around(l, front, r, back)
    requires forall i :: 0 <= i < |ops| ==> Spares(ops[i], r)
    requires |(KeysOf(front) + Touched(l, limit, ops)) - {r.key}| < limit
    ensures DistinctKeys(ApplyAll(l, limit, ops)) && Find(ApplyAll(l, limit, ops), r.key) == Some(r)
    decreases |ops|
  {
    if ops == [] {
      FrontCount(l, front, r, back);
    } else {
      var rest := Touched(Apply(l, limit, ops[0]), limit, ops[1..]);
      var all := (KeysOf(front) + Touched(l, limit, ops)) - {r.key};
      SubsetCount((KeysOf(front) + Touches(l, ops[0])) - {r.key}, all);
      var f, b := SparedStep(l, limit, ops[0], front, r, back);
      ApplyDistinct(l, limit, ops[0]);
      SubsetCount((KeysOf(f) + rest) - {r.key}, all);
      SparedRecordStays(Apply(l, limit, ops[0]), limit, ops[1..], f, r, b);
    }
  }

  /** A record just stored or hit is still answered, whatever is done since, as long as it
      is spared, has not expired, and fewer than `limit` other keys were stored or hit. */
  lemma RecencyWindow(l: seq<Record>, limit: int, ops: seq<Operation>, now: int)
    requires DistinctKeys(l) && l != [] && !Expired(l[0], now)
    requires forall i :: 0 <= i < |ops| ==> Spares(ops[i], l[0])
    requires |Touched(l, limit, ops) - {l[0].key}| < limit
    ensures Answer(ApplyAll(l, limit, ops), l[0].key, now) == Some(l[0].value)
  {
    assert Around(l, [], l[0], l[1..]);
    assert KeysOf([]) + Touched(l, limit, ops) == Touched(l, limit, ops);
    SparedRecordStays(l, limit, ops, [], l[0], l[1..]);
  }

  /** The operation concerns another key and removes nothing by itself. */
  predicate OnlyMoves(l: seq<Record>, op: Operation, key: string) {
    match op
    case Put(r) => r.key != key
    case Get(other, now) => other != key && (Find(l, other).Some? ==> !Expired(Find(l, other).value, now))
    case Discard(_) => false
  }

  predicate AllOnlyMove(l: seq<Record>, limit: int, ops: seq<Operation>, key: string)
    decreases |ops|
  {
    ops != [] ==> OnlyMoves(l, ops[0], key) && AllOnlyMove(Apply(l, limit, ops[0]), limit, ops[1..], key)
  }

  lemma AbsentStaysAbsent(l: seq<Record>, limit: int, op: Operation, key: string)
    requires Find(l, key).None? && OnlyMoves(l, op, key)
    ensures Find(Apply(l, limit, op), key).None?
  {
    FindNone(l, key);
    FindNone(Apply(l, limit, op), key);
    var moved := if op.Put? then op.record.key else op.key;
    FindNone(l, moved);
    PurgedMembers(l, {moved});
    var p := Purged(l, {moved});
    assert forall i :: 0 <= i < |p| ==> p[i] in p && p[i].key != key;
  }

  lemma {:induction false} NeverComesBack(l: seq<Record>, limit: int, ops: seq<Operation>, key: string)
    requires Find(l, key).None? && AllOnlyMove(l, limit, ops, key)
    ensures Find(ApplyAll(l, limit, ops), key).None?
    decreases |ops|
  {
    if ops != [] {
      AbsentStaysAbsent(l, limit, ops[0], key);
      NeverComesBack(Apply(l, limit, ops[0]), limit, ops[1..], key);
    }
  }

  lemma TruncatedAway(l: seq<Record>, front: seq<Record>, r: Record, back: seq<Record>, limit: int)
    requires DistinctKeys(l) && Around(l, front, r, back) && 0 <= limit <= |front|
    ensures Find(Truncated(l, limit), r.key).None?
  {
    assert l[|front|] == r;
    FindNone(Truncated(l, limit), r.key);
  }

  /** A move either pushes the record out or puts exactly the touched key in front of it. */
  lemma MoveStep(l: seq<Record>, limit: int, op: Operation, front: seq<Record>, r: Record, back: seq<Record>)
    returns (front': seq<Record>, back': seq<Record>)
    requires DistinctKeys(l) && |l| <= limit && Around(l, front, r, back) && OnlyMoves(l, op, r.key)
    ensures Find(Apply(l, limit, op), r.key).Some? ==>
              Around(Apply(l, limit, op), front', r, back') && KeysOf(front') == KeysOf(front) + Touches(l, op)
  {
    front', back' := front, back;
    if op.Put? {
      var x := op.record;
      front', back' := MoveForward(l, x, front, r, back);
      ApplyDistinct(l, |l| + 1, op);
      PurgedMembers(l, {x.key});
      if |front'| < limit {
        TruncatedAround([x] + Purged(l, {x.key}), front', r, back', limit);
        back' :| Around(Apply(l, limit, op), front', r, back');
      } else {
        TruncatedAway([x] + Purged(l, {x.key}), front', r, back', limit);
      }
    } else {
      FindNone(l, op.key);
      if Find(l, op.key).Some? {
        front', back' := MoveForward(l, Find(l, op.key).value, front, r, back);
      }
    }
  }

  lemma {:induction false} PresentMeansFewTouched(
    l: seq<Record>, limit: int, ops: seq<Operation>, front: seq<Record>, r: Record, back: seq<Record>)
    requires DistinctKeys(l) && |l| <= limit && Around(l, front, r, back)
    requires AllOnlyMove(l, limit, ops, r.key)
    requires Find(ApplyAll(l, limit, ops), r.key).Some?
    ensures |KeysOf(front) + Touched(l, limit, ops)| < limit
    decreases |ops|
  {
    if ops == [] {
      FrontCount(l, front, r, back);
      assert KeysOf(front) + {} == KeysOf(front);
    } else {
      var l' := Apply(l, limit, ops[0]);
      var f, b := MoveStep(l, limit, ops[0], front, r, back);
      if Find(l', r.key).None? {
        NeverComesBack(l', limit, ops[1..], r.key);
      }
      ApplyDistinct(l, limit, ops[0]);
      ApplyWithinLimit(l, limit, ops[0]);
      PresentMeansFewTouched(l', limit, ops[1..], f, r, b);
      assert KeysOf(front) + Touched(l, limit, ops) == KeysOf(f) + Touched(l', limit, ops[1..]);
    }
  }

  /** The window is exact: while nothing is removed by itself, the front record is kept if
      and only if fewer than `limit` other keys are stored or hit. */
  lemma RecencyWindowIsExact(l: seq<Record>, limit: int, ops: seq<Operation>)
    requires DistinctKeys(l) && l != [] && |l| <= limit
    requires AllOnlyMove(l, limit, ops, l[0].key)
    ensures Find(ApplyAll(l, limit, ops), l[0].key).Some? <==> |Touched(l, limit, ops) - {l[0].key}| < limit
  {
    var r := l[0];
    assert Around(l, [], r, l[1..]);
    MovesSpare(l, limit, ops, r);
    MovesTouchOthers(l, limit, ops, r.key);
    assert Touched(l, limit, ops) - {r.key} == Touched(l, limit, ops) == KeysOf([]) + Touched(l, limit, ops);
    if |Touched(l, limit, ops)| < limit {
      SparedRecordStays(l, limit, ops, [], r, l[1..]);
    } else if Find(ApplyAll(l, limit, ops), r.key).Some? {
      PresentMeansFewTouched(l, limit, ops, [], r, l[1..]);
    }
  }

  lemma {:induction false} MovesSpare(l: seq<Record>, limit: int, ops: seq<Operation>, r: Record)
    requires AllOnlyMove(l, limit, ops, r.key)
    ensures forall i :: 0 <= i < |ops| ==> Spares(ops[i], r)
    decreases |ops|
  {
    if ops != [] {
      MovesSpare(Apply(l, limit, ops[0]), limit, ops[1..], r);
      assert forall i :: 0 < i < |ops| ==> ops[i] == ops[1..][i - 1];
    }
  }

  lemma {:induction false} MovesTouchOthers(l: seq<Record>, limit: int, ops: seq<Operation>, key: string)
    requires AllOnlyMove(l, limit, ops, key)
    ensures key !in Touched(l, limit, ops)
    decreases |ops|
  {
    if ops != [] {
      MovesTouchOthers(Apply(l, limit, ops[0]), limit, ops[1..], key);
    }
  }

  // ---------------------------------------------------------------------------
  // What is answered.

  /** The record last stored under a key and not discarded since, if any. */
  function LastStored(l: seq<Record>, ops: seq<Operation>, key: string): Option<Record>
    decreases |ops|
  {
    if ops == [] then Find(l, key)
    else
      var last, earlier := ops[|ops| - 1], ops[..|ops| - 1];
      if last.Put? && last.record.key == key then Some(last.record)
      else if last.Discard? && key in last.gone then None
      else LastStored(l, earlier, key)
  }

  lemma {:induction false} FindPurged(l: seq<Record>, gone: set<string>, key: string)
    ensures Find(Purged(l, gone), key) == if key in gone then None else Find(l, key)
  {
    if l != [] {
      FindPurged(l[1..], gone, key);
      if l[0].key !in gone {
        assert Purged(l, gone)[1..] == Purged(l[1..], gone);
      }
    }
  }

  lemma FindInFront(x: Record, l: seq<Record>, key: string)
    ensures Find([x] + Purged(l, {x.key}), key) == if x.key == key then Some(x) else Find(l, key)
  {
    FindPurged(l, {x.key}, key);
    assert ([x] + Purged(l, {x.key}))[1..] == Purged(l, {x.key});
  }

  lemma {:induction false} FindTruncated(l: seq<Record>, limit: int, key: string)
    ensures Find(Truncated(l, limit), key).None? || Find(Truncated(l, limit), key) == Find(l, key)
  {
    if limit > 0 && |l| > limit {
      FindTruncated(l[1..], limit - 1, key);
      assert l[..limit][1..] == l[1..][..limit - 1];
    }
  }

  /** An operation loses what is found under a key or leaves it, unless it stores it. */
  lemma FindAfter(l: seq<Record>, limit: int, op: Operation, key: string)
    requires limit > 0
    ensures var found := Find(Apply(l, limit, op), key);
            found.None? || found == if op.Put? && op.record.key == key then Some(op.record) else Find(l, key)
    ensures op.Discard? && key in op.gone ==> Find(Apply(l, limit, op), key).None?
  {
    match op
    case Put(r) =>
      FindInFront(r, l, key);
      FindTruncated([r] + Purged(l, {r.key}), limit, key);
    case Get(k, now) =>
      FindNone(l, k);
      FindPurged(l, {k}, key);
      if Find(l, k).Some? {
        FindInFront(Find(l, k).value, l, key);
      }
    case Discard(gone) => FindPurged(l, gone, key);
  }

  lemma {:induction false} ApplyLast(l: seq<Record>, limit: int, ops: seq<Operation>)
    requires ops != []
    ensures ApplyAll(l, limit, ops) == Apply(ApplyAll(l, limit, ops[..|ops| - 1]), limit, ops[|ops| - 1])
    decreases |ops|
  {
    if |ops| > 1 {
      ApplyLast(Apply(l, limit, ops[0]), limit, ops[1..]);
      assert ops[1..][..|ops| - 2] == ops[..|ops| - 1][1..];
    }
  }

  lemma {:induction false} FoundWasLastStored(l: seq<Record>, limit: int, ops: seq<Operation>, key: string)
    requires limit > 0
    ensures var found := Find(ApplyAll(l, limit, ops), key); found.None? || found == LastStored(l, ops, key)
    decreases |ops|
  {
    if ops != [] {
      var earlier := ops[..|ops| - 1];
      ApplyLast(l, limit, ops);
      FoundWasLastStored(l, limit, earlier, key);
      FindAfter(ApplyAll(l, limit, earlier), limit, ops[|ops| - 1], key);
    }
  }

  /** After any run an answer is the value last stored under that very key, not discarded since,
      whose time has not come. */
  lemma AnswersAreLastStored(l: seq<Record>, limit: int, ops: seq<Operation>, key: string, now: int)
    requires limit > 0 && Answer(ApplyAll(l, limit, ops), key, now).Some?
    ensures var r := LastStored(l, ops, key);
            && r.Some? && Answer(ApplyAll(l, limit, ops), key, now).value == r.value.value
            && (r.value.expiresAt.Some? ==> now < r.value.expiresAt.value)
  {
    FoundWasLastStored(l, limit, ops, key);
  }
}
