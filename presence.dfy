/** The presence tracker of js/network.js as pure functions: the `presence`
    Map from peer id to last-seen time, kept in the Map's insertion order,
    and the status events its updates emit. */
module Presence {
  import opened Protocol

  /** A peer is dead after three missed 2000 ms heartbeats. */
  const PEER_TIMEOUT_MS: int := 6000

  datatype Entry = Entry(id: string, lastSeen: int)

  /** `Map<peerId, timestamp>` as its entries in insertion order. */
  type Table = seq<Entry>

  function Keys(t: Table): set<string> {
    set i | 0 <= i < |t| :: t[i].id
  }

  /** A Map never holds a key twice. */
  ghost predicate Distinct(t: Table) {
    forall i, j :: 0 <= i < j < |t| ==> t[i].id != t[j].id
  }

  /** `presence.set(id, now)`: an existing key keeps its place, a new key is
      appended. */
  function Set(t: Table, id: string, now: int): (r: Table)
    ensures Keys(r) == Keys(t) + {id}
    ensures id !in Keys(t) ==> r == t + [Entry(id, now)]
    ensures id in Keys(t) ==> |r| == |t|
    ensures id in Keys(t) ==>
      forall i :: 0 <= i < |t| ==> r[i] == (if t[i].id == id then Entry(id, now) else t[i])
    ensures Distinct(t) ==> Distinct(r)
  {
    if id in Keys(t) then
      var r := seq(|t|, i requires 0 <= i < |t| => if t[i].id == id then Entry(id, now) else t[i]);
      assert forall i :: 0 <= i < |t| ==> r[i].id == t[i].id;
      assert Keys(r) == Keys(t);
      r
    else
      var r := t + [Entry(id, now)];
      assert forall i :: 0 <= i < |t| ==> r[i] == t[i];
      assert r[..|r| - 1] == t;
      KeysSnoc(r);
      r
  }

  /** `updateLastSeen(peerId)` at time `now`: an empty (falsy) id is ignored. */
  function Touch(t: Table, id: string, now: int): (r: Table)
    ensures id == "" ==> r == t
    ensures id != "" ==> r == Set(t, id, now)
  {
    if id == "" then t else Set(t, id, now)
  }

  /** The events `updateLastSeen` emits: `join` then `peers` for a new id. */
  function TouchEvents(t: Table, id: string): seq<Status> {
    if id == "" || id in Keys(t) then [] else [Join(id, |t| + 1), Peers(|t| + 1)]
  }

  /** `presence.delete(id)`. */
  function Delete(t: Table, id: string): (r: Table)
    ensures |r| <= |t|
  {
    if t == [] then [] else (if t[0].id == id then [] else [t[0]]) + Delete(t[1..], id)
  }

  /** Deleting removes exactly the key, keeps the Map's keys distinct and
      shrinks its size by one when the key was there. */
  lemma DeleteKeys(t: Table, id: string)
    ensures Keys(Delete(t, id)) == Keys(t) - {id}
    ensures id !in Keys(t) ==> Delete(t, id) == t
    ensures Distinct(t) && id in Keys(t) ==> |Delete(t, id)| == |t| - 1
    ensures Distinct(t) ==> Distinct(Delete(t, id))
  {
    DeleteKeySet(t, id);
    if Distinct(t) { DeleteDistinct(t, id); }
  }

  /** Deleting removes exactly the key, and is the identity on a missing key. */
  lemma {:induction false} DeleteKeySet(t: Table, id: string)
    ensures Keys(Delete(t, id)) == Keys(t) - {id}
    ensures id !in Keys(t) ==> Delete(t, id) == t
  {
    if t != [] {
      DeleteKeySet(t[1..], id);
      KeysCons(t);
      if t[0].id != id {
        var r := [t[0]] + Delete(t[1..], id);
        assert Delete(t, id) == r;
        assert r[1..] == Delete(t[1..], id);
        KeysCons(r);
        assert Keys(r) == {t[0].id} + (Keys(t[1..]) - {id});
        if id !in Keys(t) {
          assert t == [t[0]] + t[1..];
        }
      } else {
        assert Delete(t, id) == Delete(t[1..], id);
      }
    }
  }

  /** On a table with distinct ids, deleting a present key drops one entry,
      and the ids stay distinct. */
  lemma {:induction false} DeleteDistinct(t: Table, id: string)
    requires Distinct(t)
    ensures id in Keys(t) ==> |Delete(t, id)| == |t| - 1
    ensures Distinct(Delete(t, id))
  {
    if t != [] {
      assert Distinct(t[1..]);
      KeysCons(t);
      DeleteDistinct(t[1..], id);
      DeleteKeySet(t[1..], id);
      if t[0].id != id {
        assert Delete(t, id) == [t[0]] + Delete(t[1..], id);
        ConsDistinct(t[0], Delete(t[1..], id));
      } else {
        assert Delete(t, id) == Delete(t[1..], id);
      }
    }
  }

  /** Prepending an entry whose id is new keeps the ids distinct. */
  lemma ConsDistinct(e: Entry, t: Table)
    requires Distinct(t) && e.id !in Keys(t)
    ensures Distinct([e] + t)
  {
    var r := [e] + t;
    forall i, j | 0 <= i < j < |r| ensures r[i].id != r[j].id {
      assert r[j] == t[j - 1];
      if i == 0 {
        assert t[j - 1].id in Keys(t);
      } else {
        assert r[i] == t[i - 1];
      }
    }
  }

  lemma KeysCons(t: Table)
    requires t != []
    ensures Keys(t) == {t[0].id} + Keys(t[1..])
  {
    forall k | k in Keys(t) ensures k in {t[0].id} + Keys(t[1..]) {
      var i :| 0 <= i < |t| && t[i].id == k;
      if i > 0 { assert t[1..][i - 1].id == k; }
    }
    forall k | k in Keys(t[1..]) ensures k in Keys(t) {
      var i :| 0 <= i < |t[1..]| && t[1..][i].id == k;
      assert t[i + 1].id == k;
    }
  }

  lemma KeysSnoc(t: Table)
    requires t != []
    ensures Keys(t) == Keys(t[..|t| - 1]) + {t[|t| - 1].id}
  {
    var p := t[..|t| - 1];
    forall k | k in Keys(t) ensures k in Keys(p) + {t[|t| - 1].id} {
      var i :| 0 <= i < |t| && t[i].id == k;
      if i < |t| - 1 { assert p[i].id == k; }
    }
    forall k | k in Keys(p) ensures k in Keys(t) {
      var i :| 0 <= i < |p| && p[i].id == k;
      assert t[i].id == k;
    }
  }

  predicate Expired(e: Entry, now: int) {
    now - e.lastSeen > PEER_TIMEOUT_MS
  }

  /** The presence table left by the sweep of `checkHealth` at time `now`. */
  function Sweep(t: Table, now: int): (r: Table)
    ensures |r| <= |t|
  {
    if t == [] then []
    else Sweep(t[..|t| - 1], now) + (if Expired(t[|t| - 1], now) then [] else [t[|t| - 1]])
  }

  /** The ids of the expired entries, in Map order. */
  function StaleIds(t: Table, now: int): (r: seq<string>)
    ensures |r| == |t| - |Sweep(t, now)|
  {
    if t == [] then []
    else StaleIds(t[..|t| - 1], now) + (if Expired(t[|t| - 1], now) then [t[|t| - 1].id] else [])
  }

  /** The `leave` events the sweep emits: each carries the Map size just
      after its own deletion, starting from `size` entries. */
  function SweepLeaves(t: Table, now: int, size: int): seq<Status>
    requires |t| <= size
  {
    if t == [] then []
    else
      var prefix := t[..|t| - 1];
      SweepLeaves(prefix, now, size) +
        (if Expired(t[|t| - 1], now)
         then [Leave(t[|t| - 1].id, size - (|t| - |Sweep(t, now)|))]
         else [])
  }

  /** Everything `checkHealth` emits: the leaves, then one `peers` event only
      if something was removed. */
  function HealthEvents(t: Table, now: int): seq<Status> {
    var leaves := SweepLeaves(t, now, |t|);
    leaves + (if |Sweep(t, now)| < |t| then [Peers(|Sweep(t, now)|)] else [])
  }

  /** Distinct ids make the Map's size the number of its keys. */
  lemma {:induction false} DistinctCard(t: Table)
    requires Distinct(t)
    ensures |Keys(t)| == |t|
  {
    if t != [] {
      var p := t[..|t| - 1];
      assert Distinct(p);
      DistinctCard(p);
      KeysSnoc(t);
      assert t[|t| - 1].id !in Keys(p);
    }
  }

  /** A sweep keeps exactly the entries that are not expired. */
  lemma {:induction false} SweepKeepsFresh(t: Table, now: int)
    ensures forall e :: e in Sweep(t, now) <==> e in t && !Expired(e, now)
  {
    if t != [] {
      var p := t[..|t| - 1];
      SweepKeepsFresh(p, now);
      assert t == p + [t[|t| - 1]];
    }
  }

  /** The sweep only removes ids: the surviving keys are among the table's,
      and distinct ids stay distinct. */
  lemma {:induction false} SweepKeys(t: Table, now: int)
    ensures Keys(Sweep(t, now)) <= Keys(t)
    ensures Distinct(t) ==> Distinct(Sweep(t, now))
  {
    if t != [] {
      var p := t[..|t| - 1];
      var last := t[|t| - 1];
      SweepKeys(p, now);
      KeysSnoc(t);
      var sp := Sweep(p, now);
      if !Expired(last, now) {
        var r := sp + [last];
        assert r == Sweep(t, now);
        KeysSnoc(r);
        assert r[..|r| - 1] == sp;
        if Distinct(t) {
          assert Distinct(p);
          assert last.id !in Keys(p);
          forall i, j | 0 <= i < j < |r| ensures r[i].id != r[j].id {
            if j == |r| - 1 {
              assert r[i] == sp[i];
              assert r[i].id in Keys(sp);
            }
          }
        }
      } else {
        assert Distinct(t) ==> Distinct(p);
      }
    }
  }

  /** The k-th `leave` of a sweep names the k-th expired peer and reports
      `size - k - 1` remaining peers. */
  lemma {:induction false} SweepLeavesShape(t: Table, now: int, size: int)
    requires |t| <= size
    ensures var l := SweepLeaves(t, now, size);
      |l| == |StaleIds(t, now)| &&
      forall k :: 0 <= k < |l| ==> l[k] == Leave(StaleIds(t, now)[k], size - k - 1)
  {
    if t != [] {
      SweepLeavesShape(t[..|t| - 1], now, size);
    }
  }

  /** `checkHealth` on a table: exactly one `leave` per removed peer, in Map
      order, followed by a single `peers` event exactly when something was
      removed. */
  lemma HealthEventsShape(t: Table, now: int)
    ensures var e := HealthEvents(t, now); var s := StaleIds(t, now);
      (s == [] ==> e == []) &&
      (s != [] ==> (|e| == |s| + 1 && e[|s|] == Peers(|t| - |s|))) &&
      (forall k :: 0 <= k < |s| ==> e[k] == Leave(s[k], |t| - k - 1))
  {
    SweepLeavesShape(t, now, |t|);
  }

  lemma {:induction false} DeleteAppend(a: Table, b: Table, id: string)
    ensures Delete(a + b, id) == Delete(a, id) + Delete(b, id)
  {
    if a == [] {
      assert a + b == b;
    } else {
      var ab := a + b;
      assert ab[0] == a[0];
      assert ab[1..] == a[1..] + b;
      DeleteAppend(a[1..], b, id);
      var h: Table := if a[0].id == id then [] else [a[0]];
      assert Delete(ab, id) == h + Delete(ab[1..], id);
      assert Delete(a, id) == h + Delete(a[1..], id);
      AppendAssoc(h, Delete(a[1..], id), Delete(b, id));
    }
  }

  lemma NotInSuffix(entries: Table, i: nat)
    requires Distinct(entries) && i < |entries|
    ensures entries[i].id !in Keys(entries[..i])
    ensures entries[i].id !in Keys(entries[i + 1..])
  {
    var pre := entries[..i];
    var suf := entries[i + 1..];
    forall j | 0 <= j < |suf| ensures suf[j].id != entries[i].id {
      assert suf[j] == entries[i + 1 + j];
    }
    forall j | 0 <= j < |pre| ensures pre[j].id != entries[i].id {
      assert pre[j] == entries[j];
    }
  }

  lemma SweepSnoc(pre: Table, e: Entry, now: int)
    ensures Sweep(pre + [e], now) == Sweep(pre, now) + (if Expired(e, now) then [] else [e])
  {
    assert (pre + [e])[..|pre|] == pre;
  }

  lemma DeleteHead(sp: Table, e: Entry, suf: Table)
    requires Delete(sp, e.id) == sp && Delete(suf, e.id) == suf
    ensures Delete(sp + ([e] + suf), e.id) == sp + suf
  {
    assert Delete([e], e.id) == [];
    DeleteAppend([e], suf, e.id);
    assert Delete([e] + suf, e.id) == suf;
    DeleteAppend(sp, [e] + suf, e.id);
  }

  /** One step of the deleting `for ... of` loop of `checkHealth`: the table
      is the sweep of the visited prefix followed by the unvisited entries,
      and deleting an expired entry keeps it so. */
  lemma SweepStepDrop(entries: Table, i: nat, now: int)
    requires Distinct(entries) && i < |entries| && Expired(entries[i], now)
    ensures Delete(Sweep(entries[..i], now) + entries[i..], entries[i].id) ==
      Sweep(entries[..i + 1], now) + entries[i + 1..]
  {
    var e := entries[i];
    var pre := entries[..i];
    var suf := entries[i + 1..];
    var sp := Sweep(pre, now);
    assert Sweep(entries[..i + 1], now) == sp by {
      assert entries[..i + 1] == pre + [e];
      SweepSnoc(pre, e, now);
    }
    assert entries[i..] == [e] + suf;
    assert Delete(sp, e.id) == sp by {
      NotInSuffix(entries, i);
      SweepKeys(pre, now);
      DeleteKeys(sp, e.id);
    }
    assert Delete(suf, e.id) == suf by {
      NotInSuffix(entries, i);
      DeleteKeys(suf, e.id);
    }
    DeleteHead(sp, e, suf);
  }

  /** The same step for an entry that is kept. */
  lemma SweepStepKeep(entries: Table, i: nat, now: int)
    requires i < |entries| && !Expired(entries[i], now)
    ensures Sweep(entries[..i], now) + entries[i..] == Sweep(entries[..i + 1], now) + entries[i + 1..]
  {
    var e := entries[i];
    var pre := entries[..i];
    assert entries[..i + 1] == pre + [e];
    SweepSnoc(pre, e, now);
    assert entries[i..] == [e] + entries[i + 1..];
  }

  /** The events of one step of the same loop: a `leave` carrying the
      number of entries still in the table, or nothing for a kept entry. */
  lemma SweepLeavesStep(entries: Table, i: nat, now: int)
    requires i < |entries|
    ensures Expired(entries[i], now) ==>
      SweepLeaves(entries[..i + 1], now, |entries|) ==
        SweepLeaves(entries[..i], now, |entries|) +
          [Leave(entries[i].id, |Sweep(entries[..i + 1], now)| + (|entries| - i - 1))]
    ensures !Expired(entries[i], now) ==>
      SweepLeaves(entries[..i + 1], now, |entries|) == SweepLeaves(entries[..i], now, |entries|)
    ensures |Sweep(entries[..i + 1], now)| < i + 1 <==>
      |Sweep(entries[..i], now)| < i || Expired(entries[i], now)
  {
    var p := entries[..i + 1];
    assert p[..|p| - 1] == entries[..i] && p[|p| - 1] == entries[i];
    assert |Sweep(p, now)| == |Sweep(entries[..i], now)| + (if Expired(entries[i], now) then 0 else 1);
  }

  /** One whole iteration of the deleting loop of `checkHealth`, for the
      table, the events emitted so far and the `changed` flag. */
  lemma DropStep(entries: Table, i: nat, now: int, table: Table, log0: seq<Status>, log: seq<Status>, changed: bool)
    requires Distinct(entries) && i < |entries|
    requires table == Sweep(entries[..i], now) + entries[i..]
    requires log == log0 + SweepLeaves(entries[..i], now, |entries|)
    requires changed <==> |Sweep(entries[..i], now)| < i
    ensures Expired(entries[i], now) ==>
      var table' := Delete(table, entries[i].id);
      table' == Sweep(entries[..i + 1], now) + entries[i + 1..] &&
      log + [Leave(entries[i].id, |table'|)] == log0 + SweepLeaves(entries[..i + 1], now, |entries|) &&
      |Sweep(entries[..i + 1], now)| < i + 1
    ensures !Expired(entries[i], now) ==>
      table == Sweep(entries[..i + 1], now) + entries[i + 1..] &&
      log == log0 + SweepLeaves(entries[..i + 1], now, |entries|) &&
      (changed <==> |Sweep(entries[..i + 1], now)| < i + 1)
  {
    SweepLeavesStep(entries, i, now);
    if Expired(entries[i], now) {
      var table' := Delete(table, entries[i].id);
      var kept := Sweep(entries[..i + 1], now);
      assert table' == kept + entries[i + 1..] by { SweepStepDrop(entries, i, now); }
      assert |table'| == |kept| + (|entries| - i - 1);
      AppendAssoc(log0, SweepLeaves(entries[..i], now, |entries|),
        [Leave(entries[i].id, |kept| + (|entries| - i - 1))]);
    } else {
      SweepStepKeep(entries, i, now);
    }
  }

  /** The rest of the deleting loop of `checkHealth` from entry `i` on, for
      the table, the events emitted so far and the `changed` flag. */
  ghost function SweepFrom(entries: Table, i: nat, now: int, cur: Table, log: seq<Status>, changed: bool):
    (Table, seq<Status>, bool)
    requires i <= |entries|
    decreases |entries| - i
  {
    if i == |entries| then (cur, log, changed)
    else if Expired(entries[i], now) then
      var cur' := Delete(cur, entries[i].id);
      SweepFrom(entries, i + 1, now, cur', log + [Leave(entries[i].id, |cur'|)], true)
    else SweepFrom(entries, i + 1, now, cur, log, changed)
  }

  /** The loop computes the sweep, its `leave` events, and whether anything
      was removed. */
  lemma {:induction false} SweepFromResult(entries: Table, i: nat, now: int, cur: Table,
                                           log0: seq<Status>, log: seq<Status>, changed: bool)
    requires Distinct(entries) && i <= |entries|
    requires cur == Sweep(entries[..i], now) + entries[i..]
    requires log == log0 + SweepLeaves(entries[..i], now, |entries|)
    requires changed <==> |Sweep(entries[..i], now)| < i
    ensures SweepFrom(entries, i, now, cur, log, changed) ==
      (Sweep(entries, now), log0 + SweepLeaves(entries, now, |entries|), |Sweep(entries, now)| < |entries|)
    decreases |entries| - i
  {
    if i == |entries| {
      assert entries[..i] == entries;
      assert entries[i..] == [];
      assert cur == Sweep(entries, now);
    } else {
      DropStep(entries, i, now, cur, log0, log, changed);
      if Expired(entries[i], now) {
        var cur' := Delete(cur, entries[i].id);
        SweepFromResult(entries, i + 1, now, cur', log0, log + [Leave(entries[i].id, |cur'|)], true);
      } else {
        SweepFromResult(entries, i + 1, now, cur, log0, log, changed);
      }
    }
  }

  lemma AppendAssoc<T>(a: seq<T>, b: seq<T>, c: seq<T>)
    ensures (a + b) + c == a + (b + c)
  {
  }

  /** Applies `updateLastSeen` for each (id, time) in order. */
  function TouchAll(t: Table, touches: seq<(string, int)>): Table
    decreases |touches|
  {
    if touches == [] then t else TouchAll(Touch(t, touches[0].0, touches[0].1), touches[1..])
  }

  /** The non-empty ids among the touches. */
  function TouchedIds(touches: seq<(string, int)>): set<string> {
    set i | 0 <= i < |touches| && touches[i].0 != "" :: touches[i].0
  }

  lemma {:induction false} TouchAllKeys(t: Table, touches: seq<(string, int)>)
    requires Distinct(t)
    ensures Distinct(TouchAll(t, touches))
    ensures Keys(TouchAll(t, touches)) == Keys(t) + TouchedIds(touches)
    decreases |touches|
  {
    if touches != [] {
      var t' := Touch(t, touches[0].0, touches[0].1);
      TouchAllKeys(t', touches[1..]);
      TouchedIdsCons(touches);
    }
  }

  lemma TouchedIdsCons(touches: seq<(string, int)>)
    requires touches != []
    ensures TouchedIds(touches) ==
      (if touches[0].0 == "" then {} else {touches[0].0}) + TouchedIds(touches[1..])
  {
    var rest := touches[1..];
    forall k | k in TouchedIds(touches)
      ensures k in (if touches[0].0 == "" then {} else {touches[0].0}) + TouchedIds(rest)
    {
      var i :| 0 <= i < |touches| && touches[i].0 != "" && touches[i].0 == k;
      if i > 0 { assert rest[i - 1].0 == k; }
    }
    forall k | k in TouchedIds(rest) ensures k in TouchedIds(touches) {
      var i :| 0 <= i < |rest| && rest[i].0 != "" && rest[i].0 == k;
      assert touches[i + 1].0 == k;
    }
  }

  /** With no removals, the peer count equals the number of distinct
      non-empty ids ever touched. */
  lemma TouchCountsDistinctIds(touches: seq<(string, int)>)
    ensures |TouchAll([], touches)| == |TouchedIds(touches)|
  {
    TouchAllKeys([], touches);
    assert Keys([]) == {};
    DistinctCard(TouchAll([], touches));
  }

  /** A peer touched at t = 0 and never again is still present at 5999 and
      gone at 6001. */
  lemma TimeoutBoundary(p: string)
    ensures Sweep([Entry(p, 0)], 5999) == [Entry(p, 0)]
    ensures Sweep([Entry(p, 0)], 6001) == []
  {
    assert [Entry(p, 0)][..0] == [];
  }

  /** Two peers timing out in the same sweep give two leaves and exactly one
      `peers(0)`. */
  lemma TwoPeersLostInOneSweep(a: string, b: string, now: int)
    requires now > PEER_TIMEOUT_MS
    ensures HealthEvents([Entry(a, 0), Entry(b, 0)], now) == [Leave(a, 1), Leave(b, 0), Peers(0)]
  {
    var t := [Entry(a, 0), Entry(b, 0)];
    assert t[..1] == [Entry(a, 0)];
    assert t[..1][..0] == [];
    HealthEventsShape(t, now);
  }
}
