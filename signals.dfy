/**
  Signal endpoints (Signal.hpp, Signal.cpp): the state an `AnySignal` keeps
  and the entries one `emit` appends to the queue.

  A signal's link map `std::map<AnySlot*, Link*>` is keyed by slot; it is
  iterated in ascending key order, which the model takes to be ascending
  slot id.
 */
module Signals {
  import opened Wrappers
  import opened Types
  import opened Messages

  /** An `AnySignal`: its fixed message type, its name ("" when unnamed) and its link map. */
  datatype SignalRec = SignalRec(msgType: TypeDef, name: string, links: map<SlotId, LinkId>)

  predicate Increasing(s: seq<nat>)
  {
    forall i, j :: 0 <= i < j < |s| ==> s[i] < s[j]
  }

  /** The least element of a non-empty set of ids. */
  ghost function Min(ks: set<nat>): (m: nat)
    requires ks != {}
    ensures m in ks && forall k :: k in ks ==> m <= k
    decreases |ks|
  {
    var x :| x in ks;
    if ks == {x} then x
    else
      var m := Min(ks - {x});
      assert forall k :: k in ks ==> k == x || k in ks - {x};
      if x < m then x else m
  }

  /** The keys `ks` in the order a `std::map` with those keys is iterated. */
  ghost function SortedKeys(ks: set<nat>): seq<nat>
    decreases |ks|
  {
    if ks == {} then []
    else
      var m := Min(ks);
      [m] + SortedKeys(ks - {m})
  }

  /** The iteration visits every key exactly once, in increasing order. */
  lemma {:induction false} SortedKeysSpec(ks: set<nat>)
    ensures |SortedKeys(ks)| == |ks|
    ensures forall k :: k in ks <==> k in SortedKeys(ks)
    ensures Increasing(SortedKeys(ks))
    decreases |ks|
  {
    if ks != {} {
      var m := Min(ks);
      var rest := SortedKeys(ks - {m});
      SortedKeysSpec(ks - {m});
      var r := [m] + rest;
      assert SortedKeys(ks) == r;
      forall i, j | 0 <= i < j < |r| ensures r[i] < r[j] {
        assert r[j] == rest[j - 1] && r[j] in ks - {m};
        if i > 0 { assert r[i] == rest[i - 1]; }
      }
      forall k ensures k in ks <==> k in r {
        assert k in ks <==> k == m || k in ks - {m};
      }
    }
  }

  /** An increasing enumeration of a non-empty key set starts at its least key. */
  lemma IncreasingStartsAtMin(ks: set<nat>, s: seq<nat>)
    requires ks != {}
    requires Increasing(s) && forall x :: x in s <==> x in ks
    ensures s != [] && s[0] == Min(ks)
  {
    var m := Min(ks);
    assert m in s;
    var j :| 0 <= j < |s| && s[j] == m;
    assert s[0] in ks;
    assert m <= s[0];
  }

  /** Dropping the first key of an increasing enumeration enumerates the remaining keys. */
  lemma IncreasingTail(ks: set<nat>, s: seq<nat>)
    requires s != [] && Increasing(s) && forall x :: x in s <==> x in ks
    ensures Increasing(s[1..])
    ensures forall x :: x in s[1..] <==> x in ks - {s[0]}
  {
    forall x ensures x in s[1..] <==> x in ks - {s[0]} {
      if x in s[1..] {
        var i :| 0 <= i < |s| - 1 && s[1..][i] == x;
        assert s[i + 1] == x;
      }
      if x in ks - {s[0]} {
        var i :| 0 <= i < |s| && s[i] == x;
        assert s[1..][i - 1] == x;
      }
    }
  }

  /** The increasing enumeration of a key set is unique. */
  lemma {:induction false} SortedKeysUnique(ks: set<nat>, s: seq<nat>)
    requires Increasing(s) && forall x :: x in s <==> x in ks
    ensures s == SortedKeys(ks)
    decreases |ks|
  {
    if ks != {} {
      IncreasingStartsAtMin(ks, s);
      IncreasingTail(ks, s);
      var m, t := s[0], s[1..];
      SortedKeysUnique(ks - {m}, t);
      calc {
        SortedKeys(ks);
        [Min(ks)] + SortedKeys(ks - {Min(ks)});
        [m] + t;
        s;
      }
    }
  }

  /** The queue entries for `msg` on the links of `m` taken at the slots `keys`, in that order. */
  function EntriesAt(msg: MsgPtr, m: map<SlotId, LinkId>, keys: seq<SlotId>): (r: seq<Entry>)
    requires forall i :: 0 <= i < |keys| ==> keys[i] in m
  {
    if keys == [] then [] else [Entry(msg, Some(m[keys[0]]))] + EntriesAt(msg, m, keys[1..])
  }

  lemma {:induction false} EntriesAtIndex(msg: MsgPtr, m: map<SlotId, LinkId>, keys: seq<SlotId>)
    requires forall i :: 0 <= i < |keys| ==> keys[i] in m
    ensures |EntriesAt(msg, m, keys)| == |keys|
    ensures forall i :: 0 <= i < |keys| ==> EntriesAt(msg, m, keys)[i] == Entry(msg, Some(m[keys[i]]))
  {
    if keys != [] {
      EntriesAtIndex(msg, m, keys[1..]);
    }
  }

  lemma {:induction false} EntriesAtSnoc(msg: MsgPtr, m: map<SlotId, LinkId>, keys: seq<SlotId>, k: SlotId)
    requires forall i :: 0 <= i < |keys| ==> keys[i] in m
    requires k in m
    ensures EntriesAt(msg, m, keys + [k]) == EntriesAt(msg, m, keys) + [Entry(msg, Some(m[k]))]
  {
    if keys == [] {
      assert keys + [k] == [k];
    } else {
      assert (keys + [k])[1..] == keys[1..] + [k];
      EntriesAtSnoc(msg, m, keys[1..], k);
    }
  }

  /** What `emit(msg)` appends: one entry per link of the map, in key order. */
  ghost function FanOut(msg: MsgPtr, m: map<SlotId, LinkId>): seq<Entry>
  {
    SortedKeysSpec(m.Keys);
    EntriesAt(msg, m, SortedKeys(m.Keys))
  }

  /**
    One emission: exactly one entry per entry of the link map, all carrying
    the same message, the i-th on the link of the i-th slot in key order.
   */
  lemma FanOutShape(msg: MsgPtr, m: map<SlotId, LinkId>)
    ensures |FanOut(msg, m)| == |m| == |SortedKeys(m.Keys)|
    ensures forall i :: 0 <= i < |SortedKeys(m.Keys)| ==> SortedKeys(m.Keys)[i] in m
    ensures forall i :: 0 <= i < |FanOut(msg, m)| ==> FanOut(msg, m)[i].msg == msg
    ensures forall i :: 0 <= i < |FanOut(msg, m)| ==>
              FanOut(msg, m)[i].link == Some(m[SortedKeys(m.Keys)[i]])
    ensures forall k :: k in m ==> Entry(msg, Some(m[k])) in FanOut(msg, m)
  {
    var keys := SortedKeys(m.Keys);
    SortedKeysSpec(m.Keys);
    EntriesAtIndex(msg, m, keys);
    assert |m.Keys| == |m|;
    forall k | k in m ensures Entry(msg, Some(m[k])) in FanOut(msg, m) {
      var i :| 0 <= i < |keys| && keys[i] == k;
      assert FanOut(msg, m)[i] == Entry(msg, Some(m[k]));
    }
  }

  /** `done` lists, in increasing order, exactly the keys of `m` outside `rest`, all below those in `rest`. */
  ghost predicate VisitedInOrder(m: map<SlotId, LinkId>, done: seq<SlotId>, rest: set<SlotId>)
  {
    && rest <= m.Keys
    && Increasing(done)
    && (forall k :: k in done <==> k in m && k !in rest)
    && (forall i, k :: 0 <= i < |done| && k in rest ==> done[i] < k)
  }

  /** Visiting the least remaining key keeps the order. */
  lemma VisitLeast(m: map<SlotId, LinkId>, done: seq<SlotId>, rest: set<SlotId>, k: SlotId)
    requires VisitedInOrder(m, done, rest)
    requires k in rest && forall j :: j in rest ==> k <= j
    requires forall i :: 0 <= i < |done| ==> done[i] in m
    ensures VisitedInOrder(m, done + [k], rest - {k})
    ensures forall i :: 0 <= i < |done + [k]| ==> (done + [k])[i] in m
    ensures |rest - {k}| == |rest| - 1 && |done + [k]| == |done| + 1
  {
    var d := done + [k];
    forall i, j | 0 <= i < |d| && j in rest - {k} ensures d[i] < j {
      if i < |done| { assert d[i] == done[i]; }
    }
    forall i, j | 0 <= i < j < |d| ensures d[i] < d[j] {
      if j < |done| { assert d[i] == done[i] && d[j] == done[j]; }
      else { assert d[i] == done[i]; }
    }
  }

  /** When no key remains, `done` is the map's iteration order. */
  lemma VisitedAll(m: map<SlotId, LinkId>, done: seq<SlotId>)
    requires VisitedInOrder(m, done, {})
    ensures done == SortedKeys(m.Keys) && |done| == |m|
    ensures forall i :: 0 <= i < |done| ==> done[i] in m
  {
    SortedKeysUnique(m.Keys, done);
    SortedKeysSpec(m.Keys);
    assert |m.Keys| == |m|;
  }

  /**
    `emit(msg)` on a signal whose link map is `m`: walk the map in key order
    and add one entry per link to the queue `q`.
   */
  method EmitInto(q: Emitted, msg: MsgPtr, m: map<SlotId, LinkId>)
    modifies q
    ensures q.Pending() == old(q.Pending()) + FanOut(msg, m)
    ensures q.hasNotifier == old(q.hasNotifier)
    ensures q.notifications == old(q.notifications) + (if q.hasNotifier then |m| else 0)
  {
    var rest := m.Keys;
    ghost var done: seq<SlotId> := [];
    while rest != {}
      invariant VisitedInOrder(m, done, rest)
      invariant forall i :: 0 <= i < |done| ==> done[i] in m
      invariant q.Pending() == old(q.Pending()) + EntriesAt(msg, m, done)
      invariant q.hasNotifier == old(q.hasNotifier)
      invariant q.notifications == old(q.notifications) + (if q.hasNotifier then |done| else 0)
      decreases |rest|
    {
      ghost var least := Min(rest);
      assert least in rest && forall j :: j in rest ==> least <= j;
      var k :| k in rest && forall j :: j in rest ==> k <= j;
      VisitLeast(m, done, rest, k);
      EntriesAtSnoc(msg, m, done, k);
      q.Add(Entry(msg, Some(m[k])));
      ConcatAssoc(old(q.Pending()), EntriesAt(msg, m, done), [Entry(msg, Some(m[k]))]);
      done := done + [k];
      rest := rest - {k};
    }
    VisitedAll(m, done);
  }

  /** Concatenation is associative; stated once for the queue proofs that need the step spelled out. */
  lemma ConcatAssoc<T>(a: seq<T>, b: seq<T>, c: seq<T>)
    ensures (a + b) + c == a + (b + c)
  {
  }

  /** A signal without links enqueues nothing. */
  lemma FanOutEmpty(msg: MsgPtr)
    ensures FanOut(msg, map[]) == []
  {
  }
}
