/**
  Messages and the deferred message queue of Message.hpp / Message.cpp.

  A message is an immutable value with an identity (standing for the object a
  shared pointer designates) and its dynamic type, the TypeDef its most-derived
  class returns from `type()`. Links are named by ids.
 */
module Messages {
  import opened Wrappers
  import opened Types

  /** Ids standing for the addresses of signals, slots and links. */
  type SignalId = nat
  type SlotId = nat
  type LinkId = nat

  datatype Msg = Msg(id: nat, kind: TypeDef)

  /** A `Message::Ptr`: a shared pointer that may be empty. */
  type MsgPtr = Option<Msg>

  /** `Message::Emitted::Entry`: a pending message and the (nullable) link it travels. */
  datatype Entry = Entry(msg: MsgPtr, link: Option<LinkId>)

  /** The root message type: named "Message", no parent. */
  function MessageType(): (t: TypeDef)
    ensures NameChain(t) == ["Message"]
  {
    TypeDef("Message", None)
  }

  /** `s` read from its last element back to its first. */
  function Reverse<T>(s: seq<T>): (r: seq<T>)
    ensures |r| == |s|
  {
    if s == [] then [] else [s[|s| - 1]] + Reverse(s[..|s| - 1])
  }

  lemma {:induction false} ReverseIndex<T>(s: seq<T>, i: nat)
    requires i < |s|
    ensures Reverse(s)[i] == s[|s| - 1 - i]
    decreases |s|
  {
    if i > 0 {
      ReverseIndex(s[..|s| - 1], i - 1);
    }
  }

  /** Reversal keeps the elements. */
  lemma ReverseMembers<T>(s: seq<T>)
    ensures forall e :: e in Reverse(s) <==> e in s
  {
    forall e | e in s ensures e in Reverse(s) {
      var j :| 0 <= j < |s| && s[j] == e;
      ReverseIndex(s, |s| - 1 - j);
    }
    forall e | e in Reverse(s) ensures e in s {
      var j :| 0 <= j < |s| && Reverse(s)[j] == e;
      ReverseIndex(s, j);
    }
  }

  /** Pushing at the front of the list appends at the end of its reverse. */
  lemma {:induction false} ReversePushFront<T>(e: T, s: seq<T>)
    ensures Reverse([e] + s) == Reverse(s) + [e]
  {
    var r := Reverse([e] + s);
    forall i | 0 <= i < |r| ensures r[i] == (Reverse(s) + [e])[i] {
      ReverseIndex([e] + s, i);
      if i < |s| { ReverseIndex(s, i); }
    }
  }

  /** The entries of `q` that do not travel on `link`, in their order. */
  function Without(q: seq<Entry>, link: LinkId): (r: seq<Entry>)
  {
    if q == [] then []
    else (if q[0].link == Some(link) then [] else [q[0]]) + Without(q[1..], link)
  }

  /** The entries of `q` whose link is not in `dead`, in their order. */
  function WithoutAll(q: seq<Entry>, dead: set<LinkId>): (r: seq<Entry>)
  {
    if q == [] then []
    else (if q[0].link.Some? && q[0].link.value in dead then [] else [q[0]]) + WithoutAll(q[1..], dead)
  }

  /** No entry of `q` travels on a link of `dead`. */
  predicate Avoids(q: seq<Entry>, dead: set<LinkId>)
  {
    forall i :: 0 <= i < |q| && q[i].link.Some? ==> q[i].link.value !in dead
  }

  /** Erasing keeps exactly the entries not on `link`: nothing else is lost or invented. */
  lemma {:induction false} WithoutContents(q: seq<Entry>, link: LinkId)
    ensures forall e :: e in Without(q, link) <==> e in q && e.link != Some(link)
  {
    if q != [] {
      WithoutContents(q[1..], link);
      assert q == [q[0]] + q[1..];
    }
  }

  /** Erasing distributes over concatenation, so the kept entries keep their relative order. */
  lemma {:induction false} WithoutConcat(a: seq<Entry>, b: seq<Entry>, link: LinkId)
    ensures Without(a + b, link) == Without(a, link) + Without(b, link)
  {
    if a == [] {
      assert a + b == b;
    } else {
      assert (a + b)[1..] == a[1..] + b;
      WithoutConcat(a[1..], b, link);
    }
  }

  /** Erasing a link no entry travels on changes nothing. */
  lemma {:induction false} WithoutAbsent(q: seq<Entry>, link: LinkId)
    requires forall i :: 0 <= i < |q| ==> q[i].link != Some(link)
    ensures Without(q, link) == q
  {
    if q != [] {
      WithoutAbsent(q[1..], link);
      assert q == [q[0]] + q[1..];
    }
  }

  /** Erasing twice is erasing once. */
  lemma WithoutIdempotent(q: seq<Entry>, link: LinkId)
    ensures Without(Without(q, link), link) == Without(q, link)
  {
    var w := Without(q, link);
    WithoutContents(q, link);
    forall i | 0 <= i < |w| ensures w[i].link != Some(link) {
      assert w[i] in w;
    }
    WithoutAbsent(w, link);
  }

  /** Erasing commutes with reading the list backwards. */
  lemma {:induction false} WithoutReverse(q: seq<Entry>, link: LinkId)
    ensures Without(Reverse(q), link) == Reverse(Without(q, link))
  {
    if q != [] {
      var last := q[|q| - 1];
      var init := q[..|q| - 1];
      assert q == init + [last];
      WithoutConcat(init, [last], link);
      WithoutReverse(init, link);
      assert Without([last], link) == (if last.link == Some(link) then [] else [last]);
      if last.link == Some(link) {
        assert Without(q, link) == Without(init, link);
        calc {
          Without(Reverse(q), link);
          Without([last] + Reverse(init), link);
          { assert ([last] + Reverse(init))[1..] == Reverse(init); }
          Without(Reverse(init), link);
        }
      } else {
        assert Without(q, link) == Without(init, link) + [last];
        calc {
          Without(Reverse(q), link);
          { assert ([last] + Reverse(init))[1..] == Reverse(init); }
          [last] + Without(Reverse(init), link);
          [last] + Reverse(Without(init, link));
          { assert (Without(init, link) + [last])[..|Without(init, link)|] == Without(init, link); }
          Reverse(Without(init, link) + [last]);
        }
      }
    }
  }

  /** Erasing one more link after several is erasing them all at once. */
  lemma {:induction false} WithoutAllStep(q: seq<Entry>, dead: set<LinkId>, link: LinkId)
    ensures Without(WithoutAll(q, dead), link) == WithoutAll(q, dead + {link})
  {
    if q != [] {
      WithoutAllStep(q[1..], dead, link);
      var head := if q[0].link.Some? && q[0].link.value in dead then [] else [q[0]];
      WithoutConcat(head, WithoutAll(q[1..], dead), link);
    }
  }

  lemma {:induction false} WithoutAllAvoids(q: seq<Entry>, dead: set<LinkId>)
    ensures Avoids(WithoutAll(q, dead), dead)
    ensures forall e :: e in WithoutAll(q, dead) ==> e in q
  {
    if q != [] {
      WithoutAllAvoids(q[1..], dead);
    }
  }

  lemma {:induction false} WithoutAllEmpty(q: seq<Entry>)
    ensures WithoutAll(q, {}) == q
  {
    if q != [] {
      WithoutAllEmpty(q[1..]);
      assert q == [q[0]] + q[1..];
    }
  }

  /**
    `Message::Emitted`: the global queue of pending deliveries. `queue` is the
    `std::list` in its own order: `add` pushes at the front (index 0) and `get`
    pops at the back, so the back holds the oldest entry. The notifier is
    represented by whether one is set and by how many times it was called.
   */
  class Emitted {
    var queue: seq<Entry>
    var hasNotifier: bool
    var notifications: nat

    constructor ()
      ensures queue == [] && !hasNotifier && notifications == 0
    {
      queue := [];
      hasNotifier := false;
      notifications := 0;
    }

    /** The entries in the order they will be delivered, oldest first. */
    function Pending(): (p: seq<Entry>)
      reads this
      ensures |p| == |queue|
    {
      Reverse(queue)
    }

    predicate Empty()
      reads this
      ensures Empty() <==> Pending() == []
    {
      queue == []
    }

    function Size(): (n: nat)
      reads this
      ensures n == |Pending()|
    {
      |queue|
    }

    /** `add`: push at the front, then call the notifier if one is set. */
    method Add(e: Entry)
      modifies this
      ensures queue == [e] + old(queue)
      ensures Pending() == old(Pending()) + [e]
      ensures Size() == old(Size()) + 1
      ensures hasNotifier == old(hasNotifier)
      ensures notifications == old(notifications) + (if hasNotifier then 1 else 0)
    {
      ReversePushFront(e, queue);
      queue := [e] + queue;
      if hasNotifier {
        notifications := notifications + 1;
      }
    }

    /**
      `get`: remove and return the oldest entry. On an empty queue the source
      throws `runtime_error`; here the result is `None` and nothing changes.
     */
    method Get() returns (r: Option<Entry>)
      modifies this
      ensures old(queue) == [] ==> r == None && queue == old(queue)
      ensures old(queue) != [] ==> r == Some(old(Pending())[0]) && Pending() == old(Pending())[1..]
      ensures old(queue) != [] ==> queue == old(queue)[..|old(queue)| - 1]
      ensures hasNotifier == old(hasNotifier) && notifications == old(notifications)
    {
      if queue == [] {
        return None;
      }
      r := Some(queue[|queue| - 1]);
      queue := queue[..|queue| - 1];
    }

    /** `erase`: walk the list and remove every entry travelling on `link`. */
    method Erase(link: LinkId)
      modifies this
      ensures queue == Without(old(queue), link)
      ensures Pending() == Without(old(Pending()), link)
      ensures hasNotifier == old(hasNotifier) && notifications == old(notifications)
    {
      ghost var q0 := queue;
      ghost var k := 0;
      var i := 0;
      while i < |queue|
        invariant 0 <= i <= |queue| && 0 <= k <= |q0|
        invariant queue[..i] == Without(q0[..k], link)
        invariant queue[i..] == q0[k..]
        invariant hasNotifier == old(hasNotifier) && notifications == old(notifications)
        decreases |queue| - i
      {
        assert q0[..k + 1] == q0[..k] + [q0[k]];
        WithoutConcat(q0[..k], [q0[k]], link);
        if queue[i].link == Some(link) {
          assert queue[i + 1..] == q0[k + 1..];
          queue := queue[..i] + queue[i + 1..];
        } else {
          i := i + 1;
        }
        k := k + 1;
      }
      assert q0[..k] == q0;
      assert queue == queue[..i];
      WithoutReverse(q0, link);
    }

    /** `setMessageNotifier`: replace the notifier; `false` stands for passing 0. */
    method SetMessageNotifier(present: bool)
      modifies this
      ensures hasNotifier == present
      ensures queue == old(queue) && notifications == old(notifications)
    {
      hasNotifier := present;
    }
  }
}
