/**
  The process-wide state of the wiring layer and the operations that change
  it: the signal and slot objects with their link maps and sets, the link
  objects, the two name directories and the global message queue.

  C++ objects are named by ids that are never reused (`nextId`); destroying an
  object removes its id from the map that holds the live objects. Calls of
  slot methods are recorded in the ghost log `calls`.

  The consistency of the object graph is stated on plain values first
  (`Wired`, `QueueSound`, ...), with one lemma per kind of change; the
  `World` methods perform the changes in place and use those lemmas.
 */
module Wiring {
  import opened Wrappers
  import opened Types
  import opened Messages
  import opened Directory
  import opened Signals
  import opened Slots
  import opened Links

  type SignalTable = map<SignalId, SignalRec>
  type SlotTable = map<SlotId, SlotRec>
  type LinkTable = map<LinkId, LinkRec>

  /** Every id in use, including the stale ones in the slot directory, was handed out before `next`. */
  ghost predicate IdsBelow(signals: SignalTable, slots: SlotTable, links: LinkTable, slotDir: map<string, SlotId>, next: nat)
  {
    && (forall s :: s in signals ==> s < next)
    && (forall k :: k in slots ==> k < next)
    && (forall l :: l in links ==> l < next)
    && (forall n :: n in slotDir ==> slotDir[n] < next)
  }

  /** A signal maps a slot to a live link joining that signal to that slot. */
  ghost predicate SignalMapsSound(signals: SignalTable, links: LinkTable)
  {
    forall s, k :: s in signals && k in signals[s].links ==>
      signals[s].links[k] in links
      && links[signals[s].links[k]].signal == s
      && links[signals[s].links[k]].slot == k
  }

  /**
    A live link's slot is live and holds the link in its set. Its signal may
    be gone: a link severed by the static `Disconnect` is no longer in its
    signal's map, so `~AnySignal` does not reach it.
   */
  ghost predicate LinksSound(slots: SlotTable, links: LinkTable)
  {
    forall l :: l in links ==> links[l].slot in slots && l in slots[links[l].slot].links
  }

  /** A slot's link set holds live links to that slot. */
  ghost predicate SlotSetsSound(slots: SlotTable, links: LinkTable)
  {
    forall k, l :: k in slots && l in slots[k].links ==> l in links && links[l].slot == k
  }

  /** The pointers between signals, slots and links agree. */
  ghost predicate Wired(signals: SignalTable, slots: SlotTable, links: LinkTable)
  {
    SignalMapsSound(signals, links) && LinksSound(slots, links) && SlotSetsSound(slots, links)
  }

  /** No queue entry names a destroyed link. */
  ghost predicate QueueSound(queue: seq<Entry>, links: LinkTable)
  {
    forall e :: e in queue && e.link.Some? ==> e.link.value in links
  }

  /** A directory entry names a live signal carrying that name; "" is never registered. */
  ghost predicate SignalDirSound(dir: map<string, SignalId>, signals: SignalTable)
  {
    && "" !in dir
    && forall n :: n in dir ==> dir[n] in signals && signals[dir[n]].name == n
  }

  /**
    A slot directory entry naming a live slot names a slot carrying that name.
    Entries naming destroyed slots may remain: a slot does not unregister.
   */
  ghost predicate SlotDirSound(dir: map<string, SlotId>, slots: SlotTable)
  {
    && "" !in dir
    && forall n :: n in dir && dir[n] in slots ==> slots[dir[n]].name == n
  }

  /**
    Every link in `ls` is live and names a live signal, so destroying it may
    call that signal.
   */
  ghost predicate SignalsLive(signals: SignalTable, links: LinkTable, ls: set<LinkId>)
  {
    forall l :: l in ls ==> l in links && links[l].signal in signals
  }

  /** The slot's link set with `gone` removed, for every slot. */
  ghost function SlotsWithout(slots: SlotTable, gone: set<LinkId>): (r: SlotTable)
    ensures r.Keys == slots.Keys
  {
    map k | k in slots :: slots[k].(links := slots[k].links - gone)
  }

  /** Every signal's link map with the entry for slot `k` removed. */
  ghost function SignalsWithoutSlot(signals: SignalTable, k: SlotId): (r: SignalTable)
    ensures r.Keys == signals.Keys
  {
    map s | s in signals :: signals[s].(links := signals[s].links - {k})
  }

  /**
    Every live link is the one its signal's map holds for its slot: no link
    has been severed by the static `Disconnect`, which erases the map entry
    but leaves the link alive.
   */
  ghost predicate AllMapped(signals: SignalTable, links: LinkTable)
  {
    forall l :: l in links ==>
      && links[l].signal in signals
      && links[l].slot in signals[links[l].signal].links
      && signals[links[l].signal].links[links[l].slot] == l
  }

  /**
    Part way through `~AnySignal`: the links in `gone`, taken from signal
    `s`'s map, are destroyed, purged from the queue and from their slots'
    sets, and the map holds exactly the others; only `s`'s map has changed
    among the signals.
   */
  ghost predicate SignalTeardown(signals0: SignalTable, slots0: SlotTable, links0: LinkTable, q0: seq<Entry>,
                                 s: SignalId, gone: set<LinkId>,
                                 signals: SignalTable, slots: SlotTable, links: LinkTable, q: seq<Entry>)
  {
    && s in signals0 && s in signals
    && signals == signals0[s := signals0[s].(links := signals[s].links)]
    && gone <= signals0[s].links.Values
    && signals[s].links.Values == signals0[s].links.Values - gone
    && links == links0 - gone
    && slots == SlotsWithout(slots0, gone)
    && q == WithoutAll(q0, gone)
  }

  /**
    A map holds each link under one key only, so erasing key `k` of `s`'s map
    removes exactly the link stored there from the links it holds.
   */
  lemma MappedStep(signals: SignalTable, links: LinkTable, s: SignalId, k: SlotId)
    requires SignalMapsSound(signals, links) && s in signals && k in signals[s].links
    ensures var m := signals[s].links;
            && (m - {k}).Values == m.Values - {m[k]}
            && m[k] in m.Values
  {
    var m := signals[s].links;
    var l := m[k];
    forall v | v in (m - {k}).Values ensures v in m.Values - {l} {
      var k' :| k' in (m - {k}) && (m - {k})[k'] == v;
      assert m[k'] == v && links[m[k']].slot == k' && links[m[k]].slot == k;
    }
    forall v | v in m.Values - {l} ensures v in (m - {k}).Values {
      var k' :| k' in m && m[k'] == v;
      assert k' != k && (m - {k})[k'] == v;
    }
  }

  /** Destroying the link at key `k` of `s`'s map advances the teardown by that link. */
  lemma SignalTeardownStep(signals0: SignalTable, slots0: SlotTable, links0: LinkTable, q0: seq<Entry>,
                           s: SignalId, gone: set<LinkId>,
                           signals: SignalTable, slots: SlotTable, links: LinkTable, q: seq<Entry>, k: SlotId)
    requires SignalTeardown(signals0, slots0, links0, q0, s, gone, signals, slots, links, q)
    requires SlotSetsSound(slots0, links0) && LinksSound(slots0, links0)
    requires SignalMapsSound(signals, links) && k in signals[s].links
    ensures var l := signals[s].links[k];
            && l in links && links[l].signal == s && links[l].slot == k
    ensures var l := signals[s].links[k];
            SignalTeardown(signals0, slots0, links0, q0, s, gone + {l},
                           signals[s := signals[s].(links := signals[s].links - {k})],
                           slots[k := slots[k].(links := slots[k].links - {l})],
                           links - {l}, Without(q, l))
  {
    var l := signals[s].links[k];
    var m := signals[s].links - {k};
    MappedStep(signals, links, s, k);
    assert l in links0 && links0[l] == links[l] && l !in gone;
    assert m.Values == signals0[s].links.Values - (gone + {l});
    assert signals[s := signals[s].(links := m)] == signals0[s := signals0[s].(links := m)];
    assert links - {l} == links0 - (gone + {l});
    SlotsWithoutStep(slots0, links0, gone, l);
    WithoutAllStep(q0, gone, l);
  }

  /**
    Once `s`'s map is empty, exactly the links it held at the start are gone;
    a severed link of `s` was never among them and is still alive.
   */
  lemma SignalTeardownDone(signals0: SignalTable, slots0: SlotTable, links0: LinkTable, q0: seq<Entry>,
                           s: SignalId, gone: set<LinkId>,
                           signals: SignalTable, slots: SlotTable, links: LinkTable, q: seq<Entry>)
    requires SignalTeardown(signals0, slots0, links0, q0, s, gone, signals, slots, links, q)
    requires signals[s].links == map[]
    ensures gone == signals0[s].links.Values
    ensures forall l :: l in links0 && l !in signals0[s].links.Values ==> l in links && links[l] == links0[l]
  {
    assert signals[s].links.Values == {};
    forall l | l in signals0[s].links.Values ensures l in gone {
      assert l !in signals[s].links.Values;
    }
  }

  /**
    Part way through `~AnySlot`: the links in `gone`, all of slot `k`, are
    destroyed and purged from the queue, the rest of `k`'s original set is
    still there, and each signal's map is untouched or stripped of `k`.
   */
  ghost predicate SlotTeardown(signals0: SignalTable, slots0: SlotTable, links0: LinkTable, q0: seq<Entry>,
                               k: SlotId, gone: set<LinkId>,
                               signals: SignalTable, slots: SlotTable, links: LinkTable, q: seq<Entry>)
  {
    && k in slots0 && k in slots
    && slots == slots0[k := slots0[k].(links := slots[k].links)]
    && gone !! slots[k].links && gone + slots[k].links == slots0[k].links
    && links == links0 - gone
    && PartlyWithoutSlot(signals0, signals, k)
    && q == WithoutAll(q0, gone)
  }

  /** Destroying one link of slot `k` advances the teardown by that link. */
  lemma SlotTeardownStep(signals0: SignalTable, slots0: SlotTable, links0: LinkTable, q0: seq<Entry>,
                         k: SlotId, gone: set<LinkId>,
                         signals: SignalTable, slots: SlotTable, links: LinkTable, q: seq<Entry>, l: LinkId)
    requires SlotTeardown(signals0, slots0, links0, q0, k, gone, signals, slots, links, q)
    requires Wired(signals, slots, links)
    requires SignalsLive(signals0, links0, slots0[k].links) && l in slots[k].links
    ensures l in links && links[l].slot == k && links[l].signal in signals
    ensures var sig := links[l].signal;
            SlotTeardown(signals0, slots0, links0, q0, k, gone + {l},
                         signals[sig := signals[sig].(links := signals[sig].links - {k})],
                         slots[k := slots[k].(links := slots[k].links - {l})],
                         links - {l}, Without(q, l))
  {
    PartlyWithoutSlotStep(signals0, signals, k, links[l].signal);
    WithoutAllStep(q0, gone, l);
  }

  /**
    Destroying one more link `l` of a graph whose slot sets were already
    stripped of `gone` gives the slot sets stripped of `gone + {l}`.
   */
  lemma SlotsWithoutStep(slots0: SlotTable, links0: LinkTable, gone: set<LinkId>, l: LinkId)
    requires SlotSetsSound(slots0, links0) && l in links0 && links0[l].slot in slots0
    ensures var cur := SlotsWithout(slots0, gone);
            var k := links0[l].slot;
            cur[k := cur[k].(links := cur[k].links - {l})] == SlotsWithout(slots0, gone + {l})
  {
    var cur := SlotsWithout(slots0, gone);
    var k := links0[l].slot;
    var next := cur[k := cur[k].(links := cur[k].links - {l})];
    forall k' | k' in slots0 ensures next[k'] == SlotsWithout(slots0, gone + {l})[k'] {
      if k' != k {
        assert l !in slots0[k'].links;
        assert slots0[k'].links - gone == slots0[k'].links - (gone + {l});
      } else {
        assert slots0[k].links - gone - {l} == slots0[k].links - (gone + {l});
      }
    }
  }

  /** `begin()` of a non-empty ordered set of ids: its least element. */
  method First(ks: set<nat>) returns (k: nat)
    requires ks != {}
    ensures k in ks && forall j :: j in ks ==> k <= j
  {
    ghost var least := Min(ks);
    k :| k in ks && forall j :: j in ks ==> k <= j;
  }

  lemma SlotsWithoutNothing(slots: SlotTable)
    ensures SlotsWithout(slots, {}) == slots
  {
    forall k | k in slots ensures SlotsWithout(slots, {})[k] == slots[k] {
      assert slots[k].links - {} == slots[k].links;
    }
  }

  /** Each signal's map is either untouched or stripped of slot `k`. */
  ghost predicate PartlyWithoutSlot(signals0: SignalTable, signals: SignalTable, k: SlotId)
  {
    && signals.Keys == signals0.Keys
    && forall s :: s in signals ==> signals[s] == signals0[s] || signals[s] == SignalsWithoutSlot(signals0, k)[s]
  }

  /** Stripping slot `k` from one more signal's map keeps the maps partly stripped. */
  lemma PartlyWithoutSlotStep(signals0: SignalTable, signals: SignalTable, k: SlotId, sig: SignalId)
    requires PartlyWithoutSlot(signals0, signals, k) && sig in signals
    ensures PartlyWithoutSlot(signals0, signals[sig := signals[sig].(links := signals[sig].links - {k})], k)
  {
    var stripped := SignalsWithoutSlot(signals0, k)[sig];
    assert stripped.links - {k} == stripped.links;
  }

  /** When no map has an entry for `k` any more, the maps are fully stripped. */
  lemma PartlyWithoutSlotDone(signals0: SignalTable, signals: SignalTable, k: SlotId)
    requires PartlyWithoutSlot(signals0, signals, k)
    requires forall s :: s in signals ==> k !in signals[s].links
    ensures signals == SignalsWithoutSlot(signals0, k)
  {
    forall s | s in signals ensures signals[s] == SignalsWithoutSlot(signals0, k)[s] {
      if signals[s] == signals0[s] {
        assert signals0[s].links - {k} == signals0[s].links;
      }
    }
  }

  /** One emission a slot method performs while it runs: `signal.emit(msg)`. */
  datatype Emission = Emission(signal: SignalId, msg: MsgPtr)

  /** The pending entries the emissions `reaction` append, in order, given the signals `sigs`. */
  ghost function ReactionEntries(sigs: SignalTable, reaction: seq<Emission>): seq<Entry>
    requires forall i :: 0 <= i < |reaction| ==> reaction[i].signal in sigs
  {
    if reaction == [] then []
    else ReactionEntries(sigs, reaction[..|reaction| - 1])
         + FanOut(reaction[|reaction| - 1].msg, sigs[reaction[|reaction| - 1].signal].links)
  }

  /** The entries an emission appends travel on live links. */
  lemma FanOutLive(signals: SignalTable, links: LinkTable, s: SignalId, msg: MsgPtr)
    requires SignalMapsSound(signals, links) && s in signals
    ensures var f := FanOut(msg, signals[s].links);
            forall i :: 0 <= i < |f| && f[i].link.Some? ==> f[i].link.value in links
  {
    FanOutShape(msg, signals[s].links);
  }

  /** Appending entries that travel on live links keeps the queue sound. */
  lemma AppendKeepsQueueSound(q0: seq<Entry>, q: seq<Entry>, extra: seq<Entry>, links: LinkTable)
    requires QueueSound(q0, links)
    requires Reverse(q) == Reverse(q0) + extra
    requires forall i :: 0 <= i < |extra| && extra[i].link.Some? ==> extra[i].link.value in links
    ensures QueueSound(q, links)
  {
    ReverseMembers(q0);
    ReverseMembers(q);
    forall e | e in q && e.link.Some? ensures e.link.value in links {
      var i :| 0 <= i < |Reverse(q)| && Reverse(q)[i] == e;
      if i >= |q0| {
        assert e == extra[i - |q0|];
      } else {
        assert e in Reverse(q0);
      }
    }
  }

  /** Creating a link joining `s` to `k` and registering it at both ends keeps the graph wired. */
  lemma ConnectKeepsWired(signals: SignalTable, slots: SlotTable, links: LinkTable, s: SignalId, k: SlotId, l: LinkId, useStatic: bool)
    requires Wired(signals, slots, links)
    requires s in signals && k in slots && l !in links
    ensures Wired(signals[s := signals[s].(links := signals[s].links[k := l])],
                  slots[k := slots[k].(links := slots[k].links + {l})],
                  links[l := LinkRec(s, k, useStatic)])
  {
    var slots' := slots[k := slots[k].(links := slots[k].links + {l})];
    var links' := links[l := LinkRec(s, k, useStatic)];
    forall k', l' | k' in slots' && l' in slots'[k'].links ensures l' in links' && links'[l'].slot == k' {
      if l' != l {
        assert l' in slots[k'].links;
      }
    }
  }

  /** Erasing a signal's map entry keeps the graph wired. */
  lemma SignalDisconnectKeepsWired(signals: SignalTable, slots: SlotTable, links: LinkTable, s: SignalId, k: SlotId)
    requires Wired(signals, slots, links) && s in signals
    ensures Wired(signals[s := signals[s].(links := signals[s].links - {k})], slots, links)
  {
  }

  /**
    Destroying a live link after erasing its signal's map entry for its slot
    and its slot's set entry keeps the graph wired: no other map entry can
    name the link.
   */
  lemma UnlinkKeepsWired(signals: SignalTable, slots: SlotTable, links: LinkTable, l: LinkId)
    requires Wired(signals, slots, links) && l in links && links[l].signal in signals
    ensures var rec := links[l];
            Wired(signals[rec.signal := signals[rec.signal].(links := signals[rec.signal].links - {rec.slot})],
                  slots[rec.slot := slots[rec.slot].(links := slots[rec.slot].links - {l})],
                  links - {l})
  {
    var rec := links[l];
    var signals' := signals[rec.signal := signals[rec.signal].(links := signals[rec.signal].links - {rec.slot})];
    var links' := links - {l};
    forall s, k | s in signals' && k in signals'[s].links
      ensures signals'[s].links[k] in links'
    {
      assert k in signals[s].links && signals'[s].links[k] == signals[s].links[k];
    }
  }

  /** Renaming a signal does not touch its links. */
  lemma RenameSignalKeepsWired(signals: SignalTable, slots: SlotTable, links: LinkTable, s: SignalId, name: string)
    requires Wired(signals, slots, links) && s in signals
    ensures Wired(signals[s := signals[s].(name := name)], slots, links)
  {
    var signals' := signals[s := signals[s].(name := name)];
    assert forall s' :: s' in signals' ==> signals'[s'].links == signals[s'].links;
  }

  /** Renaming a slot does not touch its links. */
  lemma RenameSlotKeepsWired(signals: SignalTable, slots: SlotTable, links: LinkTable, k: SlotId, name: string)
    requires Wired(signals, slots, links) && k in slots
    ensures Wired(signals, slots[k := slots[k].(name := name)], links)
  {
    var slots' := slots[k := slots[k].(name := name)];
    assert forall k' :: k' in slots' ==> slots'[k'].links == slots[k'].links;
  }

  /** `setName` keeps the signal directory sound. */
  lemma RenameSignalKeepsDir(dir: map<string, SignalId>, signals: SignalTable, s: SignalId, name: string)
    requires SignalDirSound(dir, signals) && s in signals
    ensures var signals' := signals[s := signals[s].(name := name)];
            SignalDirSound(Renamed(dir, signals[s].name, name, s), signals')
  {
  }

  /** `setName` keeps the slot directory sound. */
  lemma RenameSlotKeepsDir(dir: map<string, SlotId>, slots: SlotTable, k: SlotId, name: string)
    requires SlotDirSound(dir, slots) && k in slots
    ensures var slots' := slots[k := slots[k].(name := name)];
            SlotDirSound(Renamed(dir, slots[k].name, name, k), slots')
  {
  }

  /** Registering an unnamed live signal under a non-empty name keeps the directory sound. */
  lemma RegisterSignalKeepsDir(dir: map<string, SignalId>, signals: SignalTable, s: SignalId, name: string)
    requires SignalDirSound(dir, signals) && s in signals && signals[s].name == "" && name != ""
    ensures SignalDirSound(dir[name := s], signals[s := signals[s].(name := name)])
  {
  }

  /** Registering an unnamed live slot under a non-empty name keeps the directory sound. */
  lemma RegisterSlotKeepsDir(dir: map<string, SlotId>, slots: SlotTable, k: SlotId, name: string)
    requires SlotDirSound(dir, slots) && k in slots && slots[k].name == "" && name != ""
    ensures SlotDirSound(dir[name := k], slots[k := slots[k].(name := name)])
  {
  }

  /** A signal can be removed whatever links still name it: only its own map mentioned them. */
  lemma RemoveSignalKeepsWired(signals: SignalTable, slots: SlotTable, links: LinkTable, s: SignalId)
    requires Wired(signals, slots, links) && s in signals
    ensures Wired(signals - {s}, slots, links)
  {
  }

  /** A slot with an empty link set can be removed; no map entry can name it. */
  lemma RemoveSlotKeepsWired(signals: SignalTable, slots: SlotTable, links: LinkTable, k: SlotId)
    requires Wired(signals, slots, links) && k in slots && slots[k].links == {}
    ensures forall s :: s in signals ==> k !in signals[s].links
    ensures Wired(signals, slots - {k}, links)
  {
  }

  /**
    The static `Disconnect` then `~AnySignal`, on values. The link joining
    `s` to `k` leaves `s`'s map, so the signal's destructor, which destroys
    the links its map holds, does not reach it: the link survives, still in
    `k`'s set and still naming `s`, which is gone. When `~AnySlot` of `k`
    later deletes it, `~Link` calls `disconnect` on the destroyed signal.
   */
  lemma SeveredLinkDangles(signals: SignalTable, slots: SlotTable, links: LinkTable, s: SignalId, k: SlotId)
    requires Wired(signals, slots, links) && s in signals && k in signals[s].links
    ensures var l := signals[s].links[k];
            var dead := (signals[s].links - {k}).Values;
            && l in links && l !in dead
            && (links - dead)[l].signal == s && (links - dead)[l].signal !in signals - {s}
            && k in SlotsWithout(slots, dead) && l in SlotsWithout(slots, dead)[k].links
  {
    MappedStep(signals, links, s, k);
  }

  /** With no severed link, a signal's map holds exactly the live links naming it. */
  lemma AllMappedLinksOf(signals: SignalTable, links: LinkTable, s: SignalId)
    requires SignalMapsSound(signals, links) && AllMapped(signals, links) && s in signals
    ensures forall l :: l in links && links[l].signal == s <==> l in signals[s].links.Values
  {
    forall l | l in signals[s].links.Values ensures l in links && links[l].signal == s {
      var k :| k in signals[s].links && signals[s].links[k] == l;
    }
  }

  /**
    With no severed link, `~AnySignal` leaves no link naming the signal and
    leaves none severed.
   */
  lemma AllMappedSignalTeardown(signals: SignalTable, slots: SlotTable, links: LinkTable, s: SignalId)
    requires Wired(signals, slots, links) && AllMapped(signals, links) && s in signals
    ensures var rest := links - signals[s].links.Values;
            && (forall l :: l in rest ==> rest[l].signal != s)
            && AllMapped(signals - {s}, rest)
  {
    AllMappedLinksOf(signals, links, s);
  }

  /** With no severed link, every link in a slot's set names a live signal: `~AnySlot` is safe. */
  lemma AllMappedSlotSafe(signals: SignalTable, slots: SlotTable, links: LinkTable, k: SlotId)
    requires Wired(signals, slots, links) && AllMapped(signals, links) && k in slots
    ensures forall l :: l in slots[k].links ==> l in links && links[l].signal in signals
  {
  }

  /** Deleting a link that its signal maps keeps every other link mapped. */
  lemma UnlinkKeepsAllMapped(signals: SignalTable, links: LinkTable, l: LinkId)
    requires AllMapped(signals, links) && l in links
    ensures var rec := links[l];
            AllMapped(signals[rec.signal := signals[rec.signal].(links := signals[rec.signal].links - {rec.slot})],
                      links - {l})
  {
    var rec := links[l];
    forall l' | l' in links - {l} ensures links[l'].signal != rec.signal || links[l'].slot != rec.slot {
      assert signals[links[l'].signal].links[links[l'].slot] == l';
    }
  }

  /** Entering a new link for a pair that was not connected keeps every link mapped. */
  lemma ConnectKeepsAllMapped(signals: SignalTable, links: LinkTable, s: SignalId, k: SlotId, l: LinkId, useStatic: bool)
    requires AllMapped(signals, links) && s in signals && k !in signals[s].links && l !in links
    ensures AllMapped(signals[s := signals[s].(links := signals[s].links[k := l])],
                      links[l := LinkRec(s, k, useStatic)])
  {
  }

  class World {
    const emitted: Emitted
    var signals: SignalTable
    var slots: SlotTable
    var links: LinkTable
    var signalDir: map<string, SignalId>
    var slotDir: map<string, SlotId>
    var nextId: nat
    ghost var calls: seq<Call>

    ghost predicate Valid()
      reads this, emitted
    {
      && IdsBelow(signals, slots, links, slotDir, nextId)
      && Wired(signals, slots, links)
      && QueueSound(emitted.queue, links)
      && SignalDirSound(signalDir, signals)
      && SlotDirSound(slotDir, slots)
    }

    constructor ()
      ensures Valid() && fresh(emitted)
      ensures emitted.queue == [] && !emitted.hasNotifier
      ensures signals == map[] && slots == map[] && links == map[]
      ensures signalDir == map[] && slotDir == map[] && calls == []
    {
      emitted := new Emitted();
      signals, slots, links := map[], map[], map[];
      signalDir, slotDir := map[], map[];
      nextId := 0;
      calls := [];
    }

    /** `Signal<T>()`: a new unnamed signal without links, emitting messages of type `msgType`. */
    method NewSignal(msgType: TypeDef) returns (s: SignalId)
      requires Valid()
      modifies this
      ensures Valid()
      ensures s !in old(signals) && signals == old(signals)[s := SignalRec(msgType, "", map[])]
      ensures slots == old(slots) && links == old(links) && nextId == old(nextId) + 1
      ensures signalDir == old(signalDir) && slotDir == old(slotDir) && calls == old(calls)
    {
      s := nextId;
      nextId := nextId + 1;
      signals := signals[s := SignalRec(msgType, "", map[])];
    }

    /** `Slot<T, O, M>(obj)`: a new unnamed slot without links, accepting messages of type `msgType`. */
    method NewSlot(msgType: TypeDef, hasOwner: bool) returns (k: SlotId)
      requires Valid()
      modifies this
      ensures Valid()
      ensures k !in old(slots) && slots == old(slots)[k := SlotRec(msgType, hasOwner, "", {})]
      ensures signals == old(signals) && links == old(links) && nextId == old(nextId) + 1
      ensures signalDir == old(signalDir) && slotDir == old(slotDir) && calls == old(calls)
    {
      k := nextId;
      nextId := nextId + 1;
      slots := slots[k := SlotRec(msgType, hasOwner, "", {})];
    }

    /** `AnySignal::get(name)`. */
    function GetSignal(name: string): (r: Option<SignalId>)
      reads this
      requires SignalDirSound(signalDir, signals)
      ensures r.Some? ==> r.value in signals && signals[r.value].name == name
      ensures r.None? <==> name !in signalDir
    {
      Lookup(signalDir, name)
    }

    /** `AnySlot::get(name)`: may name a destroyed slot, since slots do not unregister. */
    function GetSlot(name: string): (r: Option<SlotId>)
      reads this
      requires SlotDirSound(slotDir, slots)
      ensures r.Some? && r.value in slots ==> slots[r.value].name == name
      ensures r.None? <==> name !in slotDir
    {
      Lookup(slotDir, name)
    }

    /** `AnySignal::unregisterName`: erase the entry keyed by the current name and clear the name. */
    method UnregisterSignalName(s: SignalId)
      requires Valid() && s in signals
      modifies this
      ensures Valid()
      ensures signalDir == Unregistered(old(signalDir), old(signals[s].name))
      ensures signals == old(signals)[s := old(signals[s]).(name := "")]
      ensures slots == old(slots) && links == old(links) && nextId == old(nextId)
      ensures slotDir == old(slotDir) && calls == old(calls)
    {
      RenameSignalKeepsWired(signals, slots, links, s, "");
      RenameSignalKeepsDir(signalDir, signals, s, "");
      signalDir := signalDir - {signals[s].name};
      signals := signals[s := signals[s].(name := "")];
    }

    /** `AnySignal::setName`: unregister, then register under `name` unless it is "". */
    method SetSignalName(s: SignalId, name: string)
      requires Valid() && s in signals
      modifies this
      ensures Valid()
      ensures signalDir == Renamed(old(signalDir), old(signals[s].name), name, s)
      ensures signals == old(signals)[s := old(signals[s]).(name := name)]
      ensures GetSignal(name) == if name == "" then None else Some(s)
      ensures slots == old(slots) && links == old(links) && nextId == old(nextId)
      ensures slotDir == old(slotDir) && calls == old(calls)
    {
      UnregisterSignalName(s);
      if name != "" {
        RenameSignalKeepsWired(signals, slots, links, s, name);
        RegisterSignalKeepsDir(signalDir, signals, s, name);
        signals := signals[s := signals[s].(name := name)];
        signalDir := signalDir[name := s];
      }
    }

    /** `AnySlot::unregisterName`. */
    method UnregisterSlotName(k: SlotId)
      requires Valid() && k in slots
      modifies this
      ensures Valid()
      ensures slotDir == Unregistered(old(slotDir), old(slots[k].name))
      ensures slots == old(slots)[k := old(slots[k]).(name := "")]
      ensures signals == old(signals) && links == old(links) && nextId == old(nextId)
      ensures signalDir == old(signalDir) && calls == old(calls)
    {
      RenameSlotKeepsWired(signals, slots, links, k, "");
      RenameSlotKeepsDir(slotDir, slots, k, "");
      slotDir := slotDir - {slots[k].name};
      slots := slots[k := slots[k].(name := "")];
    }

    /** `AnySlot::setName`. */
    method SetSlotName(k: SlotId, name: string)
      requires Valid() && k in slots
      modifies this
      ensures Valid()
      ensures slotDir == Renamed(old(slotDir), old(slots[k].name), name, k)
      ensures slots == old(slots)[k := old(slots[k]).(name := name)]
      ensures GetSlot(name) == if name == "" then None else Some(k)
      ensures signals == old(signals) && links == old(links) && nextId == old(nextId)
      ensures signalDir == old(signalDir) && calls == old(calls)
    {
      UnregisterSlotName(k);
      if name != "" {
        RenameSlotKeepsWired(signals, slots, links, k, name);
        RegisterSlotKeepsDir(slotDir, slots, k, name);
        slots := slots[k := slots[k].(name := name)];
        slotDir := slotDir[name := k];
      }
    }

    /**
      `Link::isConnected(signal, slot)`: false for a null endpoint; otherwise
      whether the signal's map has an entry for the slot, which in a wired
      graph is a live link joining the two.
     */
    predicate IsConnected(sig: Option<SignalId>, slot: Option<SlotId>)
      reads this
      requires sig.Some? ==> sig.value in signals
      ensures IsConnected(sig, slot) ==> sig.Some? && slot.Some? && slot.value in signals[sig.value].links
      ensures SignalMapsSound(signals, links) && IsConnected(sig, slot) ==>
                var l := signals[sig.value].links[slot.value];
                l in links && links[l].signal == sig.value && links[l].slot == slot.value
    {
      sig.Some? && slot.Some? && slot.value in signals[sig.value].links
    }

    /** A connected pair is joined by a live link registered in both endpoints. */
    lemma ConnectedHasLink(s: SignalId, k: SlotId)
      requires Valid() && s in signals && IsConnected(Some(s), Some(k))
      ensures var l := signals[s].links[k];
              l in links && links[l] == LinkRec(s, k, links[l].useStatic) && k in slots && l in slots[k].links
    {
    }

    /**
      `Link::connect(signal, slot, forceStatic)`: fails on a null endpoint; does
      nothing more when already connected; otherwise creates one link, choosing
      its cast wrapper, and registers it in the signal's map and the slot's set.
     */
    method Connect(sig: Option<SignalId>, slot: Option<SlotId>, forceStatic: bool) returns (ok: bool)
      requires Valid()
      requires sig.Some? ==> sig.value in signals
      requires sig.Some? && slot.Some? ==> slot.value in slots
      modifies this
      ensures Valid()
      ensures signals.Keys == old(signals.Keys) && slots.Keys == old(slots.Keys)
      ensures ok <==> sig.Some? && slot.Some?
      ensures ok ==> IsConnected(sig, slot)
      ensures !ok || old(IsConnected(sig, slot)) ==>
                signals == old(signals) && slots == old(slots) && links == old(links) && nextId == old(nextId)
      ensures ok && !old(IsConnected(sig, slot)) ==>
                var s, k, l := sig.value, slot.value, old(nextId);
                && l !in old(links)
                && links == old(links)[l := LinkRec(s, k, UsesStaticCast(forceStatic, signals[s].msgType, slots[k].msgType))]
                && signals == old(signals)[s := old(signals[s]).(links := old(signals[s].links)[k := l])]
                && slots == old(slots)[k := old(slots[k]).(links := old(slots[k].links) + {l})]
                && nextId == l + 1
      ensures signalDir == old(signalDir) && slotDir == old(slotDir) && calls == old(calls)
    {
      if sig.None? || slot.None? {
        return false;
      }
      var s, k := sig.value, slot.value;
      if k !in signals[s].links {
        // new Link(*signal, *slot, forceStatic): pick the cast wrapper once
        var sameOrSub: bool;
        ghost var steps: nat;
        sameOrSub, steps := SameOrSubtype(signals[s].msgType, Some(slots[k].msgType));
        var _ := AddLink(s, k, forceStatic || sameOrSub);
      }
      return true;
    }

    /** The body of `new Link`: a fresh link, entered in the signal's map and the slot's set. */
    method AddLink(s: SignalId, k: SlotId, useStatic: bool) returns (l: LinkId)
      requires Valid() && s in signals && k in slots
      modifies this
      ensures Valid()
      ensures l == old(nextId) && l !in old(links) && nextId == l + 1
      ensures links == old(links)[l := LinkRec(s, k, useStatic)]
      ensures signals == old(signals)[s := old(signals[s]).(links := old(signals[s].links)[k := l])]
      ensures slots == old(slots)[k := old(slots[k]).(links := old(slots[k].links) + {l})]
      ensures signalDir == old(signalDir) && slotDir == old(slotDir) && calls == old(calls)
    {
      l := nextId;
      ConnectKeepsWired(signals, slots, links, s, k, l, useStatic);
      nextId := nextId + 1;
      links := links[l := LinkRec(s, k, useStatic)];
      // signal->connect(*slot, *link); slot->connect(*link)
      signals := signals[s := signals[s].(links := signals[s].links[k := l])];
      slots := slots[k := slots[k].(links := slots[k].links + {l})];
    }

    /** `AnySignal::disconnect(slot)`: erase the map entry for `slot`, reporting whether there was one. */
    method SignalDisconnect(s: SignalId, k: SlotId) returns (erased: bool)
      requires Valid() && s in signals
      modifies this
      ensures Valid()
      ensures erased <==> k in old(signals[s].links)
      ensures !erased ==> signals == old(signals)
      ensures signals == old(signals)[s := old(signals[s]).(links := old(signals[s].links) - {k})]
      ensures slots == old(slots) && links == old(links) && nextId == old(nextId)
      ensures signalDir == old(signalDir) && slotDir == old(slotDir) && calls == old(calls)
    {
      SignalDisconnectKeepsWired(signals, slots, links, s, k);
      erased := k in signals[s].links;
      if !erased {
        assert signals[s].(links := signals[s].links - {k}) == signals[s];
      }
      signals := signals[s := signals[s].(links := signals[s].links - {k})];
    }

    /**
      Static `Link::disconnect(signal, slot)`: only the signal's map entry is
      erased. The link stays alive, in the slot's set, with its queued entries.
     */
    method Disconnect(sig: Option<SignalId>, slot: Option<SlotId>) returns (r: bool)
      requires Valid()
      requires sig.Some? ==> sig.value in signals
      modifies this
      ensures Valid()
      ensures signals.Keys == old(signals.Keys)
      ensures r <==> old(IsConnected(sig, slot))
      ensures !IsConnected(sig, slot)
      ensures r ==> signals == old(signals)[sig.value := old(signals[sig.value]).(links := old(signals[sig.value].links) - {slot.value})]
      ensures !r ==> signals == old(signals)
      ensures slots == old(slots) && links == old(links) && nextId == old(nextId)
      ensures signalDir == old(signalDir) && slotDir == old(slotDir) && calls == old(calls)
    {
      if sig.None? || slot.None? {
        return false;
      }
      r := SignalDisconnect(sig.value, slot.value);
    }

    /**
      `Link::disconnect` as the class documentation describes it, where
      deleting a link is what removes a connection: when the pair is
      connected, delete the link joining them, which purges its queued
      entries and erases it from both endpoints. No link is left severed.
     */
    method DisconnectAndDelete(sig: Option<SignalId>, slot: Option<SlotId>) returns (r: bool)
      requires Valid()
      requires sig.Some? ==> sig.value in signals
      modifies this, emitted
      ensures Valid()
      ensures signals.Keys == old(signals.Keys)
      ensures r <==> old(IsConnected(sig, slot))
      ensures !IsConnected(sig, slot)
      ensures r ==> var s, k := sig.value, slot.value;
                    var l := old(signals[s].links[k]);
                    && l in old(links) && k in old(slots)
                    && links == old(links) - {l}
                    && signals == old(signals)[s := old(signals[s]).(links := old(signals[s].links) - {k})]
                    && slots == old(slots)[k := old(slots[k]).(links := old(slots[k].links) - {l})]
                    && emitted.queue == Without(old(emitted.queue), l)
      ensures !r ==> signals == old(signals) && slots == old(slots) && links == old(links) && emitted.queue == old(emitted.queue)
      ensures old(AllMapped(signals, links)) ==> AllMapped(signals, links)
      ensures nextId == old(nextId) && signalDir == old(signalDir) && slotDir == old(slotDir) && calls == old(calls)
      ensures emitted.hasNotifier == old(emitted.hasNotifier) && emitted.notifications == old(emitted.notifications)
    {
      if sig.None? || slot.None? || slot.value !in signals[sig.value].links {
        return false;
      }
      var l := signals[sig.value].links[slot.value];
      if AllMapped(signals, links) {
        UnlinkKeepsAllMapped(signals, links, l);
      }
      DestroyLink(l);
      return true;
    }

    /**
      Name-based `Link::connect`: resolve both names, then connect. An unknown
      name is a null endpoint, so nothing changes.
     */
    method ConnectByName(signalName: string, slotName: string, forceStatic: bool) returns (ok: bool)
      requires Valid()
      requires signalName in signalDir && slotName in slotDir ==> slotDir[slotName] in slots
      modifies this
      ensures Valid()
      ensures ok <==> signalName in old(signalDir) && slotName in old(slotDir)
      ensures ok ==> IsConnected(GetSignal(signalName), GetSlot(slotName))
      ensures !ok || old(IsConnected(GetSignal(signalName), GetSlot(slotName))) ==>
                signals == old(signals) && slots == old(slots) && links == old(links) && nextId == old(nextId)
      ensures ok && !old(IsConnected(GetSignal(signalName), GetSlot(slotName))) ==>
                var s, k, l := old(signalDir[signalName]), old(slotDir[slotName]), old(nextId);
                && l !in old(links)
                && links == old(links)[l := LinkRec(s, k, UsesStaticCast(forceStatic, old(signals[s]).msgType, old(slots[k]).msgType))]
                && signals == old(signals)[s := old(signals[s]).(links := old(signals[s].links)[k := l])]
                && slots == old(slots)[k := old(slots[k]).(links := old(slots[k].links) + {l})]
                && nextId == l + 1
      ensures signalDir == old(signalDir) && slotDir == old(slotDir) && calls == old(calls)
    {
      ok := Connect(GetSignal(signalName), GetSlot(slotName), forceStatic);
    }

    /** Name-based `Link::disconnect`. */
    method DisconnectByName(signalName: string, slotName: string) returns (r: bool)
      requires Valid()
      modifies this
      ensures Valid()
      ensures r <==> old(IsConnected(GetSignal(signalName), GetSlot(slotName)))
      ensures !IsConnected(GetSignal(signalName), GetSlot(slotName))
      ensures r ==> var s, k := old(signalDir[signalName]), old(slotDir[slotName]);
                    signals == old(signals)[s := old(signals[s]).(links := old(signals[s].links) - {k})]
      ensures !r ==> signals == old(signals)
      ensures slots == old(slots) && links == old(links) && nextId == old(nextId)
      ensures signalDir == old(signalDir) && slotDir == old(slotDir) && calls == old(calls)
    {
      r := Disconnect(GetSignal(signalName), GetSlot(slotName));
    }

    /** Name-based `Link::isConnected`: false when either name is unknown. */
    predicate IsConnectedByName(signalName: string, slotName: string)
      reads this
      requires SignalDirSound(signalDir, signals) && SlotDirSound(slotDir, slots)
      ensures IsConnectedByName(signalName, slotName) ==> signalName in signalDir && slotName in slotDir
      ensures signalName in signalDir && slotName in slotDir ==>
                (IsConnectedByName(signalName, slotName) <==> slotDir[slotName] in signals[signalDir[signalName]].links)
    {
      IsConnected(GetSignal(signalName), GetSlot(slotName))
    }

    lemma UnknownNameNotConnected(signalName: string, slotName: string)
      requires Valid()
      requires signalName !in signalDir || slotName !in slotDir
      ensures !IsConnectedByName(signalName, slotName)
    {
    }

    /**
      `AnySignal::emit(msg)`: one queue entry per link of the signal's map, in
      key order, all carrying `msg`.
     */
    method Emit(s: SignalId, msg: MsgPtr)
      requires Valid() && s in signals
      modifies emitted
      ensures Valid()
      ensures emitted.Pending() == old(emitted.Pending()) + FanOut(msg, signals[s].links)
      ensures emitted.hasNotifier == old(emitted.hasNotifier)
      ensures emitted.notifications == old(emitted.notifications) + (if emitted.hasNotifier then |signals[s].links| else 0)
    {
      ghost var q0 := emitted.queue;
      EmitInto(emitted, msg, signals[s].links);
      FanOutLive(signals, links, s, msg);
      AppendKeepsQueueSound(q0, emitted.queue, FanOut(msg, signals[s].links), links);
    }

    /** Perform the emissions of a slot method, one after the other. */
    method React(reaction: seq<Emission>)
      requires Valid()
      requires forall i :: 0 <= i < |reaction| ==> reaction[i].signal in signals
      modifies emitted
      ensures Valid()
      ensures emitted.Pending() == old(emitted.Pending()) + ReactionEntries(signals, reaction)
      ensures emitted.hasNotifier == old(emitted.hasNotifier)
      ensures emitted.notifications == old(emitted.notifications) + (if emitted.hasNotifier then |ReactionEntries(signals, reaction)| else 0)
    {
      ghost var p0, notifier0, count0 := emitted.Pending(), emitted.hasNotifier, emitted.notifications;
      var i := 0;
      while i < |reaction|
        invariant 0 <= i <= |reaction|
        invariant Valid()
        invariant emitted.Pending() == p0 + ReactionEntries(signals, reaction[..i])
        invariant emitted.hasNotifier == notifier0
        invariant emitted.notifications == count0 + (if notifier0 then |ReactionEntries(signals, reaction[..i])| else 0)
      {
        Emit(reaction[i].signal, reaction[i].msg);
        assert reaction[..i + 1][..i] == reaction[..i];
        FanOutShape(reaction[i].msg, signals[reaction[i].signal].links);
        ConcatAssoc(p0, ReactionEntries(signals, reaction[..i]), FanOut(reaction[i].msg, signals[reaction[i].signal].links));
        i := i + 1;
      }
      assert reaction[..i] == reaction;
    }

    /** The call `forward` makes for a queue entry, if any: none for a null link. */
    ghost function Delivery(e: Entry): Option<Call>
      reads this
      requires e.link.Some? ==> e.link.value in links && links[e.link.value].slot in slots
    {
      if e.link.None? then None
      else
        var l := e.link.value;
        Forward(l, links[l], slots[links[l].slot], e.msg)
    }

    /**
      `Link::forward(msg)`: call the bound wrapper once with this link; when the
      slot method runs, it performs `reaction`.
     */
    method ForwardOn(l: LinkId, msg: MsgPtr, reaction: seq<Emission>)
      requires Valid() && l in links
      requires forall i :: 0 <= i < |reaction| ==> reaction[i].signal in signals
      modifies this, emitted
      ensures Valid()
      ensures var call := old(Delivery(Entry(msg, Some(l))));
              && calls == old(calls) + (if call.Some? then [call.value] else [])
              && emitted.Pending() == old(emitted.Pending()) + (if call.Some? then ReactionEntries(old(signals), reaction) else [])
              && emitted.notifications == old(emitted.notifications)
                   + (if call.Some? && emitted.hasNotifier then |ReactionEntries(old(signals), reaction)| else 0)
      ensures signals == old(signals) && slots == old(slots) && links == old(links) && nextId == old(nextId)
      ensures signalDir == old(signalDir) && slotDir == old(slotDir)
      ensures emitted.hasNotifier == old(emitted.hasNotifier)
    {
      var call := Forward(l, links[l], slots[links[l].slot], msg);
      if call.Some? {
        calls := calls + [call.value];
        React(reaction);
      }
    }

    /**
      `Message::processNext()`: on an empty queue return false; otherwise remove
      the oldest entry, forward it on its link when the link is non-null, and
      return whether the queue is non-empty afterwards.
     */
    method ProcessNext(reaction: seq<Emission>) returns (more: bool)
      requires Valid()
      requires forall i :: 0 <= i < |reaction| ==> reaction[i].signal in signals
      modifies this, emitted
      ensures Valid()
      ensures emitted.hasNotifier == old(emitted.hasNotifier)
      ensures old(emitted.queue) == [] ==>
                !more && emitted.queue == old(emitted.queue) && calls == old(calls)
                && emitted.notifications == old(emitted.notifications)
      ensures old(emitted.queue) != [] ==>
                var call := old(Delivery(emitted.Pending()[0]));
                && calls == old(calls) + (if call.Some? then [call.value] else [])
                && emitted.Pending() == old(emitted.Pending())[1..] + (if call.Some? then ReactionEntries(old(signals), reaction) else [])
                && emitted.notifications == old(emitted.notifications)
                     + (if call.Some? && emitted.hasNotifier then |ReactionEntries(old(signals), reaction)| else 0)
      ensures more <==> !emitted.Empty()
      ensures signals == old(signals) && slots == old(slots) && links == old(links) && nextId == old(nextId)
      ensures signalDir == old(signalDir) && slotDir == old(slotDir)
    {
      if emitted.Empty() {
        return false;
      }
      ghost var q0 := emitted.queue;
      ReverseMembers(q0);
      assert emitted.Pending()[0] in q0;
      var got := emitted.Get();
      var entry := got.value;
      assert forall e :: e in emitted.queue ==> e in q0;
      if entry.link.Some? {
        ForwardOn(entry.link.value, entry.msg, reaction);
      }
      more := !emitted.Empty();
    }

    /** `AnySlot::operator()(msg)`: the dynamic-cast wrapper with a null link. */
    method InvokeSlot(k: SlotId, msg: MsgPtr, reaction: seq<Emission>)
      requires Valid() && k in slots
      requires forall i :: 0 <= i < |reaction| ==> reaction[i].signal in signals
      modifies this, emitted
      ensures Valid()
      ensures var call := DynamicCastCall(k, old(slots[k]).msgType, old(slots[k]).hasOwner, msg, None);
              && calls == old(calls) + (if call.Some? then [call.value] else [])
              && emitted.Pending() == old(emitted.Pending()) + (if call.Some? then ReactionEntries(old(signals), reaction) else [])
              && emitted.notifications == old(emitted.notifications)
                   + (if call.Some? && emitted.hasNotifier then |ReactionEntries(old(signals), reaction)| else 0)
      ensures emitted.hasNotifier == old(emitted.hasNotifier)
      ensures signals == old(signals) && slots == old(slots) && links == old(links) && nextId == old(nextId)
      ensures signalDir == old(signalDir) && slotDir == old(slotDir)
    {
      var call := DynamicCastCall(k, slots[k].msgType, slots[k].hasOwner, msg, None);
      if call.Some? {
        calls := calls + [call.value];
        React(reaction);
      }
    }

    /**
      `Link::~Link`: purge the link's queue entries, erase the signal's map
      entry for the slot, erase the link from the slot's set. The call on the
      signal goes through the link's pointer, so the signal must still exist.
     */
    method DestroyLink(l: LinkId)
      requires Valid() && l in links && links[l].signal in signals
      modifies this, emitted
      ensures Valid()
      ensures emitted.queue == Without(old(emitted.queue), l)
      ensures emitted.Pending() == Without(old(emitted.Pending()), l)
      ensures var rec := old(links[l]);
              && signals == old(signals)[rec.signal := old(signals[rec.signal]).(links := old(signals[rec.signal].links) - {rec.slot})]
              && slots == old(slots)[rec.slot := old(slots[rec.slot]).(links := old(slots[rec.slot].links) - {l})]
      ensures links == old(links) - {l}
      ensures nextId == old(nextId) && signalDir == old(signalDir) && slotDir == old(slotDir) && calls == old(calls)
      ensures emitted.hasNotifier == old(emitted.hasNotifier) && emitted.notifications == old(emitted.notifications)
    {
      var rec := links[l];
      UnlinkKeepsWired(signals, slots, links, l);
      emitted.Erase(l);
      WithoutContents(old(emitted.queue), l);
      signals := signals[rec.signal := signals[rec.signal].(links := signals[rec.signal].links - {rec.slot})];
      slots := slots[rec.slot := slots[rec.slot].(links := slots[rec.slot].links - {l})];
      links := links - {l};
    }
  
    /**
      The loop of `AnySignal::~AnySignal`: destroy the link at the first key
      of the map until the map is empty. Exactly the links the map holds are
      destroyed; a severed link of the signal is not reached.
     */
    method DestroyLinksOf(s: SignalId)
      requires Valid() && s in signals
      modifies this, emitted
      ensures Valid()
      ensures var dead := old(signals[s].links.Values);
              && links == old(links) - dead
              && slots == SlotsWithout(old(slots), dead)
              && emitted.queue == WithoutAll(old(emitted.queue), dead)
      ensures signals == old(signals)[s := old(signals[s]).(links := map[])]
      ensures nextId == old(nextId) && signalDir == old(signalDir) && slotDir == old(slotDir) && calls == old(calls)
      ensures emitted.hasNotifier == old(emitted.hasNotifier) && emitted.notifications == old(emitted.notifications)
    {
      ghost var signals0, slots0, links0, q0 := signals, slots, links, emitted.queue;
      ghost var notifier0, notifications0 := emitted.hasNotifier, emitted.notifications;
      ghost var gone: set<LinkId> := {};
      WithoutAllEmpty(q0);
      SlotsWithoutNothing(slots0);
      while signals[s].links != map[]
        invariant Valid() && s in signals
        invariant SignalTeardown(signals0, slots0, links0, q0, s, gone, signals, slots, links, emitted.queue)
        invariant nextId == old(nextId) && signalDir == old(signalDir) && slotDir == old(slotDir) && calls == old(calls)
        invariant emitted.hasNotifier == notifier0 && emitted.notifications == notifications0
        decreases signals[s].links.Keys
      {
        var k := First(signals[s].links.Keys);
        var l := signals[s].links[k];
        SignalTeardownStep(signals0, slots0, links0, q0, s, gone, signals, slots, links, emitted.queue, k);
        DestroyLink(l);
        gone := gone + {l};
      }
      SignalTeardownDone(signals0, slots0, links0, q0, s, gone, signals, slots, links, emitted.queue);
    }

    /**
      `AnySignal::~AnySignal`: destroy the links the map holds, then
      unregister the name. A link severed by the static `Disconnect` survives
      with its record unchanged, naming a signal that no longer exists.
     */
    method DestroySignal(s: SignalId)
      requires Valid() && s in signals
      modifies this, emitted
      ensures Valid()
      ensures var dead := old(signals[s].links.Values);
              && links == old(links) - dead
              && slots == SlotsWithout(old(slots), dead)
              && emitted.queue == WithoutAll(old(emitted.queue), dead)
      ensures forall l :: l in old(links) && l !in old(signals[s].links.Values) ==> l in links && links[l] == old(links[l])
      ensures signals == old(signals) - {s}
      ensures signalDir == Unregistered(old(signalDir), old(signals[s].name))
      ensures nextId == old(nextId) && slotDir == old(slotDir) && calls == old(calls)
      ensures emitted.hasNotifier == old(emitted.hasNotifier) && emitted.notifications == old(emitted.notifications)
    {
      DestroyLinksOf(s);
      RemoveSignalKeepsWired(signals, slots, links, s);
      UnregisterSignalName(s);
      signals := signals - {s};
    }

    /**
      The loop of `AnySlot::~AnySlot`: destroy the first link of the set until
      it is empty. Each `~Link` calls its signal, so every link in the set
      must name a signal that still exists.
     */
    method DestroyLinksTo(k: SlotId)
      requires Valid() && k in slots
      requires SignalsLive(signals, links, slots[k].links)
      modifies this, emitted
      ensures Valid()
      ensures var dead := old(slots[k].links);
              && links == old(links) - dead
              && emitted.queue == WithoutAll(old(emitted.queue), dead)
      ensures signals == SignalsWithoutSlot(old(signals), k)
      ensures slots == old(slots)[k := old(slots[k]).(links := {})]
      ensures nextId == old(nextId) && signalDir == old(signalDir) && slotDir == old(slotDir) && calls == old(calls)
      ensures emitted.hasNotifier == old(emitted.hasNotifier) && emitted.notifications == old(emitted.notifications)
    {
      ghost var signals0, slots0, links0, q0 := signals, slots, links, emitted.queue;
      ghost var notifier0, notifications0 := emitted.hasNotifier, emitted.notifications;
      ghost var gone: set<LinkId> := {};
      WithoutAllEmpty(q0);
      while slots[k].links != {}
        invariant Valid() && k in slots
        invariant SignalsLive(signals0, links0, slots0[k].links)
        invariant SlotTeardown(signals0, slots0, links0, q0, k, gone, signals, slots, links, emitted.queue)
        invariant nextId == old(nextId) && signalDir == old(signalDir) && slotDir == old(slotDir) && calls == old(calls)
        invariant emitted.hasNotifier == notifier0 && emitted.notifications == notifications0
        decreases slots[k].links
      {
        var l := First(slots[k].links);
        SlotTeardownStep(signals0, slots0, links0, q0, k, gone, signals, slots, links, emitted.queue, l);
        DestroyLink(l);
        gone := gone + {l};
      }
      PartlyWithoutSlotDone(signals0, signals, k);
    }

    /**
      `AnySlot::~AnySlot`: destroy every link of the slot's set, then remove
      the slot. The name stays registered: the directory keeps an entry for a
      slot that no longer exists.
     */
    method DestroySlot(k: SlotId)
      requires Valid() && k in slots
      requires SignalsLive(signals, links, slots[k].links)
      modifies this, emitted
      ensures Valid()
      ensures var dead := old(slots[k].links);
              && links == old(links) - dead
              && emitted.queue == WithoutAll(old(emitted.queue), dead)
      ensures signals == SignalsWithoutSlot(old(signals), k)
      ensures slots == old(slots) - {k}
      ensures slotDir == old(slotDir)
      ensures nextId == old(nextId) && signalDir == old(signalDir) && calls == old(calls)
      ensures emitted.hasNotifier == old(emitted.hasNotifier) && emitted.notifications == old(emitted.notifications)
    {
      DestroyLinksTo(k);
      RemoveSlot(k);
      assert old(slots)[k := old(slots[k]).(links := {})] - {k} == old(slots) - {k};
    }

    /** The end of `~AnySlot`: a slot whose set is empty leaves the graph. */
    method RemoveSlot(k: SlotId)
      requires Valid() && k in slots && slots[k].links == {}
      modifies this
      ensures Valid()
      ensures slots == old(slots) - {k}
      ensures signals == old(signals) && links == old(links) && nextId == old(nextId)
      ensures signalDir == old(signalDir) && slotDir == old(slotDir) && calls == old(calls)
    {
      RemoveSlotKeepsWired(signals, slots, links, k);
      slots := slots - {k};
    }
  }

  /**
    The driver's sequence on one action (main.cpp:360-393, then the
    destruction of the action at main.cpp:465, whose signals are declared
    after its slots and so are destroyed first): connect a signal to a slot,
    disconnect them, destroy the signal. The link survives in the slot's set
    naming the destroyed signal, so `~AnySlot` would call `disconnect`
    through a dangling pointer; `DestroySlot`'s precondition fails there.
   */
  method DriverTeardown() returns (w: World, k: SlotId, l: LinkId)
    ensures w.Valid() && k in w.slots && l in w.slots[k].links
    ensures l in w.links && w.links[l].signal !in w.signals
  {
    w := new World();
    var s := w.NewSignal(MessageType());
    k := w.NewSlot(MessageType(), true);
    var connected := w.Connect(Some(s), Some(k), false);
    l := w.signals[s].links[k];
    var disconnected := w.Disconnect(Some(s), Some(k));
    assert w.signals[s].links == map[] && l in w.slots[k].links;
    ghost var slots0 := w.slots;
    SlotsWithoutNothing(slots0);
    w.DestroySignal(s);
  }

  /**
    The same sequence with `DisconnectAndDelete`: the link goes with the
    disconnection, so both destructors run and leave no link behind.
   */
  method DriverTeardownIntended() returns (w: World)
    ensures w.Valid() && w.signals == map[] && w.slots == map[] && w.links == map[]
  {
    w := new World();
    var s := w.NewSignal(MessageType());
    var k := w.NewSlot(MessageType(), true);
    var connected := w.Connect(Some(s), Some(k), false);
    var disconnected := w.DisconnectAndDelete(Some(s), Some(k));
    w.DestroySignal(s);
    w.DestroySlot(k);
  }
}
