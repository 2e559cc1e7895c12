# MPO wiring layer in Dafny

This project models the message-passing core of MPO, a small C++ library. An
action owns signals and slots. A link joins one signal to one slot. Emitting a
message on a signal puts one entry per link into a global deferred queue, and
`Message::processNext` later takes the oldest entry and forwards its message
through the link to the slot's bound method. The model covers:

- the name-based type hierarchy `TypeDef` and its `isSameOrSubtypeOf` walk (`types.dfy`);
- the deferred queue `Message::Emitted` and `processNext` (`messages.dfy`, `wiring.dfy`);
- the two process-wide name directories of signals and slots (`directory.dfy`);
- `emit`, which walks a signal's link map in key order (`signals.dfy`);
- the static-cast and dynamic-cast wrappers of a slot (`slots.dfy`);
- the link's choice between those wrappers, made once when the link is built (`links.dfy`);
- the object graph of signals, slots and links, with its operations (`wiring.dfy`):
  connect, disconnect, forward, renaming, and the destructors of links, signals and slots;
- the registry of actions and the registration of an action's endpoints under
  "<action>::<endpoint>" (`actions.dfy`).

C++ objects are named by ids that are never reused. `World` holds the live
signals, slots and links as maps from id to record, the two directories, the
queue (an `Emitted` object) and a ghost log `calls` of slot-method
invocations. `World.Valid()` is the consistency of that graph:

- every signal's map entry names a live link between that signal and that slot;
- every live link is in its slot's set (its signal may be gone: a link severed
  by `disconnect` outlives its signal, see "## Findings");
- no queued entry names a destroyed link;
- every directory entry for a live endpoint names an endpoint carrying that name.

Every state-changing method keeps `Valid()` and states its whole new state in
terms of the old one. The queue is kept in `std::list` order: `add` pushes at
the front and `get` pops at the back. `Emitted.Pending()` is the reverse of
that list, which is the order of delivery.

`World.Disconnect` models `Link::disconnect` as written. The documented
behaviour, deleting the link, is `World.DisconnectAndDelete`, which keeps the
stronger invariant `AllMapped` (no link severed); under it both destructors
are safe, as `DriverTeardownIntended` shows for the driver's own sequence.

## Model

| member | source | states |
|---|---|---|
| Types.IsSameOrSubtypeOf | Type.hpp:97-105 | holds iff the argument is non-null and the receiver's name is on the argument's name chain; false for a null argument |
| Types.SameOrSubtype | Type.hpp:97-105 | the `while` walk up the argument's parent chain returns exactly `IsSameOrSubtypeOf`, examines at most the chain's length of nodes, and on success stops at the node carrying the receiver's name |
| Types.SameOrSubtypeIsDescendant | Type.hpp:92-105 | when names identify nodes, `a.isSameOrSubtypeOf(&b)` holds iff `b` is `a` or a descendant of `a`, which is the reverse of the doc comment's reading |
| Types.SameOrSubtypeReflexive | Type.hpp:99-101 | every type is the same as or a subtype of itself |
| Types.ComparesNamesOnly | Type.hpp:100 | two pairs of types whose receiver names and argument name chains agree get the same answer |
| Types.NameCollision | Type.hpp:100 | two unrelated hierarchies that reuse a name make the test succeed for a type that is not on the chain |
| Types.NotOnAncestorChain | Type.hpp:99-103 | a type never lies on the chain of one of its strict ancestors, so the walk cannot cycle |
| Types.DocExample | Type.hpp:58-61 | the usage example: `A` is a root, `B`'s parent is named "A", `A` accepts `B` and not the reverse |
| Messages.ReversePushFront | Message.hpp:209-227 | pushing at the front of the list appends at the end of the delivery order, so `get` returns entries first in, first out |
| Messages.MessageType | Message.cpp:7 | the root message type: its name chain is just "Message" |
| Messages.Emitted.Empty | Message.hpp:192 | `empty()` holds iff nothing is pending |
| Messages.Emitted.Size | Message.hpp:199 | `size()` is the number of pending entries |
| Messages.Emitted.Add | Message.hpp:209-214 | the entry is appended to the delivery order, the size grows by one, older entries are unchanged, and the notifier count grows by one iff a notifier is set |
| Messages.Emitted.Get | Message.hpp:222-228 | on an empty queue nothing changes and no entry results (the source throws); otherwise the oldest entry is removed and returned |
| Messages.Emitted.Erase | Message.hpp:238-245 | the iterator loop leaves exactly `Without(queue, link)`, in list order and in delivery order |
| Messages.WithoutContents | Message.hpp:238-245 | after erasing, an entry remains iff it was queued and does not travel on the link |
| Messages.WithoutConcat | Message.hpp:238-245 | erasing distributes over concatenation, so the kept entries keep their relative order |
| Messages.WithoutAbsent | Message.hpp:238-245 | erasing a link that no entry travels on changes nothing |
| Messages.WithoutIdempotent | Message.hpp:238-245 | erasing twice is erasing once |
| Messages.WithoutAllAvoids | Link.hpp:78 | after purging a set of links, no entry names one of them and every entry left was queued before |
| Messages.Emitted.SetMessageNotifier | Message.hpp:265-268 | the notifier is replaced (`false` stands for 0) and the queue is untouched |
| Directory.Lookup | Signal.hpp:84-88 | `get(name)` finds the registered endpoint iff the name is a key, and null otherwise |
| Directory.Unregistered | Signal.hpp:65-69 | `unregisterName` erases exactly the entry keyed by the current name, whoever it maps to, and keeps every other entry |
| Directory.Renamed | Signal.hpp:57-62 | `setName` leaves the old keys minus the current name, plus the new name unless it is ""; the new name maps to the endpoint and every other entry is unchanged |
| Directory.RenamedFinds | Signal.hpp:57-62 | after `setName(n)` with `n` non-empty, `get(n)` returns the endpoint |
| Directory.RenamedEmpty | Signal.hpp:57-69 | `setName("")` only erases the current name's entry and registers nothing |
| Directory.RenamedForgetsOld | Signal.hpp:57-62 | the previous name no longer resolves unless it is the new one |
| Directory.RenamedFrame | Signal.hpp:57-62 | every other name keeps its entry |
| Directory.LastWriterWins | Signal.hpp:57-69 | when `b` takes the name `a` holds, the name resolves to `b`; when `a` is renamed afterwards, its `unregisterName` erases that entry although it now belongs to `b` |
| Signals.SortedKeysSpec | Signal.hpp:18 | the iteration order of the link map is strictly increasing and lists exactly its keys |
| Signals.SortedKeysUnique | Signal.hpp:18 | an increasing listing of exactly the keys is that iteration order |
| Signals.FanOutShape | Signal.cpp:15-24 | `emit` adds one entry per map entry, all carrying the emitted message, in key order, and every link of the map appears |
| Signals.FanOutEmpty | Signal.cpp:18-23 | a signal without links adds nothing |
| Signals.EmitInto | Signal.cpp:15-24 | the loop over the map appends exactly `FanOut(msg, map)` to the delivery order and calls the notifier once per link when one is set |
| Slots.DynamicCastCall | Slot.hpp:246-251 | the bound method is called iff the owner and message are non-null and the slot's type name is on the message's type chain; the call gets exactly the message and link passed |
| Slots.StaticCastCall | Slot.hpp:261-265 | the bound method is called iff the owner and message are non-null, with no type check |
| Slots.DynamicCastAcceptsDescendants | Slot.hpp:246-251 | when names identify nodes, the dynamic wrapper calls the method iff the message's type is the slot's type or a descendant of it |
| Slots.DynamicCallImpliesStatic | Slot.hpp:246-265 | whenever the dynamic wrapper calls the method, the static wrapper makes the same call |
| Slots.SlotCastExamples | main.cpp:240-328 | the driver's slot tests: a MsgA slot drops a plain Message dynamically and accepts MsgA and MsgB; the static call with a plain Message, which the driver leaves out as not a valid static cast (main.cpp:306-307), is still made by the static wrapper (Slot.hpp:261-265) |
| Links.Forward | Link.hpp:179 | forwarding calls the bound wrapper once with this link; a dynamic link makes exactly the dynamic wrapper's call |
| Links.UsesStaticCast | Link.cpp:32-36 | the link binds the static-cast wrapper iff `forceStatic` is set or the signal's type name is on the slot type's name chain |
| Links.SameTypeIsStatic | Link.cpp:32-36 | truth table: equal types select the static cast |
| Links.DescendantSlotIsStatic | Link.cpp:32-36 | truth table: a slot type that descends from the signal type selects the static cast |
| Links.AncestorSlotIsDynamic | Link.cpp:32-36 | truth table: a slot type that is a strict ancestor of the signal type selects the dynamic cast |
| Links.UnrelatedIsDynamic | Link.cpp:32-36 | truth table: unrelated types select the dynamic cast |
| Links.StaticPathSkipsCheck | Link.cpp:32-36 | with the literal rule, a base message reaches a derived slot's method on a static link, where the dynamic wrapper would drop it |
| Links.SafeStaticCastSound | Link.cpp:32-36 | under the opposite rule, every message whose type descends from the signal's type gets the same call from both wrappers |
| Wiring.ConnectKeepsWired | Link.cpp:18-22 | a fresh link entered in the signal's map and the slot's set keeps the graph consistent |
| Wiring.SignalDisconnectKeepsWired | Signal.hpp:124 | erasing a map entry keeps the graph consistent |
| Wiring.UnlinkKeepsWired | Link.hpp:76-81 | removing a link with its map entry and its set entry keeps the graph consistent |
| Wiring.RenameSignalKeepsWired | Signal.hpp:57-62 | renaming a signal does not touch the graph |
| Wiring.RenameSlotKeepsWired | Slot.hpp:83-88 | renaming a slot does not touch the graph |
| Wiring.RenameSignalKeepsDir | Signal.hpp:57-62 | `setName` on a live signal keeps the signal directory consistent |
| Wiring.RenameSlotKeepsDir | Slot.hpp:83-88 | `setName` on a live slot keeps the slot directory consistent |
| Wiring.RegisterSignalKeepsDir | Signal.hpp:60-61 | registering an unnamed signal under a non-empty name keeps the directory consistent |
| Wiring.RegisterSlotKeepsDir | Slot.hpp:86-87 | registering an unnamed slot under a non-empty name keeps the directory consistent |
| Wiring.RemoveSignalKeepsWired | Signal.cpp:7-12 | a signal can be removed whatever links still name it, since only its own map referred to them |
| Wiring.RemoveSlotKeepsWired | Slot.cpp:8-12 | a slot with an empty link set is a key of no signal's map, and removing it keeps the graph consistent |
| Wiring.MappedStep | Link.hpp:79 | a signal's map holds each link under one key, so erasing a key removes exactly that link from the links the map holds |
| Wiring.SignalTeardownStep | Signal.cpp:9-10 | each `delete` in the signal destructor's loop destroys the link at the least key, which joins that signal and slot, and removes it from the links, the slot sets and the queue |
| Wiring.SignalTeardownDone | Signal.cpp:9-10 | when the map is empty, exactly the links it held at the start are gone, and every other link, severed ones included, is alive and unchanged |
| Wiring.SlotTeardownStep | Slot.cpp:10-11 | each `delete` in the slot destructor's loop removes one link of the slot and strips the slot's key from one signal's map; the link names a live signal when every link of the original set did |
| Wiring.SlotsWithoutStep | Link.hpp:80 | erasing one more link from its slot's set is erasing the whole set of destroyed links from every slot |
| Wiring.PartlyWithoutSlotDone | Slot.cpp:10-11 | once no signal's map has an entry for the slot, every map is its original with the slot's key erased |
| Wiring.FanOutLive | Signal.cpp:21 | every entry `emit` adds travels on a live link |
| Wiring.AppendKeepsQueueSound | Message.hpp:209-211 | appending entries on live links keeps every queued link live |
| Wiring.SeveredLinkDangles | Link.hpp:117-118 | after `disconnect`, the signal's destructor does not reach the link: it survives in the slot's set naming the destroyed signal |
| Wiring.AllMappedLinksOf | Signal.cpp:9-10 | when no link is severed, a signal's map holds exactly the live links naming it |
| Wiring.AllMappedSignalTeardown | Signal.cpp:7-12 | when no link is severed, the signal destructor leaves no link naming the signal and none severed |
| Wiring.AllMappedSlotSafe | Slot.cpp:8-12 | when no link is severed, every link in a slot's set names a live signal, so the slot destructor is safe |
| Wiring.UnlinkKeepsAllMapped | Link.hpp:76-81 | deleting a mapped link leaves every other link mapped |
| Wiring.ConnectKeepsAllMapped | Link.cpp:18-22 | entering a new link for an unconnected pair leaves every link mapped |
| Wiring.DriverTeardown | main.cpp:360-393 | the driver's connect, disconnect, then destruction of the signal before the slot leave a live link in the slot's set naming the destroyed signal |
| Wiring.DriverTeardownIntended | main.cpp:360-393 | the same sequence with the documented disconnect leaves no signal, slot or link behind |
| Wiring.First | Signal.cpp:10 | `begin()` of an ordered container is its least key |
| Wiring.World.NewSignal | Signal.hpp:99 | a new unnamed signal without links, with a fresh id and a fixed message type |
| Wiring.World.NewSlot | Slot.hpp:126 | a new unnamed slot without links, with a fresh id and a fixed message type |
| Wiring.World.GetSignal | Signal.hpp:84-88 | the directory's signal for a name is live and carries that name; null iff the name is absent |
| Wiring.World.GetSlot | Slot.hpp:110-114 | the directory's slot for a name carries that name when it is live; null iff the name is absent |
| Wiring.World.UnregisterSignalName | Signal.hpp:65-69 | the entry keyed by the current name is erased and the name becomes "" |
| Wiring.World.SetSignalName | Signal.hpp:57-62 | the directory becomes `Renamed(...)`, the signal carries the new name, and `get(name)` finds it unless the name is "" |
| Wiring.World.UnregisterSlotName | Slot.hpp:91-95 | the entry keyed by the current name is erased and the name becomes "" |
| Wiring.World.SetSlotName | Slot.hpp:83-88 | the slot directory becomes `Renamed(...)`, the slot carries the new name, and `get(name)` finds it unless the name is "" |
| Wiring.World.ConnectedHasLink | Link.cpp:18-22 | a connected pair is joined by a live link between them, held in the slot's set |
| Wiring.World.IsConnected | Link.hpp:142-143 | false for a null endpoint; otherwise whether the signal's map has an entry for the slot, which in a consistent graph is a live link joining the two |
| Wiring.World.IsConnectedByName | Link.hpp:152-157 | false when either name is unknown; otherwise whether the named signal's map has an entry for the named slot |
| Wiring.World.Connect | Link.cpp:11-25 | false iff an endpoint is null, with nothing changed; when already connected nothing changes; otherwise exactly one new link, in the signal's map under the slot and in the slot's set; afterwards the pair is connected |
| Wiring.World.AddLink | Link.cpp:20-22 | the new link joins exactly the given signal and slot, with the cast chosen by the constructor, and is registered at both ends |
| Wiring.World.SignalDisconnect | Signal.hpp:124 | true iff the slot was a key; only that key is erased |
| Wiring.World.Disconnect | Link.hpp:117-118 | true iff both endpoints are non-null and connected; afterwards they are not connected; only the signal's map changes, and the link stays alive |
| Wiring.World.DisconnectAndDelete | Link.hpp:14 | `disconnect` as documented: true iff the pair was connected, and then the link joining them is deleted, from both ends and from the queue; no link is left severed |
| Wiring.World.ConnectByName | Link.hpp:101-108 | `Connect` on the endpoints the names resolve to: succeeds iff both names are registered; when a name is unknown or the pair is already connected nothing changes; otherwise exactly one new link, with its cast flag, is entered at both ends |
| Wiring.World.DisconnectByName | Link.hpp:128-133 | true iff the named pair was connected; then only that signal's entry for the slot is erased, otherwise the signals are unchanged; afterwards the pair is not connected |
| Wiring.World.UnknownNameNotConnected | Link.hpp:152-157 | an unknown name is never connected |
| Wiring.World.Emit | Signal.cpp:15-24 | the delivery order grows by exactly `FanOut(msg, links of s)`; the graph is untouched |
| Wiring.World.React | main.cpp:180-187 | a handler's emissions, performed one after another, append their fan-outs in order, and the notifier is called once per appended entry when one is set |
| Wiring.World.ForwardOn | Link.hpp:179 | the slot method is called at most once, with this link, as the bound wrapper decides; its emissions are queued, and the notifier called for them, only when it runs |
| Wiring.World.ProcessNext | Message.cpp:13-23 | on an empty queue: false and nothing changes; otherwise the oldest entry is removed, delivered once if its link is non-null, the notifier is called once per entry the handler adds, and the result says whether entries remain |
| Wiring.World.InvokeSlot | Slot.hpp:68-69 | `operator()` is the dynamic wrapper with a null link; its emissions and notifier calls happen only when the method runs |
| Wiring.World.DestroyLink | Link.hpp:76-81 | the link's queued entries are purged, its signal's entry for its slot is erased, and the link leaves the slot's set; the signal must still exist |
| Wiring.World.DestroyLinksOf | Signal.cpp:9-10 | the destructor's loop empties the map and destroys exactly the links it held, purging them from the slot sets and the queue |
| Wiring.World.DestroySignal | Signal.cpp:7-12 | the links in the signal's map are destroyed, every other link, severed ones included, survives unchanged, its name is unregistered, and it is gone |
| Wiring.World.DestroyLinksTo | Slot.cpp:10-11 | the slot destructor's loop empties the set, destroying exactly its links and stripping the slot's key from every signal's map |
| Wiring.World.DestroySlot | Slot.cpp:8-12 | all the slot's links are destroyed and purged, its key leaves every signal's map, and its name stays in the directory; every link in its set must name a live signal |
| Actions.QualifiedName | Action.cpp:10-15 | the qualified name "<action>::<endpoint>" is never "", so registering under it never just unregisters |
| Actions.ActionType | Action.cpp:7 | the action type is a root: its name chain is just "Action" |
| Actions.AddActionRefusesDuplicates | Action.hpp:385-390 | `add` refuses a name iff it is already registered |
| Actions.AddActionThenGet | Action.hpp:385-410 | after a successful `add`, `getAction(name)` returns the action and every other name is unchanged |
| Actions.QualifiedNameUnique | Action.cpp:10-15 | for action names without a colon, distinct (action, endpoint) pairs get distinct qualified names |
| Actions.QualifiedNameCollision | Action.cpp:10-15 | with colons in names, two endpoints of different actions can share a qualified name |
| Actions.Registry.Create | Action.hpp:344-347 | a duplicate name refuses construction and leaves the map unchanged; otherwise the new action, with a fresh id, is registered under its name |
| Actions.Registry.GetAction | Action.hpp:406-410 | the action registered under a name, which carries that name; null iff the name is absent |
| Actions.Registry.ClearActions | Action.hpp:419-422 | the map becomes empty |
| Actions.AddSignal | Action.cpp:10-11 | the signal is renamed to the qualified name and `get` finds it there, replacing any earlier signal registered under that name; slots are untouched |
| Actions.AddSlot | Action.cpp:14-15 | the slot is renamed to the qualified name and `get` finds it there; signals are untouched |

## Left out

- `Link::disconnect(signal, slot)` only erases the signal's map entry (Link.hpp:117-118, Signal.hpp:124), although the class documentation says deleting a link is what removes a connection (Link.hpp:14). The model follows the code: the link stays alive, in the slot's set and in the queue. The consequence is under "## Findings".
- Exceptions are outcomes, not control flow. `get` on an empty queue returns no entry and changes nothing. A duplicate action name makes `Registry.Create` return `None`.
- Pointers are ids. A `std::map` or `std::set` keyed by pointers is iterated in ascending id order, which stands for address order.
- Calls through a dangling pointer are undefined behaviour in the source, so the model rules them out with preconditions where the call is made:
  - `Wiring.World.DestroyLink` and `Wiring.World.DestroySlot` require that each link destroyed names a live signal, since `~Link` calls `disconnect` on it (Link.hpp:79). A link severed by `disconnect` outlives its signal, so this can fail (see "## Findings").
  - `Wiring.World.ConnectByName` requires that, when both names are registered, the slot name names a live slot, since `connect` then dereferences it. The slot destructor does not unregister, so the entry can be stale. When the signal name is unknown, `connect` returns false without touching the slot (Link.cpp:14-15), and the model allows a stale slot name there. `Wiring.World.Connect` likewise requires a live slot only when both endpoints are non-null.
- Destroying a severed link still erases its signal's map entry for its slot. If the pair was reconnected in between, that entry is the newer link's. `DestroyLink` states this, but no scenario is spelled out.
- A slot method is not code. Each call is recorded in the ghost log `calls`. Its side effects are limited to emissions, given as the `reaction` parameter. A slot method that calls `processNext` itself is not modelled.
- The notifier is a presence flag plus a call counter. What it does when called is not modelled.
- `dynamic_pointer_cast` is name membership on the message type's chain. This assumes every class overrides `type()` consistently.
- Not modelled:
  - `shared_ptr` ownership (`getPtr`, `enable_shared_from_this`) and when a message or action is freed;
  - the `boost::bind` plumbing;
  - the unused `Action::m_signals` map;
  - the private `Link::disconnect()`, which is declared but never defined;
  - the `nullptr` macro;
  - the application classes of main.cpp.
- `Action::Type()` is the function `Actions.ActionType`. An action's name is an immutable field of its record.

## Findings

| source | as written | input that shows it | evidently intended | confidence | as-written member | corrected member |
|---|---|---|---|---|---|---|
| Link.hpp:117-118 | `disconnect` erases the signal's map entry but keeps the link, still in the slot's set and still pointing at the signal; `~AnySignal` only deletes the links in its map, so the link outlives the signal, and when `~AnySlot` later deletes it, `~Link` calls `disconnect` on the destroyed signal (Link.hpp:79) | `connect` then `disconnect` of `myAction::signalMsgM` and `myAction::slotMsgM` (main.cpp:360-393), then `clearActions` (main.cpp:465), which destroys the action's signals before its slots | `disconnect` deletes the link, as "deleting a Link class instances removes the connection" (Link.hpp:14) says; no link is then left severed and both destructors are safe | high; not executed | Wiring.DriverTeardown | Wiring.World.DisconnectAndDelete |

