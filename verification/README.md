# Bytewire in Dafny

Bytewire keeps a tree of nodes on a server and shows it in a browser. The server
turns every change into binary instructions; the client applies them to the DOM.
This project models both sides and the bytes between them, and proves when and how
far the two agree.

The layers, bottom up:

- **Bytes.** `Wire`, `Buffers`, `Codec`, `Decoder`, `ClientWire`: the instruction
  set, the encoder that patches frame lengths into its buffer, the two decoders, and
  the client's own way of cutting a stream into frames. `Layout` states the format by
  opcode number and byte offset, apart from the code, and that all of them keep to it.
- **Client.** `Dom`, `Client`: the DOM as a heap of nodes with identities, the
  registry from ids to nodes, the batch state, and the effect of each instruction as
  a function; `Effects` says what these come to for child lists, links and ids.
  `Machines` is the same state as an object with the source's loops.
  `Fragments` shows that attaching by fragments equals attaching node by node,
  `Deferral*` that putting attachments off does not show, `Swaps` what a swap does,
  `Cleanup` what a removal forgets, `Seen` that a page shows one tree only. `Orders`
  shows that no stream breaks the page, `Orderliness` that the object's loops may be
  run on everything the server sends, from the bytes on.
- **Whole trees.** `Trees`, `Emission`, `Mount`: what it means for the client to show
  a tree, and that the bytes of a mount build it.
- **Lists.** `Lis`, `MoveScripts`, `ForNode`, `ForContainer`: the keyed list as an
  object. `Reconcile*`, `SwapPath`, `Bulks`: what an update queues and what its replay
  leaves, exactly.
  `ForClient`, `ForSteps`, `ForChanges`, `ForOnPage`, `ForUpdate`, `ForAgreement`: the
  same on the client's page. `ForRegistry`: what it does to the registry, and runs of
  updates. `ForDrain`: the queue as bytes.
- **Conditions and routes.** `Conditional`, `FlipStreams`, `FlipRoots`: the container that
  shows one branch, and what its queue writes. `Solids` to `FlipEnds`: what the client makes of
  branches that leave and come back within a batch (`Links`, `Hanging`: child lists;
  `Scatter`, `Skeleton`, `Returns`: the branch shown before; `Flips`: the whole batch;
  `FlipEnds`: its end). `Branches`, `Rounds`: the resulting page, for one flush and for
  runs. `Reuse`: where it is wrong. `Router`, `RouteQueue`, `Navigations`: the same from
  the path of a navigation on; `RoutePaths`: paths, queries and parameters by their
  characters.
- **Changes of labels.** `Dirty`, `DirtyRuns`, `DirtyNodes`, `DirtyMount`.
- **Comparison.** `Diffs`, `DiffClient`, `DiffTree`, `DiffPage`, `DiffStyles`. `Writings`:
  what a flush and a comparison write, instruction by instruction.
- **On their own.** `Limiters` (token bucket over exact reals), `Signals` (derived
  signals), `Cose` (P-256 key maps).

Methods follow the source's loops and updates; each is proved equal to a function or
to a relation (a Go map may be iterated in any order), and the lemmas are about these.
Strings are byte sequences. Integers on the wire are cut to their width as the encoder
cuts them; `Wire.Fits` says when nothing is cut off.

## What the code does, where one might expect otherwise

- Moves and inserts of a list always append. An update whose kept, moved and new nodes
  come in another order leaves the client in a different order than the server:
  `ReconcileOrder.UpdateOrder` and `ForAgreement.AgreesIffAscending` give the exact
  condition, `ReconcileOrder.LastToFront` a family of updates that miss it. The
  architecture notes (docs/architecture.md:215-225) say that only items outside the
  longest increasing subsequence move, which is so, but not where they move to.
- The swap path is said to detect exact swaps of two items (docs/benchmarks.md:76).
  It tests only that two items are outside the longest increasing subsequence. The
  client gets the new order exactly when two items at least three places apart have
  changed places (`SwapPath.SwapRightIffFar`, on the page `ForAgreement.SwapAgreesIff`);
  two pairs that change places are sent as one swap and come out wrong
  (`SwapPath.PairsMisordered`).
- Subtrees inserted one by one arrive without their styles; mounts and bulk inserts send
  them, apart from empty ones. `ForAgreement.PageAgreesIff`, `ForAgreement.AgreesIff` and
  `Rounds.BranchAgreesIff` say exactly when that makes no difference, and
  `ForAgreement.StyledAppendDiffers` is the smallest case where it does.
- A branch of an If container may be rendered anew each time or kept and shown again. In
  one flush the branch shown before may come back several times. Its nodes are in the
  batch's snapshot, so its elements alternate between being put off and being moved at
  once, while its texts are always put off. Coming back once, three times and so on it is
  right; coming back an even number of times its texts are behind its elements
  (`Branches.FlipsOnPage`, with the exact condition in `Rounds.BranchAgreesIff`, and
  `Reuse.ReusedBranchMisordered`). If it has come and gone an odd number of times and
  another branch is shown in the end, that page is right, but elements of it stay
  registered, and a later flush may repeat its texts (`Reuse.ReusedBranchDuplicated`).
  That is the only way a flush leaves elements behind: `Tidy` in `Branches.FlipsOnPage`.
- Diff leaves styles in place that the next tree no longer has, and inserts subtrees
  without theirs: `DiffStyles.LeftoverDone` says what the client has then, and
  `DiffStyles.DiffHoldsIff` when it is the next tree.
- Clearing a list at once leaves the removed nodes' parent links as they were; removing
  them one by one resets these (`ForContainer.ListContainer.Update`).
- The key parser refuses any map with a text value, although it means to skip it
  (`Cose.TextRefused`, `Cose.MapBack`).

## Model

| member | source | states |
|---|---|---|
| Lis.LisIndices | pkg/dom/reactive.go:292-339 | the marked positions are strictly increasing in value, no strictly increasing subsequence is longer, and of several positions that could take a place between the same neighbours the last one is marked |
| Lis.ChainLatest | pkg/dom/reactive.go:322-338 | following the last card of each pile is what breaks ties towards later positions |
| Lis.FindPile | pkg/dom/reactive.go:312-320 | the binary search finds the leftmost pile whose top is not smaller |
| Lis.BuildPiles | pkg/dom/reactive.go:298-330 | after all cards every pile top ends an increasing chain of the pile's height, and every input card lies on some pile |
| Lis.WalkBack | pkg/dom/reactive.go:332-338 | the walk ends and marks exactly one card of every pile, increasing |
| Lis.NoneLonger | pkg/dom/reactive.go:292-339 | an increasing subsequence takes at most one card from each pile |
| MoveScripts.MovesAreMinimal | pkg/dom/reactive.go:136-138 | no script of single moves between the two orders moves fewer distinct nodes than lie outside a longest increasing subsequence |
| ForContainer.ListContainer.constructor | pkg/dom/reactive.go:71-82 | the first render, repeated keys included: a child per item with its parent set, the index holding each key's last node; the list can be updated when keys and node ids are distinct |
| ForContainer.ListContainer.Update | pkg/dom/reactive.go:84-218 | children become the nodes of the items in order, surviving keys keep their node, the index stays a bijection, every mark access is in range, parents are set for all children and reset for those removed one by one (not for those cleared at once), and what is queued is an update from the old children to the new, ties broken as in lisIndices |
| ForContainer.NodesKept | pkg/dom/reactive.go:84-218 | a listed key keeps its node and any other item brings its own; a node that is not listed any more has lost its parent, unless the list is empty |
| ForContainer.LastIndexOf | pkg/dom/reactive.go:71-82 | after the first render the index has, for every key, the node of the last item with that key |
| ForContainer.RemovePhase | pkg/dom/reactive.go:91-112 | removals: one clear for an empty list, otherwise each disappeared key once, in any order; the index keeps the listed keys |
| ForContainer.ReorderPhase | pkg/dom/reactive.go:114-217 | what is queued behind the removals is the swap or the rebuild loop's moves and insertions |
| ForNode.OldPositions | pkg/dom/reactive.go:114-134 | old positions of the surviving items, in the new order |
| ForNode.PositionsByKey | pkg/dom/reactive.go:119-125 | each listed child is found at its position |
| ForNode.FindSwap | pkg/dom/reactive.go:142-155 | two is counted exactly when two positions carry no mark, and then these are returned |
| ForNode.RemoveMissing | pkg/dom/reactive.go:102-111 | whatever the order of the map, the nodes of the unlisted keys leave the children and the index, one removal each |
| ForNode.RebuildLoop | pkg/dom/reactive.go:181-217 | children in the new order, new nodes indexed, and the queue of the rebuild |
| ForNode.RemoveChild | pkg/dom/node.go:81-90 | the children without the given node |
| ReconcileReplay.UpdateReplay | pkg/dom/reactive.go:84-218 | replaying any update leaves exactly kept nodes, then moved nodes and runs of 20 or more new ones, then the other new ones; on the swap path the surviving children with the two unmarked ones exchanged |
| ReconcileReplay.RemovalReplay | pkg/dom/reactive.go:91-112 | whatever their order, the removals leave the surviving children in theirs |
| ReconcileOrder.UpdateOrder | pkg/dom/reactive.go:84-218 | off the swap path the replay is a permutation of the new children, and equal to them if and only if their ranks ascend |
| ReconcileOrder.UpdatePermutes | pkg/dom/reactive.go:84-218 | on either path the replay is a permutation of the new children |
| ReconcileOrder.KeepsThenAddsInOrder | pkg/dom/reactive.go:84-218 | removals, clears, appends and removals followed by appends are replayed in the right order |
| ReconcileOrder.LastToFront | pkg/dom/reactive.go:186-199 | taking the last of three or more to the front leaves the replay in the old order |
| ReconcileOrder.DistantSwap | pkg/dom/reactive.go:141-179 | two items at least three apart exchanged: exactly one swap is queued, and its replay is the new order |
| SwapPath.SwapRightIff | pkg/dom/reactive.go:141-179 | on the swap path the replay is the new order if and only if the surviving items are the old ones with two exchanged, and these two are the ones outside the marks |
| SwapPath.SwapRightIffFar | pkg/dom/reactive.go:141-179 | with the marks of lisIndices: if and only if two items at least three places apart have changed places |
| SwapPath.PairsMisordered | pkg/dom/reactive.go:141-179 | two pairs that change places are sent as one swap and come out wrong, whichever longest subsequence is marked |
| ReconcileOrder.MovesOptimal | pkg/dom/reactive.go:127-138 | off the swap path as many moves are queued as surviving items lie outside the marks, and no script of moves moves fewer nodes |
| Bulks.AppendsQueued | pkg/dom/reactive.go:223-273 | n new items behind the old ones are queued as one bulk insert when n is 20 or more, and as n single inserts when n is 19 or less |
| Bulks.NewAmongKept | pkg/dom/reactive.go:181-217 | new items anywhere among surviving ones that keep their order are queued together, by the same limit, and end up behind all of them |
| Bulks.NewBeforeMoved | pkg/dom/reactive.go:181-217 | the last item brought to the front behind new ones: up to 19 of these end up behind it on the client, 20 and more before it |
| ForDrain.Drain | pkg/engine/session.go:458-461 | the queue is written front to back, each operation as the instructions it stands for |
| ForDrain.DrainOne | pkg/dom/reactive.go:95-97 | one queued operation: removal, clear, swap, move or the whole inserted subtree |
| Swaps.SwapExchanges | pkg/wasm/patch.go:432-462 | the three cases together exchange two distinct siblings in their parent's child list and change nothing else |
| ForOnPage.OneOperation | pkg/wasm/patch.go:180-309 | one queued operation does to the container on the page what the abstract line says, and leaves everything else alone |
| ForUpdate.UpdateOnPage | pkg/dom/reactive.go:84-218 | on an in-sync client, whatever may be queued for an update, the container's children end as the replay, each shown whole, and the rest of page and registry is untouched |
| ForUpdate.UpdateStream | pkg/dom/reactive.go:84-218 | the same for the stream of an update without bulk inserts, processed as one message |
| ForRegistry.UpdateRegistry | pkg/wasm/patch.go:295-309 | after any list update the registry has exactly the ids it had, without those that removed items give up (their own and their elements', or their elements' alone when the list is cleared), and with all those of new items |
| ForRegistry.RemovedForgotten | pkg/wasm/patch.go:488-512 | no element of an item that is gone stays registered, whether it was removed or cleared |
| ForRegistry.BelowForest | pkg/wasm/patch.go:651-666 | below a node whose children are shown trees, the ids that are forgotten are those of their elements, no more and no less |
| ForAgreement.PageAgreesIff | pkg/dom/reactive.go:84-218 | on the page, bulk inserts included: in sync with the new children if and only if the replay has their order and every new node is conveyed whole (alone: it has no styles; in bulk: none that are empty) |
| ForAgreement.AgreesIff | pkg/dom/reactive.go:84-218 | for a stream: in sync if and only if the replay has the new order and the new nodes have no styles |
| ForAgreement.AgreesIffAscending | pkg/dom/reactive.go:84-218 | off the swap path: in sync if and only if kept nodes come first, then moved ones, then the remaining new ones, and the new ones have no styles |
| ForAgreement.SwapAgrees | pkg/dom/reactive.go:141-179 | a distant swap is one instruction and leaves the client in sync |
| ForAgreement.SwapAgreesIff | pkg/dom/reactive.go:141-179 | on the swap path the client is in sync if and only if two items at least three places apart have changed places |
| ForRegistry.RunInSync | pkg/dom/reactive.go:84-218 | over every run of updates of style-free items with ids of their own, as long as each replays in the right order the client is in sync with the list |
| ForRegistry.RunThenIff | pkg/dom/reactive.go:84-218 | after such a run one more update leaves the client in sync if and only if it replays in the right order |
| ForAgreement.StyledAppendDiffers | pkg/dom/reactive.go:246-268 | one new node appended: the order is right, and the client is in sync if and only if the node has no styles |
| Buffers.Buffer.BeginFrame | pkg/protocol/buffer.go:68-72 | four placeholder bytes are appended |
| Buffers.Buffer.EndFrame | pkg/protocol/buffer.go:76-79 | the four placeholder bytes become the length of what follows them, as a number, most significant byte first; all other bytes are unchanged |
| Buffers.Buffer.EncodeUpdateText | pkg/protocol/buffer.go:82-88 | exactly one whole UpdateText frame is appended, nothing before it changes |
| Buffers.Buffer.EncodeSetAttr | pkg/protocol/buffer.go:91-99 | exactly one whole SetAttr frame is appended, nothing before it changes |
| Buffers.Buffer.EncodeRemoveAttr | pkg/protocol/buffer.go:102-108 | exactly one whole RemoveAttr frame is appended, nothing before it changes |
| Buffers.Buffer.EncodeInsertText | pkg/protocol/buffer.go:138-145 | exactly one whole InsertText frame is appended, nothing before it changes |
| Buffers.Buffer.EncodeRemoveNode | pkg/protocol/buffer.go:148-153 | exactly one whole RemoveNode frame is appended, nothing before it changes |
| Buffers.Buffer.EncodeSetStyle | pkg/protocol/buffer.go:156-164 | exactly one whole SetStyle frame is appended, nothing before it changes |
| Buffers.Buffer.EncodePushHistory | pkg/protocol/buffer.go:167-172 | exactly one whole PushHistory frame is appended, nothing before it changes |
| Buffers.Buffer.EncodeClientIntent | pkg/protocol/buffer.go:175-182 | exactly one whole ClientIntent frame is appended, nothing before it changes |
| Buffers.Buffer.EncodeClientNav | pkg/protocol/buffer.go:185-190 | exactly one whole ClientNav frame is appended, nothing before it changes |
| Buffers.Buffer.EncodeReplaceText | pkg/protocol/buffer.go:194-202 | exactly one whole ReplaceText frame is appended, nothing before it changes |
| Buffers.Buffer.EncodeError | pkg/protocol/buffer.go:223-231 | exactly one whole Error frame is appended, nothing before it changes |
| Buffers.Buffer.EncodeDevToolsState | pkg/protocol/buffer.go:234-241 | exactly one whole DevToolsState frame is appended, nothing before it changes |
| Buffers.Buffer.EncodeHello | pkg/protocol/buffer.go:244-250 | exactly one whole Hello frame is appended, nothing before it changes |
| Buffers.Buffer.EncodeClientHello | pkg/protocol/buffer.go:254-260 | exactly one whole ClientHello frame is appended, nothing before it changes |
| Buffers.Buffer.EncodeAuthChallenge | pkg/protocol/buffer.go:263-271 | exactly one whole AuthChallenge frame is appended, nothing before it changes |
| Buffers.Buffer.EncodeAuthResult | pkg/protocol/buffer.go:274-285 | exactly one whole AuthResult frame is appended, nothing before it changes |
| Buffers.Buffer.EncodeInsertHTML | pkg/protocol/buffer.go:288-294 | exactly one whole InsertHTML frame is appended, nothing before it changes |
| Buffers.Buffer.EncodeClearChildren | pkg/protocol/buffer.go:297-302 | exactly one whole ClearChildren frame is appended, nothing before it changes |
| Buffers.Buffer.EncodeSwapNodes | pkg/protocol/buffer.go:306-312 | exactly one whole SwapNodes frame is appended, nothing before it changes |
| Buffers.Buffer.EncodeBatchText | pkg/protocol/buffer.go:322-333 | exactly one whole BatchText frame is appended, nothing before it changes |
| Buffers.Buffer.EncodeInsertNode | pkg/protocol/buffer.go:111-135 | exactly one frame is appended, with every attribute once in some order |
| Buffers.Buffer.EncodeBatch | pkg/protocol/buffer.go:207-219 | exactly one Batch frame holding the inner frames and their number |
| Buffers.CountFramesLoop | pkg/protocol/buffer.go:336-348 | the number of whole frames |
| Wire.NumberWritten | pkg/protocol/buffer.go:60-79 | two and four bytes hold the low part of the number, most significant byte first |
| Layout.LengthsWritten | pkg/protocol/buffer.go:67-80 | the first four bytes of a frame are the length of its body, the first two of a field the length of its text |
| Layout.BodyHolds | pkg/protocol/opcodes.go:9-115 | what is written for any message within the field widths lies where the format says, by opcode number and byte offset |
| Layout.FramesLaid | pkg/protocol/opcodes.go:9-115 | the bytes of a stream are filled with the frames of its messages, each behind its length |
| Layout.LongTag | pkg/protocol/buffer.go:109-125 | a tag of 256 bytes or more is written whole behind the low byte of its length, so that the message does not decode to itself |
| Codec.RoundTrip | pkg/protocol/decoder.go:331-343 | decoding the bytes of any messages within the field widths, batches nested at will, gives them back and consumes every byte |
| Codec.DecodeNBack | pkg/protocol/decoder.go:346-358 | the count-driven decoder gives the messages back too |
| Codec.CountFramesOf | pkg/protocol/buffer.go:336-348 | written messages are counted exactly |
| Codec.DecodeBack | pkg/protocol/decoder.go:46-312 | decoding one written body gives the message and its whole length |
| Layout.DecodeIff | pkg/protocol/decoder.go:46-310 | a body decodes to a message if and only if it holds that message by opcode number and byte offset, and its opcode is one the decoder knows |
| Layout.DecodeAllIff | pkg/protocol/decoder.go:331-343 | data decodes to messages without an error if and only if frames that hold them fill it |
| Layout.WhichError | pkg/protocol/decoder.go:9-13 | which error a single instruction gives: an unknown opcode, a missing separator, or too few bytes |
| ClientWire.TruncatedDecoded | pkg/protocol/decoder.go:315-343 | cut off anywhere, a stream decodes to the messages that fit whole, with an error unless the cut is at a frame's end |
| ClientWire.TruncatedCount | pkg/protocol/buffer.go:336-348 | cut off anywhere, a frame is counted as soon as its length is there |
| Decoder.DecodeMsg | pkg/protocol/decoder.go:46-312 | every byte string is decoded, or refused with the stated error, within bounds |
| Decoder.DecodeFrameMsg | pkg/protocol/decoder.go:315-328 | one length-prefixed frame |
| Decoder.DecodeAllLoop | pkg/protocol/decoder.go:331-343 | frames up to the first error or the end |
| Decoder.DecodeNLoop | pkg/protocol/decoder.go:346-358 | as many frames as announced |
| Decoder.FindNullLoop | pkg/protocol/decoder.go:360-367 | the first zero byte |
| ClientWire.WholeStream | pkg/wasm/patch.go:38-53 | on a written stream the client sees the frames that were written |
| ClientWire.TruncatedStream | pkg/wasm/patch.go:38-53 | cut off anywhere, exactly the whole frames that fit are seen |
| ClientWire.FittingIsLargest | pkg/wasm/patch.go:38-53 | those are as many leading frames as have all their bytes |
| ClientWire.WalkersAgree | pkg/wasm/patch.go:371-378 | the encoder's count, the count-driven, the length-driven decoder and the client find the same frames |
| ClientWire.ParseStreamBack | pkg/wasm/patch.go:101-378 | the client carries out exactly the instructions that were written, nested batches included |
| ClientWire.TruncatedParsed | pkg/wasm/patch.go:27-53 | of any written stream, cut off anywhere, the client carries out exactly those of its instructions that are there whole, in order, and skips the kinds it does not act on |
| ClientWire.CountIgnored | pkg/wasm/patch.go:371-378 | a batch is read by the lengths of its frames, whatever number it announces |
| Layout.ClientIff | pkg/wasm/patch.go:101-512 | the client takes a single instruction exactly where the bytes hold it, by opcode number and byte offset |
| Layout.ClientFrames | pkg/wasm/patch.go:27-62 | it carries out, in order, the instructions of frames that fill the data |
| ClientWire.TruncatedTexts | pkg/wasm/patch.go:464-486 | of text updates cut off anywhere the whole ones are carried out, but no more than announced |
| Machines.Machine.constructor | pkg/wasm/patch.go:15-19 | an empty page, an empty registry and no batch |
| Machines.Machine.ApplyOpcodes | pkg/wasm/patch.go:27-60 | the cursor loop, the snapshot and the flush of the outermost call: the state becomes that of processing the whole frames in the data |
| Machines.Machine.FlushDeferredInserts | pkg/wasm/patch.go:64-98 | one fragment per parent in order of first use, each appended: the state is that of appending the nodes one after the other |
| Orders.ApplyValid | pkg/wasm/patch.go:101-378 | no instruction, whatever ids it names, breaks the page's parent and child links or the registry |
| Orders.ProcessValid | pkg/wasm/patch.go:27-98 | no stream does |
| Orderliness.StreamOrderly | pkg/wasm/patch.go:27-98 | the batch loop may be run on all bytes in whose instructions no insertion names the node itself as parent |
| Orderliness.BytesCarriedOut | pkg/wasm/patch.go:27-62 | the bytes of any stream, history entries and other kinds included, do to the client what its instructions do |
| Orderliness.MountBytes | pkg/engine/session.go:104-115 | the bytes of a mount: the batch loop may be run on them and shows the tree |
| Orderliness.FlipBytes | pkg/dom/reactive.go:28-63 | the bytes of a container's flips: likewise, and the page is the one stated for the flips |
| Orderliness.UpdateBytes | pkg/dom/reactive.go:84-218 | the bytes of a list update: likewise, with the exact condition for agreement |
| Orderliness.FlushBytes | pkg/engine/session.go:452-505 | the bytes of a flush of marked nodes are read back, and the loop may be run on them |
| Orderliness.FreshBytes | pkg/wasm/patch.go:27-98 | so it may on every stream of fresh nodes |
| Orderliness.DiffBytes | pkg/dom/diff.go:7-88 | and on what Diff writes |
| Fragments.FragmentsSettle | pkg/wasm/patch.go:64-98 | gathering into fragments and attaching them equals attaching node after node |
| Machines.Machine.ApplyFrame | pkg/wasm/patch.go:101-378 | one bounded frame does what its instruction says; short frames do nothing |
| Machines.Machine.BatchText | pkg/wasm/patch.go:464-486 | as many text updates as are announced and lie within the frame |
| Machines.Machine.SetTextOf | pkg/wasm/patch.go:117-119 | character data of a text node; an element's children are replaced |
| Machines.Machine.Relabel | pkg/wasm/patch.go:121-149 | attributes and styles of the registered node, if there is one |
| Machines.Machine.OnInsertNode | pkg/wasm/patch.go:180-272 | a registered node moves at once; a new one is created and attached or put off |
| Machines.Machine.Move | pkg/wasm/patch.go:181-219 | detached, then put before its sibling or appended below the parent or the root |
| Machines.Machine.Attach | pkg/wasm/patch.go:255-272 | put off below a parent of the snapshot, otherwise attached at once, or left loose |
| Machines.Machine.OnInsertText | pkg/wasm/patch.go:274-293 | always a new text node |
| Machines.Machine.OnRemoveNode | pkg/wasm/patch.go:295-309 | detached, its id and the ids of elements below it forgotten |
| Machines.Machine.OnClearChildren | pkg/wasm/patch.go:488-505 | all children detached and the ids of the elements below forgotten |
| Machines.Machine.OnSwapNodes | pkg/wasm/patch.go:432-462 | the three cases, in place |
| Cleanup.CleanupDescendants | pkg/wasm/patch.go:652-666 | the recursive walk over element children forgets exactly the ids below the node |
| Effects.BelowIff | pkg/wasm/patch.go:651-666 | a cleanup below a node forgets exactly the ids carried by nodes some way down child lists |
| Effects.Removal | pkg/wasm/patch.go:295-309 | a removal detaches the node and forgets its id and those carried further down; an unknown id changes nothing |
| Effects.Clearing | pkg/wasm/patch.go:488-512 | clearing empties the child list of the registered parent, otherwise of the root, and forgets exactly the ids carried further down |
| Effects.ElementText | pkg/wasm/patch.go:109-119 | text sent to an element leaves it one child, a new text node, or none when the text is empty |
| Effects.InsertedBefore | pkg/wasm/patch.go:258-272 | a new node with a sibling stands right before it at once, even in a batch |
| Effects.InsertedLast | pkg/wasm/patch.go:258-272 | without a known sibling, or below 0, it stands at the end of its parent's children |
| Effects.InsertedNowhere | pkg/wasm/patch.go:258-272 | below an unknown id it is registered, but hangs nowhere |
| Effects.MovedLast | pkg/wasm/patch.go:183-221 | a registered node leaves its child list and goes to the end of its new parent's |
| Effects.ParentForgotten | pkg/wasm/patch.go:64-98 | a waiting node whose parent has been forgotten hangs nowhere when the batch ends |
| Effects.Labelling | pkg/wasm/patch.go:121-149 | one attribute or style of one node is set or taken away; an empty style is taken away |
| Client.BatchesInlined | pkg/wasm/patch.go:371-378 | a stream acts like the same stream with every batch frame replaced by its contents |
| Client.NestedInlined | pkg/wasm/patch.go:371-378 | inside a batch, a batch frame acts exactly like its frames |
| DeferralTheorem.DeferralDoesNotShow | pkg/wasm/patch.go:27-98 | for every stream of fresh appending inserts, text, attribute, style updates and removals, in any nesting of batches, the page looks like one where each node was attached at once |
| DeferralTheorem.SettleAllRelated | pkg/wasm/patch.go:64-98 | the flush brings the deferring client to the state of the one that attaches at once |
| Mount.EmitFullTree | pkg/engine/session.go:400-427 | the bytes of every node, its styles in any order, its children |
| Mount.EmitStyles | pkg/engine/session.go:420-422 | one instruction per property, in any order |
| Emission.FullTreeBuilds | pkg/engine/session.go:400-427 | these instructions build the whole tree where its parent id says and disturb nothing else |
| Mount.MountEndToEnd | pkg/engine/session.go:104-115 | the bytes of the first mount turn an empty page into the tree: ids, tags, attributes, styles, text and order, with a registry of exactly its ids |
| Conditional.EmitInsertTree | pkg/dom/reactive.go:250-269 | the bytes of every node of a subtree and its children |
| Emission.InsertTreeBuilds | pkg/dom/reactive.go:250-269 | these instructions build the subtree without its styles and disturb nothing else |
| DirtyNodes.Node.OnText | pkg/dom/elements.go:124-128 | text set and noted |
| DirtyNodes.Node.OnAttr | pkg/dom/elements.go:137-148 | attribute set and noted unless it is unchanged |
| DirtyNodes.Node.OnStyle | pkg/dom/elements.go:161-172 | style set and noted unless it is unchanged |
| DirtyNodes.Node.Drain | pkg/engine/session.go:456-492 | one round of the flush loop writes what the node has noted and clears it |
| DirtyNodes.DrainAttrs | pkg/engine/session.go:473-479 | one instruction per noted attribute in any order, an empty value as a removal |
| DirtyNodes.DrainStyles | pkg/engine/session.go:483-486 | one instruction per noted style in any order |
| DirtyNodes.CollectDirty | pkg/engine/session.go:507-517 | the marked nodes of the tree, parents first |
| DirtyNodes.Flush | pkg/engine/session.go:432-505 | what is sent is a flush of exactly the marked nodes, and no mark is left |
| Writings.DrainWrites | pkg/engine/session.go:446-470 | for one node exactly what is noted on it is sent, each entry by one instruction, an empty attribute as a removal |
| Writings.FlushWrites | pkg/engine/session.go:432-500 | a flush sends what is noted on marked nodes and nothing else, and last the texts: none, one alone, or all in one instruction |
| Writings.FlushedOnce | pkg/engine/session.go:432-500 | a second flush writes nothing |
| Dirty.UnmarkedAgrees | pkg/engine/session.go:432-505 | a node that is not marked agrees with the client |
| Dirty.ObserversKeep | pkg/dom/elements.go:121-174 | every change keeps what is noted current and the rest in agreement |
| Dirty.ObserversNote | pkg/dom/elements.go:137-174 | a value that is there already is not noted; any other one is, and nothing else |
| DirtyRuns.FlushAgrees | pkg/engine/session.go:432-505 | a flush brings every node into agreement (empty attributes count as absent), whatever the map order and however the texts are sent, and changes labels only |
| DirtyRuns.RunTracks | pkg/engine/session.go:432-505 | after any run of changes and flushes every unmarked node agrees with the client |
| DirtyRuns.RunThenFlush | pkg/engine/session.go:432-505 | and after a final flush the whole page does |
| DirtyMount.Find | pkg/engine/session.go:520-533 | an id is found exactly when the tree has it |
| DirtyMount.MountTracks | pkg/engine/session.go:104-115 | a freshly mounted page is tracked, so every run may start from it |
| Conditional.Container.constructor | pkg/dom/reactive.go:15-26 | the first branch is the only child and nothing is queued |
| Conditional.Container.Observe | pkg/dom/reactive.go:28-63 | nothing for an unchanged condition; otherwise the branch replaces the child and the queue grows by its removal and insertion |
| Conditional.Container.Drain | pkg/engine/session.go:458-461 | the queue writes the stream of all flips since the last flush, only the current child naming the container as parent |
| FlipRoots.FlipRootsAre | pkg/dom/reactive.go:28-63 | a flush inserts the branch shown last below the container, as often as it was shown, every other one below 0, and removes the first branch and each one that another followed, in order |
| Solids.ShowBuilds | pkg/wasm/patch.go:180-309 | a tree of which the client remembers texts only is built by its insertion like a new one |
| Links.AllHung | pkg/wasm/patch.go:64-98 | attaching all nodes of a tree in preorder puts every child list in order, whatever it was |
| Links.TextsHung | pkg/wasm/patch.go:64-98 | attaching only the texts again puts them behind the elements |
| Scatter.TreeScatters | pkg/wasm/patch.go:180-293 | a forgotten tree of the snapshot comes back: every node is created, hangs nowhere and is put off in preorder |
| Skeleton.TreeGrows | pkg/wasm/patch.go:180-293 | the same with its elements still registered: they move at once below their parents, only texts are created and put off |
| Returns.Visit | pkg/wasm/patch.go:180-309 | insertion and removal within one batch change the elements below the root from forgotten to registered or back, and nothing else |
| Flips.Discarded | pkg/wasm/patch.go:258-309 | another branch comes and goes and leaves the page as it was |
| Branches.FlipsOnPage | pkg/dom/reactive.go:28-63 | for all flips between two flushes, with branches that come back any number of times: the container ends with exactly the last branch without styles, its texts behind its elements if it was shown before and returned an even number of times; the rest of the page is unchanged; and the next flush can start from there if and only if the flips were tidy |
| Rounds.BranchAgreesIff | pkg/dom/reactive.go:28-63 | after one flush the client agrees with the current branch if and only if it has no styles and, when it was shown before and returned an even number of times, no text before an element |
| Rounds.RoundsShown | pkg/dom/reactive.go:28-63 | over every run of tidy flushes the container holds exactly what the last one makes of it |
| Rounds.RunAgreesIff | pkg/dom/reactive.go:28-63 | after any run of tidy flushes and one more, agreement depends on the last flush alone, by the same condition |
| Rounds.RoundsInSync | pkg/dom/reactive.go:28-63 | over every run in which the shown branch is never shown and hidden again before a flush, or has no elements below its root, style-free branches stay in agreement |
| Rounds.MountedReady | pkg/engine/session.go:104-115 | a page just mounted is one such a run may start from, wherever the container stands in it |
| Reuse.ReusedBranchMisordered | pkg/dom/reactive.go:28-63 | hidden and shown twice before one flush, every branch with a text before an element comes out in the wrong order |
| Reuse.ReusedBranchDuplicated | pkg/dom/reactive.go:28-63 | shown once between two showings of another branch, a branch with a nested text leaves the page right, but the next flush that shows it repeats the text |
| Diffs.Diff | pkg/dom/diff.go:7-66 | two matched nodes: text, changed and dropped attributes, changed styles, children |
| Diffs.DiffOwn | pkg/dom/diff.go:35-50 | the node's own part, each map in any order |
| Diffs.DiffChildren | pkg/dom/diff.go:52-65 | children by position: compared, inserted or removed |
| Diffs.SameNothing | pkg/dom/diff.go:7-66 | a tree differs from itself by no instruction |
| Writings.OwnDiffWrites | pkg/dom/diff.go:35-50 | for a matched element exactly the attributes and styles with another value are set, a missing one reading as empty, and exactly the attributes that are gone removed, each by one instruction |
| DiffTree.TreeDone | pkg/dom/diff.go:7-66 | on a client that attaches at once, the Diff of compatible trees leaves the next tree shown (empty attributes as absent) and nothing else changed |
| DiffPage.DiffOnPage | pkg/dom/diff.go:7-88 | the client with its deferred attachments looks, at every depth, like a page that holds the next tree |
| DiffClient.DroppedStyleStays | pkg/dom/diff.go:45-50 | the styles agree afterwards if and only if no non-empty style was dropped |
| DiffClient.OwnDone | pkg/dom/diff.go:35-50 | on the client, the node's own part gives it the next attributes, and the next styles if and only if no non-empty style was dropped |
| DiffStyles.LeftoverDone | pkg/dom/diff.go:7-66 | the Diff of any matched trees leaves the next tree with the dropped styles still in place and inserted subtrees without styles |
| DiffStyles.DiffHoldsIff | pkg/dom/diff.go:7-66 | which is the next tree if and only if no matched element drops a style and no inserted subtree has one, empty values apart |
| DiffStyles.LeftoverOnPage | pkg/dom/diff.go:7-66 | the same for the client with its deferred attachments |
| DiffStyles.OneStyleDropped | pkg/dom/diff.go:45-50 | an element that loses its one style keeps it on the client |
| Router.Router.constructor | pkg/router/router.go:30-93 | Handle for every pattern and Mount: the page of the initial path is the only child and nothing is queued |
| Router.Router.Match | pkg/router/router.go:131-142 | the first route that matches, with its parameters; otherwise the not-found page |
| Router.Router.Navigate | pkg/router/router.go:71-77 | nothing for the current path; otherwise the chosen page is the container's only child |
| Router.Router.SwapRoute | pkg/router/router.go:96-128 | path, parameters, query and page are those of the new path, and removal, insertion and history entry are queued |
| Router.Router.Drain | pkg/engine/session.go:458-461 | the queue writes, for all navigations since the last flush, the page swaps with a history entry after each: without the entries the stream of the flips, and the entries are the paths in order |
| Router.Router.NavigateAndFlush | pkg/router/router.go:71-128 | one navigation and its flush, from the path to the bytes |
| RouteQueue.HistoryIgnored | pkg/wasm/patch.go:101-378 | history entries do not touch the tree |
| RouteQueue.EntryLast | pkg/router/router.go:122-125 | the history entry of the last navigation ends the stream, behind its page |
| Router.SplitPath | pkg/router/router.go:170-179 | the non-empty segments in order |
| Router.JoinSplit | pkg/router/router.go:170-179 | joining the parts a string was split into gives it back, and no part holds the separator |
| Router.SegmentsBack | pkg/router/router.go:170-179 | a path written from segments splits into them |
| RoutePaths.SpreadBack | pkg/router/router.go:170-179 | the segments of a path are found whatever slashes stand before, between and behind them |
| RoutePaths.EveryPath | pkg/router/router.go:170-179 | and every path is one of these |
| Router.SplitQuery | pkg/router/router.go:146-167 | the path is what stands before the first question mark, all of it where there is none, with the parameters behind it |
| Router.QueryBack | pkg/router/router.go:146-167 | a written query is read back |
| RoutePaths.PlainUrl | pkg/router/router.go:146-151 | a URL without a question mark is its own path, with no query |
| RoutePaths.UrlBack | pkg/router/router.go:146-167 | names and values, in any mixture of whole and degenerate pieces, are read back: empty names are dropped, and the last value of a name wins |
| Router.MatchSegments | pkg/router/router.go:183-198 | equal length and equal fixed segments, with the values of the named ones |
| Router.FillRebuilds | pkg/router/router.go:183-198 | putting the parameters into the pattern rebuilds the path if and only if segments of one name have one value |
| Router.DistinctNames | pkg/router/router.go:183-198 | in particular when the names of the pattern are distinct |
| RoutePaths.ParamsNamed | pkg/router/router.go:183-198 | the parameters are exactly the names behind colons, each with the segment at its last place |
| RoutePaths.FilledMatches | pkg/router/router.go:183-198 | a pattern with values filled in is matched, and the values are read back |
| RoutePaths.ChosenPage | pkg/router/router.go:131-142 | for any URL, as slashes, segments and query: the page of the first route whose pattern fits, otherwise the not-found page, if there is one |
| Navigations.NavigationsInSync | pkg/router/router.go:71-128 | over every run of navigations, each flushed, the client's container holds exactly the page the routes give for the last path that was not the current one |
| Navigations.LastPathShown | pkg/router/router.go:71-128 | with pages that are rendered once: the page of the last path, whatever came before |
| Limiters.Limiter.constructor | pkg/ratelimit/limiter.go:23-30 | a full bucket and an empty history |
| Limiters.Limiter.Allow | pkg/ratelimit/limiter.go:34-52 | yes if and only if one more call keeps every window, from the creation or any earlier call, within burst plus rate times elapsed |
| Limiters.NeverExceeded | pkg/ratelimit/limiter.go:34-52 | the yes-answers in any window, from the creation or any call on, are at most burst plus rate times elapsed |
| Limiters.BurstAtOnce | pkg/ratelimit/limiter.go:34-52 | at most burst calls are let through at one instant |
| Signals.Store.NewSignal | pkg/dom/signals.go:35-40 | a signal of its own, everything else unchanged |
| Signals.Store.Computed | pkg/dom/signals.go:127-133 | a signal with the derived value, wired to its source |
| Signals.Store.Observe | pkg/dom/signals.go:110-115 | one more observer at the end |
| Signals.Store.Unsubscribe | pkg/dom/signals.go:117-124 | the slot becomes a hole, and every other observer stays at its index |
| Signals.Store.Set | pkg/dom/signals.go:52-69 | the loop over a copy of the observers propagates as specified |
| Signals.Store.SetRoot | pkg/dom/signals.go:52-69 | afterwards all derived signals are current, every live observer of a changed signal was called exactly once, in order, exactly the changed signals are newly marked, and signals not derived from this one are as before |
| Signals.SetKeepsCurrent | pkg/dom/signals.go:52-133 | every derived signal equals its derive function of its source, although equal values cut the propagation short |
| Signals.SetCalls | pkg/dom/signals.go:52-69 | a changed signal calls each live observer once, in order of registration; an unchanged one calls none |
| Signals.UnsubscribedCalls | pkg/dom/signals.go:117-124 | setting any signal after an observer has unsubscribed leads to the same values everywhere, and the log lacks exactly the calls of that observer, the others in the same order |
| Signals.SetMarks | pkg/dom/signals.go:52-69 | a set marks exactly the signals whose value it changes, derived ones included |
| Signals.DirtySinceFlush | pkg/dom/signals.go:93-101 | over any run of sets after a flush a signal is dirty if and only if one of them changed its value |
| Signals.Store.Flush | pkg/dom/signals.go:98-101 | one mark is cleared, the others stay |
| Cose.ParseP256 | pkg/webauthn/verify.go:54-116 | total and in bounds on every byte string |
| Cose.MapBack | pkg/webauthn/verify.go:54-116 | any encoded entries followed by anything give a key exactly when every entry is readable and both coordinates have 32 bytes |
| Cose.AnyOrder | pkg/webauthn/verify.go:54-116 | a key map with distinct labels gives exactly its coordinates, in whatever order its entries come |
| Cose.IntBack | pkg/webauthn/verify.go:120-146 | an encoded label is read back |
| Cose.BytesBack | pkg/webauthn/verify.go:150-184 | an encoded byte string is read back and skipped whole |
| Cose.TextRefused | pkg/webauthn/verify.go:187-212 | a text value is taken for malformed |
| Cose.WideRefused | pkg/webauthn/verify.go:120-184 | labels of more than one byte and byte strings of 65536 bytes and more are not read |
| Cose.CutRefused | pkg/webauthn/verify.go:120-184 | a label or byte string that is cut short is not read |
| Cose.NumberTells | pkg/webauthn/verify.go:115 | coordinates of one length are told apart by their numbers |

## Left out

- ForUpdate.UpdateOnPage: one update per flush, on a container the client knows (a node inserted by one update and removed by the next before the flush would be written below 0); a bulk insert counts as the immediate append of its trees, because the browser's HTML parser is not part of this model.
- ForUpdate.UpdateStream: only updates without a run of 20 or more new nodes, whose HTML is not modelled.
- ForDrain.Drain: queues without bulk inserts, for the same reason.
- ForContainer.ListContainer.Update: nodes are values, so a change a node makes to itself later is not seen through the list; keys are distinct, as keyed lists demand (with a repeated key the marks may be read past their end).
- Machines.Machine.ApplyOpcodes: assumes that where the outermost batch ends the page is a proper tree and no node waits for itself, which `Orderliness` proves for every stream without insertions that name the node itself as parent; the exceptions the DOM throws when a node would be put below itself or a node of its own are not modelled.
- Machines.Machine.OnRemoveNode: forgets the set of ids below the node in one step; the recursive walk is `Cleanup.CleanupDescendants`, for pages of finite height.
- Machines.Machine.ApplyFrame: an InsertNode frame whose attribute list is cut short is taken as refused, while the source has created a loose, unregistered element (or detached a registered one) by then.
- DeferralTheorem.DeferralDoesNotShow: no moves, swaps, clears, inserts before a sibling or text updates addressed to elements, whose interplay with waiting nodes is visible; it compares how pages look, not node identities.
- Branches.FlipsOnPage: no branch changes its own structure, texts or attributes while it is away, and branches share no nodes.
- Rounds.RoundsShown: what a run shows after flips that are not tidy is stated for the first flush after them only in the family of `Reuse.ReusedBranchDuplicated`.
- DiffPage.DiffOnPage: matched nodes share id, type and tag, and inserted subtrees have new ids; that styles are kept and inserted subtrees have none is given up in `DiffStyles.LeftoverOnPage`.
- Diffs.Diff: two nodes of one type; for a text matched with an element the source compares attributes that do not exist.
- DirtyNodes.Flush: the tree's structure stays fixed; structural changes are the subject of the list, condition and route models.
- Navigations.NavigationsInSync: pages are style-free, new on every visit or kept, and every navigation is flushed before the next; several navigations before one flush are the flips of `Branches.FlipsOnPage`.
- Limiters.Limiter.Allow: exact reals instead of floating point, and the clock is a parameter.
- Signals.Store.Set: observers do not set the signal they observe, and only log their call; signals and observers have one value type.
- Lists and boxes among the signals notify on every set; only comparable signals are modelled.
- Text that is bound to a signal inside bulk HTML is addressed through its parent element; these stand-in registrations are not modelled.
- ReplaceText, the history, error, hello, authentication and developer-tool instructions are encoded and decoded, but touch nothing in the client model.
- Transport, sessions over the network, reconnecting, the offline queue and stored frames.
- Connection bookkeeping of the server, metrics, plugins, broadcasts and components.
- Concurrent access: every method is a single-threaded step, and writing a message always succeeds.
- Server-side HTML rendering, hydration, charts and style generation.
- Signature verification, hashing and challenges.
- Reuse of buffers from a pool: a buffer starts empty.
