# Verification of the fyp-dht ring

fyp-dht is a Chord-style distributed hash table in C. Every node has a 32-bit id, a list of 8
successors, a predecessor it may or may not know and a table of 32 fingers. Lookups hop from node to
node over a hand-made protocol on TCP, and five timers keep the pointers up to date. This project
models `src/node.c` and `src/proto.h` in Dafny and proves what the design is for: that joins never
break the ring, that stabilising converges and repairs crashes, that lookups end at the right node in
few hops, and that the bytes on the wire say what was meant.

`dafny verify dfyconfig.toml` checks everything.

## How it is put together

| file | what it holds |
|---|---|
| `Ids.dfy` | the id circle, `node_id_in_range`, powers of two |
| `LocalNode.dfy` | one node's routing state as a value, one function per callback |
| `NodeInfos.dfy`, `NodeSelf.dfy` | `struct node_self` as a class whose methods work in place, each proved against the function of `LocalNode` |
| `Network.dfy` | all nodes plus the messages in flight; one step per callback, any interleaving |
| `Callbacks.dfy` | the steps of the network do what the methods of the class are proved to do |
| `RingGraph.dfy` | what follows from the successor pointers alone |
| `JoinRuns.dfy`, `RingLoss.dfy`, `Permanence.dfy`, `Outstanding.dfy` | runs without failures: one ordered ring, and exactly when somebody is lost from it |
| `RingLookups.dfy` | lookups without fingers while nodes join |
| `Monotone.dfy`, `Rounds.dfy`, `Convergence.dfy`, `StaysIdeal.dfy` | what never gets worse, the potential, convergence, and what it lasts |
| `Pictures.dfy`, `Counterexamples.dfy` | runs that show what can go wrong without failures |
| `Members.dfy`, `Lookup.dfy`, `IdealRing.dfy`, `Hops.dfy`, `LongRoutes.dfy`, `PerfectRing.dfy`, `Relaying.dfy` | lookups on any ring and on the ideal one, and exactly how far they can travel |
| `IdealRuns.dfy`, `Refresh.dfy`, `Draining.dfy` | fixing fingers and updating the successor list, interleaved in any way |
| `Failures.dfy`, `Recovery.dfy`, `Overrun.dfy` | crashes, the checks, the repair, and the lists after it |
| `Bytes.dfy`, `Replies.dfy`, `Header.dfy`, `Connection.dfy` | lookup replies, message headers, the receiving side of a connection |

A ring is *ideal* when everyone's first live successor is the next member clockwise and everyone's
predecessor the previous one. Two assumptions recur because they are the network's and not the code's:
ids are distinct, and a liveness probe is answered truthfully.

Three results differ from what one might expect of the code:

- That the pointers form one ordered ring holds in every run without failures, outdated stabilise
  replies included (`JoinRuns.OneRingInEveryRun`). What an outdated reply can do is push a node off
  that ring for a while: `Counterexamples.OutdatedReplyLosesANode` is a run of the network in which it
  happens. `RingLoss.StepLosesNobody` and `RingLoss.RunNeverLoses` say exactly when it does not: a
  node's stabilise reply loses nobody if and only if the node is off the ring, or does not adopt the
  reply, or the reported node leads to the current successor. A reply from the current successor meets
  that while every recorded, reported and notifying predecessor leads to its target (`Permanence.Woven`,
  `RingLoss.FreshIsHarmless`), as in runs that use only such replies; so in those a node stays on the
  ring (`Permanence.OnceOnTheRing`), and one request at a time is enough for them
  (`Outstanding.OneAtATimeKeepsTheRing`). Once a single outdated reply has been used, even a harmless
  one, the reply of the current successor can lose a node too (`Counterexamples.FreshReplyLosesANode`).
  The code does not enforce one request at a time; its stabilise period (30 s) is shorter than its reply
  timeout (60 s).
- The predecessor can get worse, in exactly one way: a node's notify to itself arrives when it already
  knows a better one (`Monotone.WhenAPredecessorGetsWorse`). `Counterexamples.OwnNotifyForgetsABetterOne`
  is a run in which it does, and such a notify in flight is also the only thing that can spoil a ring
  that has become ideal (`StaysIdeal.WhenItStaysIdeal`).
- Without a node of id 0, 32 forwards are enough for every lookup on an ideal ring with correct fingers
  (`Hops.AtMost32Forwards`), and some rings need as many (`PerfectRing.Longest32`). A finger entry naming
  id 0 counts as empty, so with such a node the bound is 62 (`Hops.AtMost62Forwards`), and some rings need
  that (`PerfectRing.Longest62`).

Where the model follows what the code means rather than what it does:

- `src/node.c:483` has an `else` without braces. For its own id a node calls the callback twice, first
  with itself and then with its successor. `NodeSelf.Self.FindSuccessor` is the code as written and
  proves that this is the only difference; the network model uses the first call. The callbacks free
  their argument (`src/node.c:698`, `src/node.c:960`), so what the second call does with it is undefined
  in C and has no model.
- `src/node.c:153` does not clear the finger table and `has_pred` is first set on create or join; the
  model starts with empty entries.
- `node_first_alive_succ` may return -1 and the callers then index with it; every operation that does so
  requires one live slot.
- When only slot 7 is live, `node_update_succs` writes its first reply past the list.
  `LocalNode.ChainStaysInList` says exactly when it stays inside, and `Overrun.ChainOverruns` is a run of
  crashes and checks after which it does not; the network takes the step only when it does.

## Model

| member | source | states |
|---|---|---|
| Ids.DistIsModular | src/node.c:103-112 | clockwise distance is unsigned 32-bit subtraction, and adding it back arrives |
| Ids.InRange | src/node.c:103-112 | the three-case range test means: clockwise from min, id is met no later than max |
| Ids.TwoToTheN | src/node.c:1209-1213 | the shift is 2^n for every exponent used, and fits 32 bits |
| LocalNode.FirstAliveIsLowest | src/node.c:114-124 | the slot found is the lowest live one; -1 only when all are empty |
| LocalNode.ClosestFingerIsHighest | src/node.c:542-547 | the downward scan returns the highest-numbered finger that qualifies, none only if none does |
| LocalNode.ForwardGetsCloser | src/node.c:539-550 | every forward goes to a recorded node other than the owner and strictly closer to the id, never past it |
| LocalNode.NextIdIsAnsweredHere | src/node.c:464-499 | a lookup of n.id + 1 asked of n is answered by n with its first live successor, at 2^32-1 too |
| LocalNode.ServesByDistance | src/node.c:464-513 | in distances: the own id is answered with the node itself, an id no farther than the first live successor with that, every other is passed on |
| LocalNode.PassesOnTo | src/node.c:539-550 | to the highest finger that is live, not of id 0 and not past the id; without one, or without fingers, to the first live successor |
| LocalNode.AdoptsSuccessor | src/node.c:573-574 | the guard of stabilise means: n points at itself, or p lies in (n, successor] |
| LocalNode.StabiliseWrites | src/node.c:557-584 | a reply changes slot 0 alone, exactly when the node points at itself or the reported node comes after it and no later than its successor; the backup slots are kept |
| LocalNode.NotifiedWrites | src/node.c:617-634 | a notify changes the predecessor alone, exactly when none or itself is known or the notifier is no farther from the one known than the node |
| LocalNode.ChainStaysInList | src/node.c:641-678 | the update chain writes inside the list exactly when some slot before the last is live |
| LocalNode.ChainCanOverrun | src/node.c:646 | a node for which it does not |
| Overrun.ChainOverruns | src/node.c:641-678 | a run of crashes and checks, from an ideal ring of nine with correct lists, that ends with such a node |
| NodeSelf.Self.NetworkCreate | src/node.c:269-271 | slot 0 and predecessor become the node itself with its address, nothing else changes |
| NodeSelf.Self.JoinSuccFound | src/node.c:295-332 | slot 0 becomes the node found, address and all, empty if the lookup failed; the predecessor nil, nothing else changes |
| NodeSelf.Self.FirstAliveSucc | src/node.c:114-124 | the loop computes the lowest live slot or -1 |
| NodeSelf.Self.ClosestPrecedingNode | src/node.c:539-550 | the loop returns the highest qualifying finger, else the first live successor, as it is recorded |
| NodeSelf.Self.FindSuccessor | src/node.c:464-513 | as written: the recorded node, address and all, that the callback is given or that is asked; the callback runs twice exactly for the node's own id |
| NodeSelf.Self.StabilizeSpFound | src/node.c:557-584 | slot 0 becomes the reported node, address and all, under the guard; every other slot is kept; who is notified |
| NodeSelf.Self.Notified | src/node.c:617-634 | the predecessor becomes the notifier, address and all, under the guard; nothing else changes |
| NodeSelf.Self.UpdateSuccsFound | src/node.c:641-651 | exactly slot k is replaced; the chain goes on with the node just stored and ends with an empty one |
| NodeSelf.Self.UpdateSuccs | src/node.c:653-678 | the chain starts at the first live slot and asks it for its id + 1 |
| NodeSelf.Self.FingerUpdate | src/node.c:684-699 | exactly finger i is replaced, emptied when the node found is the owner or the empty one |
| NodeSelf.Self.FixAFinger | src/node.c:701-713 | out-of-range numbers do nothing; else one lookup of self + 2^(i-1): the first live successor is stored in finger i, or the lookup sent and the table kept |
| NodeSelf.Self.FixFingers | src/node.c:715-721 | the loop equals the fold over fingers 1..31, each looked up in the table left by the earlier ones, with addresses the node had |
| NodeSelf.FixOneLooksUp | src/node.c:701-713 | finger i stands for self + 2^(i-1): the answer the node has for that id is stored, or that id is asked for, for finger i |
| Callbacks.FixFingerIsItsCallback | src/node.c:701-713 | the network's step for one finger changes the node and sends what the method does |
| Callbacks.FixStepsAreTheLoop | src/node.c:715-721 | the 31 steps, taken one after the other, change the node and send what the loop does |
| Callbacks.FoundContinuesTheChain | src/node.c:641-671 | so does the step that stores a slot and asks for the next |
| Callbacks.ReplyIsItsCallback | src/node.c:557-584 | and the one that takes a stabilise reply and notifies the successor the node then has |
| NodeSelf.Self.CheckSuccessors | src/node.c:824-835 | exactly the live slots are probed, each once, in order, at the recorded address |
| NodeSelf.Self.CheckSuccResult | src/node.c:757-765 | a failed probe empties exactly that slot |
| NodeSelf.Self.CheckPredResult | src/node.c:749-755 | a failed probe forgets exactly the predecessor |
| RingGraph.OneCycle | src/node.c:267-332 | if no pointer jumps the creator, the nodes on any cycle are those the creator reaches |
| RingGraph.RingInOrder | src/node.c:267-332 | no ring node lies inside the arc of another ring node's pointer |
| RingGraph.RootedIsOneRing | src/node.c:267-332 | then one lap round the circle in id order meets every cycle node, and all others lead in |
| RingGraph.RedirectKeepsPaths | src/node.c:571-578 | adopting a node that leads to the old successor keeps every path of shrinking distance |
| RingGraph.RedirectKeepsRing | src/node.c:571-578 | adopting a successor loses no ring node exactly when the node is off the ring or the adopted one leads to the old successor |
| JoinRuns.AnswersAreOrdered | src/node.c:464-513 | the answer to a join lookup never makes the joining node's pointer jump the creator |
| JoinRuns.StabiliseKeepsOrdered | src/node.c:557-584 | adopting a successor never makes a pointer jump the creator, however old the reply |
| JoinRuns.OrderedStep | src/node.c:267-844 | every step without failures keeps: pointers name members, none jumps the creator, no finger names its owner |
| JoinRuns.OneRingInEveryRun | src/node.c:267-332 | in every failure-free run from node_network_create the pointers are one ring in id order that all members lead into |
| RingLoss.ReplyLosesNobody | src/node.c:557-584 | a stabilise reply, however old, loses no ring node exactly when it is harmless: a condition on the state it meets |
| RingLoss.StepLosesNobody | src/node.c:267-844 | the same for every step without failures: no other step ever loses anybody |
| RingLoss.RunNeverLoses | src/node.c:557-634 | a failure-free run never loses anybody exactly when each of its steps is harmless where it is taken |
| RingLoss.HarmlessRunKeepsTheRing | src/node.c:557-634 | then whoever is on the ring at its start is on it at its end |
| RingLoss.FreshIsHarmless | src/node.c:557-584 | while recorded, reported and notifying predecessors lead to their targets, a reply from the current successor is harmless |
| Permanence.WovenStep | src/node.c:557-634 | with replies from the current successor, recorded, reported and notifying predecessors keep leading to their target, and no path is lost |
| Permanence.OnceOnTheRing | src/node.c:557-634 | in such runs a node once on the ring stays on it |
| Outstanding.OneAtATimeIsFresh | src/node.c:586-590 | with one outstanding stabilise per node every reply comes from the current successor |
| Outstanding.OneAtATimeKeepsTheRing | src/node.c:557-634 | so then a node once on the ring stays on it |
| Counterexamples.OutdatedReplyLosesANode | src/node.c:572-575 | without that, a run in which an outdated reply, not a harmless one, takes a node off the ring |
| Counterexamples.FreshReplyLosesANode | src/node.c:572-575 | and a run in which, after a harmless outdated reply, the reply of the current successor takes a node off the ring |
| RingLookups.RingLookupIsRight | src/node.c:464-513 | in every state of a failure-free run, a no-finger lookup from a ring node returns the first ring node at or after the id |
| RingLookups.WhoServesOthersRightly | src/node.c:464-513 | a node, on the ring or off it, serves every no-finger lookup of other ids than its own rightly exactly when its successor is the ring node next after it |
| RingLookups.WhoServesRightly | src/node.c:464-513 | with its own id, exactly when it is on the ring |
| RingLookups.JoinLookupIsRight | src/node.c:315-332 | after any failure-free run, and while the ring changes under the lookup without losing anybody: the answer is right on the ring as it is when given |
| Counterexamples.LostRelayAnswersWrongly | src/node.c:315-332 | a run in which a join lookup, started at a ring node that is then lost, is answered with a node off the ring |
| Monotone.SuccessorNeverMovesAwayInRun | src/node.c:557-584 | in failure-free runs the distance to the successor never grows, outdated replies included |
| Monotone.WhenAPredecessorGetsWorse | src/node.c:617-634 | the distance from the predecessor grows exactly when a notify from the node itself replaces a better one |
| Counterexamples.OwnNotifyForgetsABetterOne | src/node.c:628 | a run from node_network_create in which that happens |
| Rounds.RoundIsFourSteps | src/node.c:557-634 | a stabilisation taken in one go is four steps of the network with nothing in between |
| Convergence.RoundLowersPotential | src/node.c:557-634 | a stabilisation that changes anything strictly lowers the summed distances |
| Convergence.QuiescentExactlyWhenIdeal | src/node.c:557-634 | the states no stabilisation can change are exactly the ideal rings over all members |
| Convergence.RoundLowersRank | src/node.c:557-634 | and strictly lowers the number of members nearer than a neighbour |
| Convergence.RankPotentialIsSmall | src/node.c:557-634 | which is at most the summed distances, and below 2n^2 for n members |
| Convergence.StabilisingConverges | src/node.c:557-634 | after more passes than that number, in any order within each, the ring is ideal |
| Convergence.StabilisingConvergesSoon | src/node.c:557-634 | so 2n^2 passes are enough for n members |
| Convergence.ConvergingRun | src/node.c:557-634 | the same of the network: the passes' own steps, four for each stabilisation in the order given, are a run that does exactly this and leaves the messages in flight untouched |
| StaysIdeal.SuccessorsStay | src/node.c:557-584 | from an ideal ring, whatever is in flight, no maintenance run changes a successor |
| StaysIdeal.WhenItStaysIdeal | src/node.c:557-634 | every maintenance run from it stays ideal exactly when no node other than a lone one is about to get a notify from itself |
| StaysIdeal.ConvergesForGood | src/node.c:557-634 | where stabilising ends, with all that was in flight, is such a ring |
| StaysIdeal.IdealIsSteady | src/node.c:557-634 | it meets the assumptions of the results on steady rings exactly when everything in flight is true of it |
| Lookup.Follow | src/node.c:464-513 | a lookup ends, at a member, in every state whose pointers name members |
| Lookup.NoNodeTwice | src/node.c:464-513 | however the network changes between hops, a lookup never revisits a node |
| IdealRing.LookupIsRight | src/node.c:464-513 | on an ideal ring a lookup from any node returns the first member at or after the id, whatever the fingers hold |
| IdealRing.FingersDoNotMatter | src/node.c:539-550 | the finger table changes only the way, not the answer |
| Hops.ScanCrosses | src/node.c:539-550 | with correct fingers one forward crosses the largest power of two up to 2^30 that a member ahead allows |
| Hops.AtMost32Forwards | src/node.c:701-713 | without a node of id 0 a lookup is forwarded at most 32 times, despite the missing 2^31 finger |
| Hops.AtMost62Forwards | src/node.c:544 | with one, at most 62 times |
| LongRoutes.Takes32 | src/node.c:539-550 | on any ideal ring with such members and correct fingers a lookup takes exactly 32 forwards |
| LongRoutes.TakesLonger | src/node.c:544 | with others, node 0 among them, exactly k + 1 + top, up to 62 |
| PerfectRing.Perfect | src/node.c:641-720 | every set of ids has an ideal ring with correct lists and fingers |
| PerfectRing.Longest32 | src/node.c:701-713 | the bound of 32 is met |
| PerfectRing.Longest62 | src/node.c:544 | and so is that of 62 |
| Relaying.RelaysFollow | src/node.c:464-513 | while nodes stand still, as many relays as the route has forwards, and one more, put exactly the answer in place of a lookup in flight |
| Relaying.RightWithin63Relays | src/node.c:964-982 | on an ideal ring with correct fingers every lookup in flight is answered rightly within 63 steps, within 33 without a node of id 0 |
| IdealRuns.SteadyStep | src/node.c:338-370 | every maintenance step keeps the ring ideal and everything in flight true of it, whatever the fingers hold and wherever the live slots begin |
| IdealRuns.StepWritesRight | src/node.c:641-699 | whatever a step writes into a list or finger table is the right value |
| IdealRuns.FullListRight | src/node.c:641-678 | a right list with slot 0 live names the next 8 members in order |
| IdealRuns.FixedPoint | src/node.c:338-370 | the ideal ring with correct lists and fingers is unchanged by any interleaving of maintenance |
| Refresh.FixFingersWorks | src/node.c:684-720 | once all 31 lookups are answered, in any order, every finger is the successor of self + 2^(i-1), or empty when that is self |
| Refresh.UpdateChainWorks | src/node.c:641-678 | after a full chain from first live slot k the slots k..7 name the next members clockwise, wrapping on small rings |
| Refresh.FullChainWorks | src/node.c:641-678 | from slot 0: slot j names the (j+1)-th member clockwise, for all 8 |
| Draining.AnswerAll | src/node.c:464-513 | when fingers and lookups in flight name members, relays and deliveries lead to a state without pending lookups |
| Draining.FixingEnds | src/node.c:684-720 | so fixing the fingers of a node can be completed, and leaves them right |
| Draining.UpdatingEnds | src/node.c:641-678 | and so can an update chain |
| Failures.WhenAProbeClearsALiveEntry | src/node.c:757-765 | a probe clears an entry that names a live node exactly when it failed and the slot has been given another node since |
| Failures.LateFailureClearsALiveEntry | src/node.c:757-765 | three steps in which that happens |
| Failures.ChecksClearTheDead | src/node.c:757-835 | the checks clear exactly the slots of dead nodes |
| Failures.CheckedPointsAtNextSurvivor | src/node.c:114-124 | after them the first live slot is the next surviving node |
| Failures.OneRoundEachRepairs | src/node.c:557-634 | one stabilisation per survivor, in any order, makes the ring ideal over the survivors |
| Failures.RepairingRun | src/node.c:749-844 | the same as a run of the network: crashes of exactly the others, then check steps with exactly the result of the checks, then the steps of the pass in the order given |
| Failures.RepairedIsSteady | src/node.c:338-370 | the repaired ring meets the assumptions of the results on steady rings, dead fingers and all |
| Recovery.ReadyForTheNextCrashes | src/node.c:641-678 | once every survivor has run its update chain, any set of nodes may fail again that leaves everyone else a live entry |
| Bytes.StoreLoad | src/node.c:405-408 | an integer copied out of and into memory survives, for either byte order |
| Replies.ReplyRoundTrip | src/node.c:946-961 | decoding an encoded reply returns the node with its address, and the hops plus one |
| Replies.ReplyBytes | src/node.c:946-961 | the 13 bytes written on a little-endian host, each by its value: 'Y', id, IP, port, hops plus one |
| Replies.ReplyBytesBigEndian | src/node.c:946-961 | and on a big-endian one |
| Replies.OtherReplyIsEmpty | src/node.c:397-403 | a reply that does not begin with 'Y' is read as the empty node |
| Replies.ReplyCountsForwards | src/node.c:386-421 | over a chain of k relays of any length the node survives and the hops are k in 16 bits |
| Replies.WhenHopsAreRight | src/node.c:957-958 | the hop count is right exactly up to 32767 |
| Replies.RequesterReadsTheTruth | src/node.c:946-982 | on an ideal ring the bytes read name the right member, its address and the number of nodes asked, at most 63 |
| Header.UpperDigit | src/proto.h:4-5 | an uppercase hexadecimal digit of the right value |
| Header.PrintLayout | src/node.c:875-890 | type, then digit by digit the length as eight uppercase hexadecimal characters, most significant first, then the content |
| Header.PrintParse | src/node.c:1047-1072 | parsing a printed message gives back type and length and leaves exactly the content |
| Header.WhenAHeaderReprints | src/node.c:875-890 | a header reprints to itself exactly when its length field is 8 uppercase hexadecimal digits |
| Header.FieldReads | src/node.c:1058-1071 | a length field is read past spaces, a sign and a 0x, digits of either case up to the first other character; a minus negates in 32 bits |
| Connection.Connection.IncomingReadCb | src/node.c:1097-1192 | parses, then calls or installs the handler and sets the watermark |
| Connection.Connection.DataArrives | src/node.c:1195-1206 | data below the watermark is kept, at or above it the installed callback runs once |
| Connection.ChunksDoNotMatter | src/node.c:1097-1140 | after any beginning of a message the connection is in the same place however it was split |
| Connection.Feed | src/node.c:1195-1206 | the connection object, given chunk after chunk, ends where the specification says |
| Connection.ReceiveMessage | src/node.c:1097-1206 | a new connection object given one message in any chunks has called its handler exactly once |
| Connection.HandlerCalledOnce | src/node.c:1113-1180 | however a message is split, its handler is called exactly once with the whole content there |
| Connection.NotCalledEarly | src/node.c:1150-1152 | and not before its last byte |
| Connection.HandlerFindsAllThatIsThere | src/node.c:1148-1180 | when the body goes on past the announced length, the chunk that completes the latter makes the one call, and the handler finds all that has come in |
| Connection.WhenTheIdIsThere | src/node.c:964-975 | a successor request announces length 0: its handler finds the id asked for exactly when it comes with the chunk that completes the header |
| Connection.RequestBytes | src/node.c:1109-1190 | from literal bytes: the letters S, P, A, N and M call a handler with all that follows, no other does |

## Left out

- Sockets, timeouts, address lookup and the connection table of src/netio.c: delivery of messages and a truthful answer to liveness probes stand for them.
- src/net_wrapper.c, SHA-1 ids (src/libdht.c), logging, the example program: no property of the ring rests on them.
- Memory management, the lifetime of callback arguments and the mutex: each callback is one atomic step.
- Addresses in the network model: members are named by id; `NodeSelf` and `Replies` carry IP and port.
- The relays on the way back of a lookup: the answer is one message to the requester; `Replies` has the chain.
- What the second call of the callback does for a node's own id (src/node.c:483): its argument has been freed by the first.
- Failures during joins, lookups through dead fingers: the code does not clear dead fingers.
- Predecessor replies, which carry no hop count, and replies other than 'Y', which leave it unset: `Replies` decodes whole successor replies and reads an empty node otherwise.
- Lookup replies that arrive in pieces: the code does not frame them.
- What handlers read from the buffer once called, beyond the id of a successor request, and a second message on the same connection.
- Header.PrintParse: content is any byte string, where `%s` would stop at a NUL, because the length is the caller's in either case.
- RingLookups.JoinLookupIsRight: assumes that nobody is lost from the ring while the lookup travels (`RingLoss.HarmlessRun`), because without that it is false (`Counterexamples.LostRelayAnswersWrongly`); `RingLookups.WhoServesOthersRightly` has the exact condition on a node.
- NodeSelf.Self.JoinSuccFound: addresses are given in full or not at all (`NodeInfos.WellFormed`), because the source looks at the IP alone in some places and at the port too in others.
- Hops.AtMost32Forwards: is about lookups by nodes whose tables stand still, because fingers are only right between changes.
