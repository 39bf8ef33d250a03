# A verified model of the xv6 LLM runtime

The runtime runs a Llama-style transformer on xv6: on one node, or spread over a ring of workers.
A master embeds a token and sends its activation round the ring. Each worker runs its own range of
layers against its own key/value cache and passes the activation on. The last worker returns it, the
master samples, and the next token starts. Hops are single UDP datagrams. The network may lose,
repeat, delay and reorder them, and a token that gets no answer makes the master start a new session
over the workers that are left.

The main result is a refinement. In every run of stable sessions, each activation the master uses
for a position is the activation that the single-node `forward` loop has for the same tokens
(`RingSafety.CommittedIsSingleNode`), and those tokens are the ones single-node generation produces
(`RingSafety.GeneratedUnique`). Hops of earlier sessions, including one that waits in a mailbox while
the worker is given a new shard and is then run on that shard, never change a committed activation.

Around it stand the parts the ring is made of. The layer split is a partition, and running its shards
in order is `forward`. The registry keeps its lifecycle, and the ring pointers of the incremental
stitch are compared with those of the full one. The weight transfer reassembles exactly the requested
bytes. The shard loader finds in a checkpoint the tensors the monolithic mapping finds. The one-slot
mailbox and the socket hand-off are safe in every interleaving. What the matmul pool returns are plain
dot products, and in a fair run every call returns exactly when no dispatch overlaps the one before it. The allocator, SHA-256 and HMAC, the tokenizer, the top-p sampler, the RPC and hop codecs
and the Internet checksum each meet a separate, simpler definition.

## Layout

| file | models |
|---|---|
| `Llama.dfy` | the transformer as a cache-free reference and as the layer loop over a cache |
| `LayerSplit.dfy` | the layer ranges, and shards in ring order against the layer loop |
| `RingProtocol.dfy`, `RingSafety.dfy` | the ring as a state machine, the premises of a stable session, and its safety |
| `RingWitness.dfy`, `RingLapses.dfy` | sessions of every ring size that finish, and for each premise a run that breaks it and goes wrong |
| `Mailbox.dfy`, `Handoff.dfy` | the two shared-memory protocols inside a worker |
| `Registry.dfy`, `RegistryLaws.dfy`, `RegistryProbe.dfy` | the master's registry, laws of its runs, and who has passed the RAM probe |
| `Transfer.dfy`, `Geometry.dfy`, `Shard.dfy` | fetching a byte window, checkpoint offsets, loading and running a shard |
| `Allocator.dfy` | `malloc` and `free` |
| `Sha256Spec.dfy`, `Sha256.dfy` | sections 5.1.1 and 6.2.2 of FIPS 180-4 and section 2 of RFC 2104, and the code |
| `MatmulPool.dfy`, `PoolProtocol.dfy`, `PoolLiveness.dfy` | the matrix product, the flags between its threads, and when a call returns |
| `TopP.dfy`, `Bpe.dfy` | sampler and tokenizer |
| `Wire.dfy`, `Rpc.dfy`, `HopCodec.dfy` | big-endian words, RPC messages, hops |
| `Checksum.dfy` | the Internet checksum and the frames of the software switch |

Code that updates fields or arrays in place is a class or a method over arrays, proved against a
function of the old state. Threads and datagrams are state machines whose events are the steps of the
code; a theorem about them is about every state of every run. One transformer block is an arbitrary
function of the layer, the rows already in its cache, the activation and the position.

A *stable session* (`RingProtocol.Stable`) is what the end-to-end theorem is about. It has three
premises:

- no assignment reaches a ring member once it has accepted a hop of the session (`NotReassigned`);
- a ring member that accepts a hop of the session has received its own assignment last
  (`OwnAssignment`): assignments of earlier sessions may come late and in any order, but not last;
- no hop of the session is accepted over a link that is wrong at both ends (`RightLink`). One end is
  wrong if the sender did not send to its successor, the other if the receiver's prev pointer, or the
  master's idea of the tail, does not name its predecessor. So SET_NEIGHBOR messages, whose answers the
  source ignores, may be lost or late as long as no two nodes agree on a wrong link.

Everything else is allowed: loss, repetition, reordering, busy mailboxes, failed loads, stale hops,
workers outside the ring that relay, reused session ids, any number of retries and restarts. The
sequence numbers alone tell old hops from new ones. The proof does not use the count of shard-ready
reports. Each premise is needed: `RingLapses` has, for each one, a run that keeps the other two and in
which the master commits a wrong activation.

The first premise is about accepted hops, not served ones: an assignment that arrives while an accepted
hop waits in the mailbox empties the cache between two positions.

Where the code and its comments differ, the model follows the code:

- The comment on `discovery_restitch_ring` says that the incremental stitch agrees with it by
  construction. It agrees if and only if the activated slot is the highest ACTIVE one
  (`RegistryLaws.InsertAgrees`); two workers that answer the probe out of order are enough to make it
  differ (`RegistryLaws.OutOfOrder`).
- A comment in `handle_auth_hello` says that a repeated AUTH_HELLO is answered identically. After a
  failed entropy draw it is not: the slot is PENDING by then, and the repeat gets the probe on record
  (`RegistryLaws.HelloRepeats`, `RegistryLaws.HelloRefusedThenProbed`).
- The comment on `infer_decode_hop` lists a bound on the position. The code leaves that bound to
  `shard_forward` (`HopCodec.HopRoundTrip` has no condition on the position).
- `llama_head_tail_offsets` is meant to follow `memory_map_weights`. For an unshared classifier it does
  so if and only if `seq_len * head_size` is even (`Geometry.HeadTailAgrees`, `Geometry.OddTable`).
- The window check of `llm_fetch_window` is on 32-bit sums and admits a window outside the file exactly
  when offset plus length wraps (`Transfer.InsideCheckExact`). A window whose end does not round up to a
  chunk in 32 bits is never written: it fails when its end wraps below its first chunk, and is reported as
  fetched when its end wraps onto it (`Transfer.FetchWindow`).
- Dropping small probabilities before sorting is harmless for every distribution over n entries if and
  only if top-p is at least 1/n (`TopP.CropHarmlessIff`, `TopP.UniformCropped`).
- An accepted reply with status PROG_MISMATCH is encoded without its version bounds, so it is the one
  status that does not decode (`Rpc.ReplyRoundTrip`).
- `xdr_decode_opaque_auth` reads a second length after that of a body that is not empty. So it reads a
  field as section 8.2 of RFC 5531 does if and only if the body is empty (`Rpc.AuthStandardIff`), and the
  same holds of whole calls (`Rpc.StandardCallIff`).
- A pool worker raises `work_done` before it lowers `work_ready`. A call that raises `work_ready` in between
  has it lowered again and never returns. That needs two calls and can happen with any number of threads
  (`PoolLiveness.TwoCallsCanLose`). A call in progress can still return if and only if it has not happened
  (`PoolLiveness.ReturnsIff`), and it has happened if and only if some dispatch found the flag still up
  (`PoolLiveness.LostIffOverlap`).
- The comment in `handle_cap_ack` says that a worker that fails the RAM probe stays PENDING and ages out.
  On the way it is SUSPECTED, and a heartbeat then makes it ACTIVE (`RegistryProbe.ActiveUnprobed`). Every
  ACTIVE or SUSPECTED worker has answered its probe if and only if no expiry pass finds a PENDING slot
  between the two timeouts (`RegistryProbe.EarnedIff`).

## Model

| member | source | states |
|---|---|---|
| Llama.Transformer.constructor | xv6-riscv/user/llama_core.c:339-358 | every row of a new transformer's cache is zero, and the cache is right before the first token |
| Llama.Transformer.Forward | xv6-riscv/user/llama_core.c:742-761 | the layer loop leaves in the activation and in every cache row what the run functions give for the old cache |
| Llama.Transformer.Feed | xv6-riscv/user/llama_core.c:742-761 | feeding any token sequence from position 0 gives, at every position, the activation of the cache-free reference |
| Llama.RunRight | xv6-riscv/user/llama_core.c:652-729 | a range of layers run on right rows and the right input gives the reference activation, and its cache is right for one position more |
| Llama.ActExtend | xv6-riscv/user/llama_core.c:742-761 | a reference activation does not depend on later tokens |
| Llama.RowsExtend | xv6-riscv/user/llama_core.c:652-729 | nor do the reference cache rows |
| Llama.RerunKeepsRows | xv6-riscv/user/distinf.c:1082-1094 | running an earlier position again, as a retransmission does, leaves every right row right |
| Llama.RerunWrites | xv6-riscv/user/llama_core.c:652-729 | running a position again writes the row that is already there |
| Llama.WindowRun | xv6-riscv/user/shard.c:189-201 | a cache with fewer rows gives the same activation and the same rows as a longer one at every position both hold |
| LayerSplit.AssignOne | xv6-riscv/user/discovery.c:966-1008 | succeeds exactly for a ring position and at least one layer per worker, and gives the closed-form range, which is not empty |
| LayerSplit.AssignLayers | xv6-riscv/user/discovery.c:882-938 | the running loop gives every worker the range that the closed form gives, and fails under the same condition |
| LayerSplit.CutIsCut | xv6-riscv/user/discovery.c:966-1008 | for every layer count and every worker count up to it the ranges start at 0, end at the layer count and are never empty |
| LayerSplit.OneOwner | xv6-riscv/user/discovery.c:882-938 | every layer lies in exactly one range |
| LayerSplit.EvenSizes | xv6-riscv/user/discovery.c:882-938 | any two ranges differ in size by at most one |
| LayerSplit.ThroughSlice | xv6-riscv/user/shard.c:189-201 | layers s to e of the monolithic loop are the run of a shard whose cache index i is layer s + i, in activation and in cache |
| LayerSplit.RingPrefix | xv6-riscv/user/shard.c:189-201 | the activation that leaves ring position k is the monolithic one after the layers before its range end |
| LayerSplit.RingToken | xv6-riscv/user/shard.c:189-201 | one token through all shards is one token through the whole loop, and the caches stay the slices of the whole cache |
| LayerSplit.FeedSharding | xv6-riscv/user/llama_core.c:742-761 | the caches stay slices over any token sequence |
| LayerSplit.AnyCut | xv6-riscv/user/shard.c:189-201 | over any cut of the layers into consecutive ranges the shards in order give the activation of the layer loop at every position |
| LayerSplit.RingEqualsForward | xv6-riscv/user/llama_core.c:742-761 | for every layer count, worker count and token sequence, shards over the assigned ranges in ring order give the activation of the layer loop at every position |
| RingSafety.CommittedIsSingleNode | xv6-riscv/user/distinf.c:1066-1125 | in every state of every run that meets the three premises, every activation the master has used is the single-node one for its tokens, and the tokens are generated ones |
| RingSafety.GeneratedUnique | xv6-riscv/user/distinf.c:1162-1256 | two generated token sequences agree as far as both go, so restarts repeat the same text |
| RingSafety.InvHolds | xv6-riscv/user/distinf.c:442-575 | the ring invariant holds in every state of every run |
| RingSafety.InvStep | xv6-riscv/user/distinf.c:604-692 | every step of master, listen thread, inference thread and network keeps the invariant |
| RingSafety.RunOld | xv6-riscv/user/distinf.c:507-523 | a ring member about to run a hop sent before the session holds no row that any hop of the session relies on |
| RingSafety.RunsOnOwnShard | xv6-riscv/user/distinf.c:507-523 | a hop of the current session is run on the shard of that session, with right input and right earlier rows |
| RingSafety.RunNew | xv6-riscv/user/distinf.c:516-523 | such a run gives the reference activation after the range and makes one more row right |
| RingSafety.ComputeStep | xv6-riscv/user/distinf.c:516-523 | running a hop, new or stale, keeps the invariant |
| RingSafety.SendStep | xv6-riscv/user/distinf.c:558-570 | what a worker sends, wherever its next pointer leads, carries the activation after its own layers |
| RingSafety.TopStep | xv6-riscv/user/distinf.c:449-459 | picking up an assignment and dropping the old shard keeps the invariant |
| RingSafety.LoadStep | xv6-riscv/user/distinf.c:460-505 | loading a shard, or failing to, keeps the invariant |
| RingSafety.DeliverStep | xv6-riscv/user/distinf.c:607-635 | an assignment of any session, delivered to anyone who has not accepted a hop of the current one, keeps the invariant |
| RingSafety.StageStep | xv6-riscv/user/distinf.c:637-650 | decoding any datagram ever sent to a worker keeps the invariant |
| RingSafety.CommitMember | xv6-riscv/user/distinf.c:651-687 | the replay check lets no hop of an earlier session follow one of the current session into the mailbox, and a member that accepts keeps its own shard |
| RingSafety.AcceptsOwn | xv6-riscv/user/distinf.c:656-670 | over a link that is right at either end, the source check lets in only the hop that is about to enter the worker's own layers |
| RingSafety.DrainStep | xv6-riscv/user/distinf.c:507-514 | taking the hop out of the mailbox keeps the invariant |
| RingSafety.LaunchStep | xv6-riscv/user/distinf.c:1199-1209 | sending the assignments keeps the invariant |
| RingSafety.SetNeighborStep | xv6-riscv/user/distinf.c:1186-1196 | changing the pointers of a worker at any time keeps the invariant |
| RingSafety.SendTokenStep | xv6-riscv/user/distinf.c:1080-1102 | sending or resending a token under a new sequence number keeps the invariant |
| RingSafety.FinalIsThrough | xv6-riscv/user/distinf.c:960-1001 | a hop that passes the master's session, sequence, final and source checks has been through every layer, for the position the master waits for |
| RingSafety.ReceiveStep | xv6-riscv/user/distinf.c:960-1001 | accepting such a hop keeps the invariant |
| RingSafety.UseStep | xv6-riscv/user/distinf.c:1226-1251 | using the activation and choosing the next token keeps the invariant |
| RingSafety.FrontAdvance | xv6-riscv/user/distinf.c:1226-1251 | once a position has passed every worker, every cache is ready for the next position |
| RingWitness.SessionFinishes | xv6-riscv/user/distinf.c:1162-1256 | for every model, every worker count up to its layers, every prompt and every step limit within the cache there is a stable run that generates to the end |
| RingWitness.Round | xv6-riscv/user/distinf.c:1066-1125 | from every state in which a token is due to a ring of any size, a run commits what the shards make of it in ring order and no more, and the next token is due |
| RingWitness.PassOn | xv6-riscv/user/distinf.c:442-575 | a worker that can accept a hop receives, runs and forwards it, and nothing else changes |
| RingWitness.Opened | xv6-riscv/user/distinf.c:1199-1226 | a session over any number of idle workers, whatever they served before, gets all of them assigned and loaded, and its first token due |
| RingLapses.RedeliveryBreaks | xv6-riscv/user/distinf.c:607-635 | with one redelivered assignment and the other premises kept, the master commits an activation that is not the single node's |
| RingLapses.LateAssignmentBreaks | xv6-riscv/user/distinf.c:607-635 | with a duplicate of the assignment of an earlier session, which was loaded and then lost a token, arriving last and the other premises kept, the hop runs on the old shard and the master commits a wrong activation |
| RingLapses.WrongLinkBreaks | xv6-riscv/user/distinf.c:558-570 | with two workers that agree on a wrong link and the other premises kept, a worker is left out and the master commits a wrong activation |
| Mailbox.DrainedInOrder | xv6-riscv/user/distinf.c:671-687 | in every interleaving the drained hops are the committed ones, whole, each at most once and in order, and sequence numbers rise strictly between assignments |
| Mailbox.RunInv | xv6-riscv/user/distinf.c:507-514 | the mailbox invariant holds in every state of every run |
| Mailbox.ListenCopies | xv6-riscv/user/distinf.c:671-687 | a step of the listen thread, also in the middle of its copy, keeps the halves of a message together and the mutex exclusive |
| Mailbox.ListenNumbers | xv6-riscv/user/distinf.c:651-687 | a step of the listen thread keeps the sequence numbers rising |
| Mailbox.InferCopies | xv6-riscv/user/distinf.c:507-514 | a step of the inference thread, also in the middle of its copy, keeps its copy a prefix of the message |
| Mailbox.InferDrains | xv6-riscv/user/distinf.c:507-514 | what the inference thread has drained is a prefix of what was committed |
| Mailbox.StepKeeps | xv6-riscv/user/mutex.c:35-53 | every step of either thread keeps the invariant |
| Handoff.NeverBothReceive | xv6-riscv/user/discovery.c:381-403 | in every interleaving the listen thread is not receiving while the heartbeat thread registers |
| Handoff.RunInv | xv6-riscv/user/distinf.c:245-283 | the hand-off invariant holds in every state of every run |
| Handoff.StaleSuspension | xv6-riscv/user/distinf.c:245-283 | a run in which registration proceeds on a stale suspension flag, so the flag alone does not carry the proof |
| Registry.Master.constructor | xv6-riscv/user/discovery.c:149-173 | the registry starts with sixteen unused slots |
| Registry.Master.HandleHello | xv6-riscv/user/discovery.c:459-537 | the new registry, and the probe or the refusal that is sent back, for every table, hello and entropy draw |
| Registry.Master.HandleAck | xv6-riscv/user/discovery.c:540-641 | the new registry with the slot stitched in, and which answer is given when |
| Registry.Master.HandleHeartbeat | xv6-riscv/user/discovery.c:644-670 | the new registry, and which answer is given when |
| Registry.Master.ExpireWorkers | xv6-riscv/user/discovery.c:769-801 | every slot ages by its own silence, and exactly the newly expired ones are evicted, once each |
| Registry.Master.Find | xv6-riscv/user/discovery.c:149-155 | the first slot with the id |
| Registry.Master.FindByAddr | xv6-riscv/user/discovery.c:158-163 | the first slot with the address |
| Registry.Master.FreeSlot | xv6-riscv/user/discovery.c:166-173 | the first expired or unused slot |
| Registry.Master.FindPrevActive | xv6-riscv/user/discovery.c:260-270 | the circular scan finds the nearest ACTIVE slot below, or else the highest one above |
| Registry.Master.RingOrder | xv6-riscv/user/discovery.c:809-816 | exactly the ACTIVE slots, in increasing order |
| Registry.Master.RestitchRing | xv6-riscv/user/discovery.c:836-865 | relinking list neighbours in place links every ACTIVE slot to its nearest ACTIVE slots and the ends to the master |
| Registry.Master.RingTail | xv6-riscv/user/distinf.c:940-949 | the first ACTIVE slot whose next hop is the master, or none |
| Registry.OrderNeighbours | xv6-riscv/user/discovery.c:836-865 | neighbours in the ordered list are neighbours among the ACTIVE slots |
| Registry.Order | xv6-riscv/user/discovery.c:809-816 | the list holds every ACTIVE slot, no other, in increasing order |
| RegistryLaws.RunHealthy | xv6-riscv/user/discovery.c:458-670 | over every run with a non-decreasing clock, nonzero ids stay unique, no slot was heard from in the future, and SUSPECTED means silence above the timeout |
| RegistryLaws.HealthyStep | xv6-riscv/user/discovery.c:458-670 | every handler and every expiry pass keeps that |
| RegistryLaws.AfterTick | xv6-riscv/user/discovery.c:769-801 | right after an expiry pass PENDING and ACTIVE slots are within the first timeout and SUSPECTED ones between the two |
| RegistryLaws.Transitions | xv6-riscv/user/discovery.c:458-670 | EXPIRED is left only by a hello with the right commitment, and ACTIVE is entered only from PENDING by a matching ack or from SUSPECTED by a heartbeat |
| RegistryProbe.EarnedIff | xv6-riscv/user/discovery.c:458-801 | in every run and for every slot: up to any point an ACTIVE or SUSPECTED worker has always answered its probe since it last registered, if and only if no expiry pass before found the slot PENDING and silent between the two timeouts |
| RegistryProbe.SlotStep | xv6-riscv/user/discovery.c:458-801 | one event keeps both halves of that for one slot, and such a pass breaks it |
| RegistryProbe.WaitingNow | xv6-riscv/user/discovery.c:458-801 | a PENDING worker has never answered the probe of its registration |
| RegistryProbe.SlipsThrough | xv6-riscv/user/discovery.c:643-670 | in any healthy registry a PENDING slot found between the timeouts is ACTIVE after its next heartbeat |
| RegistryProbe.ActiveUnprobed | xv6-riscv/user/discovery.c:769-801 | such a run from the empty registry: hello, expiry pass, heartbeat, and an ACTIVE worker that never answered |
| RegistryLaws.HelloRepeats | xv6-riscv/user/discovery.c:459-537 | a repeated hello never changes the registry again, and is answered as the first one was if and only if that one did not fail for want of entropy after taking a slot |
| RegistryLaws.HelloRefusedThenProbed | xv6-riscv/user/discovery.c:500-515 | a hello to the empty registry whose entropy draw fails, and whose repeat is answered with a probe |
| RegistryLaws.RestitchIsStitched | xv6-riscv/user/discovery.c:836-865 | after a restitch every pointer is the one the ACTIVE slots determine |
| RegistryLaws.RestitchedWalk | xv6-riscv/user/discovery.c:836-865 | following next from the first ACTIVE slot visits every ACTIVE slot once in slot order and ends at the master |
| RegistryLaws.PrevInvertsNext | xv6-riscv/user/discovery.c:836-865 | after a restitch i points on to j exactly when j points back to i |
| RegistryLaws.TailIsLast | xv6-riscv/user/distinf.c:940-949 | after a restitch the only ACTIVE slot whose next hop is the master is the last one |
| RegistryLaws.InsertAgrees | xv6-riscv/user/discovery.c:580-630 | on a stitched ring, stitching a newly activated slot in gives the pointers of the full restitch if and only if no higher slot is ACTIVE |
| RegistryLaws.OutOfOrder | xv6-riscv/user/discovery.c:580-630 | a run from the empty registry, two hellos and the second worker's ack first, that leaves pointers a full restitch changes |
| RegistryLaws.InOrderStep | xv6-riscv/user/discovery.c:580-630 | a step that activates slots in increasing order and expires none keeps the ring stitched |
| RegistryLaws.IncrementalIsRestitched | xv6-riscv/user/discovery.c:580-630 | over every run of such steps a full restitch changes nothing |
| Transfer.FetchWindow | xv6-riscv/user/ftpclient.c:537-650 | for every offset and length: on success the buffer holds exactly the window of the file for every order, loss and repetition, provided the end rounds up to a chunk in 32 bits; otherwise nothing is written, a window that ends below its first chunk fails and one without chunks succeeds; a whole file's digest was checked; nothing outside the window is ever written; if nothing is lost it succeeds |
| Transfer.Context.constructor | xv6-riscv/user/ftpclient.c:561-575 | the context covers the chunks that meet the window, counted in 32 bits, none of them received |
| Transfer.Context.ProcessDataPacket | xv6-riscv/user/ftpclient.c:341-375 | for every packet, well formed or not: whether it is refused, repeated or new, and that a new one writes exactly the bytes of the window it covers |
| Transfer.Context.Receive | xv6-riscv/user/ftpclient.c:403-411 | one receive keeps received bytes right and marks exactly the chunk that was accepted |
| Transfer.Context.ReceiveRange | xv6-riscv/user/ftpclient.c:400-421 | the receive loop of a batch counts the new chunks, and gets all of them if nothing is lost |
| Transfer.Context.RequestChunkRange | xv6-riscv/user/ftpclient.c:388-422 | a batch keeps the context sound, counts the new chunks, and completes if nothing is lost |
| Transfer.Context.HandleMissing | xv6-riscv/user/ftpclient.c:431-474 | a retransmission pass keeps the context sound and counts what it recovers |
| Transfer.Context.Retransmitted | xv6-riscv/user/ftpclient.c:444-468 | so does the receive loop of one request |
| Transfer.Context.GetMissing | xv6-riscv/user/ftpclient.c:180-188 | the first sixteen missing chunks of the range, in order |
| Transfer.Context.CountMissing | xv6-riscv/user/ftpclient.c:159-168 | how many chunks of the range are in the window and missing |
| Transfer.Context.CountReceived | xv6-riscv/user/ftpclient.c:306-312 | how many chunks have arrived |
| Transfer.Context.AllReceived | xv6-riscv/user/ftpclient.c:131-138 | whether every chunk has arrived |
| Transfer.Context.Transfer | xv6-riscv/user/ftpclient.c:598-636 | the batches and retry rounds end, keep the context sound, and report complete exactly when every chunk arrived, which they do if nothing is lost |
| Transfer.Context.StoredRight | xv6-riscv/user/ftpclient.c:341-375 | storing a genuine packet makes its bytes of the window right and leaves the others right |
| Transfer.Context.CompleteWindow | xv6-riscv/user/ftpclient.c:537-650 | once every chunk has arrived the buffer is the window |
| Transfer.Context.GenuineBytes | server/server.py:466-495 | a genuine packet covers exactly the file bytes of its chunk, and carries them |
| Transfer.PacketFields | server/server.py:466-495 | the client reads from a data packet the index, length and bytes the server put in |
| Transfer.Chunk | server/server.py:145-170 | every chunk is 512 bytes long except the last |
| Transfer.InsideCheckExact | xv6-riscv/user/ftpclient.c:554-559 | the 32-bit window check is the exact one when offset plus length does not wrap, and exactly which windows it admits when it wraps |
| Transfer.InsideCheckWraps | xv6-riscv/user/ftpclient.c:554-559 | a window outside a two-byte file that the check admits and that has no chunks to wait for |
| Geometry.CkptGeometry | xv6-riscv/user/shard.c:39-60 | the nine bases and strides are the running sums of the tensor sizes |
| Geometry.MemoryMapWeights | xv6-riscv/user/llama_core.c:401-430 | the address walk of the monolithic mapping reaches the same nine bases, and where the classifier lies |
| Geometry.SliceIsLayerAt | xv6-riscv/user/llama_core.c:618-637 | the byte offset fetched for tensor i of layer l is where the monolithic mapping has it |
| Geometry.SlicesDisjoint | xv6-riscv/user/shard.c:168-179 | the slices of all layers and tensors are pairwise disjoint and end before the final norm |
| Geometry.HeadTailOffsets | xv6-riscv/user/llama_core.c:432-474 | the offset walk gives the closed-form offsets of embedding, final norm and classifier |
| Geometry.HeadTailAgrees | xv6-riscv/user/llama_core.c:425-474 | they are those of the monolithic mapping and the embedding ends where the first layer begins; for the classifier they are so if and only if it is shared or the frequency table has an even length |
| Geometry.OddTable | xv6-riscv/user/llama_core.c:425-474 | a model for which the classifier offset is one element off |
| Geometry.HeadsTimesSize | xv6-riscv/user/llama_core.c:401-430 | when the heads divide the dimension, both ways of computing the attention sizes agree |
| Shard.FetchRange | xv6-riscv/user/shard.c:168-179 | the 32-bit casts of offset and length are harmless: a transfer that succeeds from a server of the checkpoint leaves the bytes asked for, and one in which nothing is lost succeeds |
| Shard.FetchElements | xv6-riscv/user/shard.c:168-179 | the bytes that a successful transfer leaves are the elements of the checkpoint asked for |
| Shard.FetchSlice | xv6-riscv/user/shard.c:168-179 | a slice lands at its place in the segment and leaves what is before it alone |
| Shard.PackSlices | xv6-riscv/user/shard.c:148-181 | the slices are packed without gaps, every recorded field points at its own, and it fails exactly when a transfer fails |
| Shard.LoadLayer | xv6-riscv/user/shard.c:148-181 | a layer loaded from a server of the checkpoint has the nine tensors wanted |
| Shard.ReadFields | xv6-riscv/user/shard.c:148-181 | the recorded fields give back the nine tensors |
| Shard.LoadLayers | xv6-riscv/user/shard.c:148-181 | the layers loaded from a server of the checkpoint are those of the monolithic mapping; the loop fails exactly when a segment cannot be attached or a transfer fails, and succeeds if nothing is lost |
| Shard.AllLayers | xv6-riscv/user/shard.c:102-187 | the tensors of the monolithic mapping make the layers of the model |
| Shard.Shard.Load | xv6-riscv/user/shard.c:102-187 | succeeds exactly for a range inside the model and the segment limit whose segments can be attached and whose transfers succeed, which they do if nothing is lost; then it has a zero cache and the capped length and, if all that arrived was built for the checkpoint, the layers of its model |
| Shard.Shard.Forward | xv6-riscv/user/shard.c:189-201 | refuses an unloaded shard and a position outside the cache; otherwise runs its layers of the model, in activation and in cache |
| Shard.Shard.RunLayers | xv6-riscv/user/shard.c:189-201 | the loop over the layers reaches the wanted activation and cache |
| Shard.Shard.Release | xv6-riscv/user/shard.c:203-211 | a released shard is not loaded, and releasing it again changes nothing |
| Shard.Activations | xv6-riscv/user/shard.c:189-201 | the layer by layer activations that the run of a shard passes through |
| Allocator.Heap.constructor | xv6-riscv/user/umalloc.c:21-22 | the empty heap is sound |
| Allocator.Heap.Malloc | xv6-riscv/user/umalloc.c:63-90 | fails exactly when no free block is large enough and sbrk fails; otherwise adds one live block of the size asked for, changes no other live block, and keeps every unit accounted for |
| Allocator.Heap.Free | xv6-riscv/user/umalloc.c:24-44 | freeing a live block removes it from the live ones, changes no other, keeps every unit accounted for, and leaves a free block at least as large |
| Allocator.Heap.Locate | xv6-riscv/user/umalloc.c:29-32 | the search ends, at the free block that precedes the freed one in the address-ordered cycle |
| Allocator.Heap.Splice | xv6-riscv/user/umalloc.c:33-43 | the four pointer cases are one linking followed by merging with either neighbour |
| Allocator.Heap.MoreCore | xv6-riscv/user/umalloc.c:46-61 | new memory of at least 4096 units becomes free room, or nothing changes |
| Allocator.Heap.Extend | xv6-riscv/user/umalloc.c:54-58 | memory from sbrk is one new live block beside the old ones |
| Allocator.Heap.Take | xv6-riscv/user/umalloc.c:75-85 | taking a fitting block whole or from its end makes one new live block and keeps the heap consistent |
| Allocator.Heap.Carve | xv6-riscv/user/umalloc.c:78-82 | splitting leaves the front free and hands out the end |
| Allocator.Heap.Scan | xv6-riscv/user/umalloc.c:74-86 | the walk ends, at a fitting block or back at its start with no fitting block in the list |
| Allocator.Heap.Search | xv6-riscv/user/umalloc.c:74-89 | the search with at most one growth has the outcome `malloc` promises |
| Allocator.Apart | xv6-riscv/user/umalloc.c:24-90 | in every consistent heap any two blocks, free or live, are disjoint |
| Allocator.SpliceConsistent | xv6-riscv/user/umalloc.c:33-43 | returning a block, with either, both or neither merge, keeps the heap consistent |
| Allocator.LinkConsistent | xv6-riscv/user/umalloc.c:33-43 | linking a block in keeps the heap consistent, except that it may touch its neighbours |
| Allocator.MergeConsistent | xv6-riscv/user/umalloc.c:33-43 | merging a block with the one it touches keeps the heap consistent |
| Allocator.UnlinkConsistent | xv6-riscv/user/umalloc.c:76-77 | taking a whole block out of the cycle keeps the heap consistent |
| Allocator.CarveConsistent | xv6-riscv/user/umalloc.c:78-82 | splitting a block keeps the heap consistent |
| Allocator.GrowConsistent | xv6-riscv/user/umalloc.c:54-58 | adding memory above the heap keeps it consistent |
| Allocator.AheadStep | xv6-riscv/user/umalloc.c:74-88 | every step of a walk round the cycle leaves one block fewer ahead |
| Allocator.AheadAll | xv6-riscv/user/umalloc.c:74-88 | a walk from any block has the whole free list ahead |
| Allocator.FreeCycle | xv6-riscv/user/umalloc.c:24-44 | the free blocks form one cycle in address order, no two of them adjacent |
| Allocator.UnitsConserved | xv6-riscv/user/umalloc.c:46-90 | the sizes of the free and live blocks add up to the units obtained from sbrk |
| Allocator.RoomForBytes | xv6-riscv/user/umalloc.c:69-69 | the units asked for hold the header and the bytes, and one unit fewer would not |
| Sha256Spec.ChainPrefix | xv6-riscv/user/sha256.c:150-158 | the chaining value after n blocks depends only on those blocks |
| Sha256Spec.WordsLawful | xv6-riscv/user/sha256.c:39-45 | 32-bit addition is commutative and associative, which is all the rewriting of the rounds needs |
| Sha256.Hash | xv6-riscv/user/sha256.c:221-226 | for every message, the digest of FIPS 180-4 |
| Sha256.Hmac | xv6-riscv/user/discovery.c:14-38 | for every key and message, HMAC of RFC 2104 over that digest, also for keys longer than a block |
| Sha256.Context.UpdateM | xv6-riscv/user/sha256.c:57-73 | the sixteen words overwritten in place are the next sixteen of the 64-word schedule |
| Sha256.Context.FourRounds | xv6-riscv/user/sha256.c:103-128 | four rounds with rotating register names are four rounds of the standard |
| Sha256.Context.FourAt | xv6-riscv/user/sha256.c:101-129 | so with the constants and words of any four consecutive rounds |
| Sha256.Context.SixteenRounds | xv6-riscv/user/sha256.c:101-129 | sixteen rounds on the words in place |
| Sha256.Context.AllRounds | xv6-riscv/user/sha256.c:99-131 | the four passes are the 64 rounds of the standard |
| Sha256.Context.AddBack | xv6-riscv/user/sha256.c:133-137 | the registers are added to the chaining value |
| Sha256.Context.Block | xv6-riscv/user/sha256.c:83-139 | one block is one compression of the standard |
| Sha256.Context.Flush | xv6-riscv/user/sha256.c:150-158 | a full buffer becomes one more chained block |
| Sha256.Context.AppendByte | xv6-riscv/user/sha256.c:150-158 | one byte more has been fed |
| Sha256.Context.Update | xv6-riscv/user/sha256.c:199-206 | the bytes are appended to those fed, however the message is split |
| Sha256.Context.PadZeros | xv6-riscv/user/sha256.c:168-175 | exactly the zeros the standard asks for, within one block or over two |
| Sha256.Context.PadLength | xv6-riscv/user/sha256.c:176-183 | the eight length bytes, most significant first |
| Sha256.Context.Finalize | xv6-riscv/user/sha256.c:168-183 | what has been fed is the padded message of the standard |
| Sha256.Context.Emit | xv6-riscv/user/sha256.c:208-219 | the digest bytes are the registers, big-endian |
| Sha256.Context.Final | xv6-riscv/user/sha256.c:208-219 | the hash of everything fed since the start |
| Sha256.Context.Init | xv6-riscv/user/sha256.c:185-197 | a used context starts again with nothing fed |
| Sha256.ScheduleRecurrence | xv6-riscv/user/sha256.c:57-73 | the schedule of the standard obeys the recurrence in the order the code adds |
| Sha256.RoundStep | xv6-riscv/user/sha256.c:103-128 | the round of the standard equals the regrouped sums of the code |
| MatmulPool.DotUnrolled | xv6-riscv/user/llama_core.c:81-105 | eight accumulators and a tail give the plain dot product in exact arithmetic |
| MatmulPool.SplitCovers | xv6-riscv/user/llama_core.c:300-311 | for every row count and thread count the 16-aligned slices reach the last row, and no active slice starts after it |
| MatmulPool.RowOwner | xv6-riscv/user/llama_core.c:300-311 | every row lies in exactly one slice, that of an active thread |
| PoolProtocol.MatmulPlain | xv6-riscv/user/llama_core.c:286-297 | without a pool every row is the dot product |
| PoolProtocol.RunItem | xv6-riscv/user/llama_core.c:171-176 | a work item fills exactly its rows with their dot products |
| PoolProtocol.PlanSplits | xv6-riscv/user/llama_core.c:299-311 | the dispatch plan gives every row one owner |
| PoolProtocol.ReturnedCorrect | xv6-riscv/user/llama_core.c:282-332 | in every interleaving in which `matmul` returns, every row was written exactly once and holds its dot product |
| PoolProtocol.RunInv | xv6-riscv/user/llama_core.c:160-187 | the pool invariant holds in every state of every run |
| PoolProtocol.StepKeeps | xv6-riscv/user/llama_core.c:160-187 | every step of caller and workers keeps it |
| PoolProtocol.MainReturns | xv6-riscv/user/llama_core.c:327-329 | when the caller has seen every flag of the call, the whole result is there |
| PoolProtocol.WorkerRow | xv6-riscv/user/llama_core.c:160-187 | a worker step writes only rows of its own item, each once |
| PoolLiveness.LostStays | xv6-riscv/user/llama_core.c:160-187 | a lost dispatch stays lost under every step, and the call does not return |
| PoolLiveness.DoomedStays | xv6-riscv/user/llama_core.c:160-187 | so does one that is about to be lost, and the worker's next step loses it |
| PoolLiveness.SignalLoses | xv6-riscv/user/llama_core.c:323-324 | raising a flag that is still up loses the dispatch at the worker's next step |
| PoolLiveness.OnlySignalLoses | xv6-riscv/user/llama_core.c:160-187 | no other step does |
| PoolLiveness.LostIffOverlap | xv6-riscv/user/llama_core.c:282-332 | at every point of every run a dispatch is lost, or about to be, if and only if an earlier step raised a flag that was still up |
| PoolLiveness.NeverReturns | xv6-riscv/user/llama_core.c:327-329 | from then on no schedule lets the call return |
| PoolLiveness.ReturnsIff | xv6-riscv/user/llama_core.c:282-332 | from every state of a call in progress that meets the invariant, some schedule lets it return if and only if no dispatch is lost or about to be |
| PoolLiveness.EveryStepAdvances | xv6-riscv/user/llama_core.c:160-187 | every step of a call in progress changes nothing or leaves less to do |
| PoolLiveness.Complete | xv6-riscv/user/llama_core.c:282-332 | a schedule that completes the call, also one in which no worker lowers its flag before the return |
| PoolLiveness.FairReturnsIff | xv6-riscv/user/llama_core.c:282-332 | in every endless run in which caller and workers step again and again, the caller is idle again and again if and only if no flag is ever raised while it is still up |
| PoolLiveness.TwoCallsCanLose | xv6-riscv/user/llama_core.c:183-184 | for any number of threads and any two products, a run in which the first call returns and the second loses the dispatch to thread 0 |
| TopP.SampleTopP | xv6-riscv/user/llama_core.c:1071-1112 | for any number of entries: the index returned lies in the shortest prefix of the sorted kept entries whose mass exceeds top-p, at the place where the running mass passes the coin; for a distribution and top-p of at least 1/n there is one, and the prefix and its mass are those of the uncropped list |
| TopP.SampledCut | xv6-riscv/user/llama_core.c:1079-1100 | for a distribution and top-p of at least 1/n the uncropped list has a cut, and the cropped one is cut at the same place |
| TopP.FindsCut | xv6-riscv/user/llama_core.c:1091-1100 | every list that is not empty has a cut |
| TopP.CropHarmless | xv6-riscv/user/llama_core.c:1079-1100 | for top-p of at least 1/n, dropping small entries before sorting changes neither the cut nor the mass up to it |
| TopP.CropHarmlessIff | xv6-riscv/user/llama_core.c:1079-1100 | that holds for all distributions over n entries if and only if top-p is at least 1/n |
| TopP.UniformCropped | xv6-riscv/user/llama_core.c:1079-1088 | below 1/n the uniform distribution loses every entry, also for n = 1 |
| TopP.CutIsKept | xv6-riscv/user/llama_core.c:1079-1088 | the entry at the cut is never below the cutoff |
| TopP.SortedAgree | xv6-riscv/user/llama_core.c:1089-1090 | two sortings of the same entries have the same probabilities, so the masses do not depend on how ties are ordered |
| TopP.Collect | xv6-riscv/user/llama_core.c:1077-1088 | exactly the entries not below the cutoff, in order |
| TopP.FindCut | xv6-riscv/user/llama_core.c:1091-1100 | the first place where the mass exceeds top-p, or the last entry, and the mass up to it |
| TopP.Draw | xv6-riscv/user/llama_core.c:1102-1111 | the place where the running mass passes the drawn value |
| Bpe.Split | xv6-riscv/user/llama_core.c:951-990 | the first tokens cover every byte of the text once and in order, one token per character or one per byte, and at most one per byte |
| Bpe.TakeByte | xv6-riscv/user/llama_core.c:951-990 | each byte joins the character being read or completes it, and no byte is dropped |
| Bpe.Flush | xv6-riscv/user/llama_core.c:975-989 | a finished character is covered by its token or byte by byte |
| Bpe.FallBack | xv6-riscv/user/llama_core.c:981-988 | a character that is not in the vocabulary is covered by one byte token per byte |
| Bpe.BestPair | xv6-riscv/user/llama_core.c:993-1008 | the first adjacent pair with the highest score, or none when none can be merged |
| Bpe.MergePair | xv6-riscv/user/llama_core.c:1014-1020 | the pair becomes one token and the rest moves up |
| Bpe.MergedText | xv6-riscv/user/llama_core.c:1014-1020 | a merge keeps the concatenation of vocabulary strings |
| Bpe.MergeAll | xv6-riscv/user/llama_core.c:992-1021 | the merge loop ends, keeps the concatenation, and leaves no mergeable pair |
| Bpe.PushHead | xv6-riscv/user/llama_core.c:930-940 | the start token and the leading space, each when asked for |
| Bpe.Encode | xv6-riscv/user/llama_core.c:905-1029 | the tokens spell what the covering of the text spells, no pair can be merged, the end token comes last, and at most length + 3 tokens are written |
| Wire.BeRound | xv6-riscv/user/distinf.h:105-117 | reading back a written word gives the word |
| Wire.BytesRound | xv6-riscv/user/distinf.h:105-117 | writing a word that was read gives the same bytes |
| Wire.WordOf | xv6-riscv/user/xdr.c:39-54 | the k-th word of an encoding is the k-th word encoded |
| Wire.WordsBack | xv6-riscv/user/xdr.c:57-72 | bytes whose words are known are the encoding of those words |
| Rpc.Xdr.constructor | xv6-riscv/user/xdr.c:143-161 | a stream at the start of the buffer |
| Rpc.Xdr.PutWord | xv6-riscv/user/xdr.c:57-72 | appends the word big-endian, or changes nothing when it does not fit |
| Rpc.Xdr.GetWord | xv6-riscv/user/xdr.c:39-54 | reads the next word, or stays when there is none |
| Rpc.Xdr.PutBytes | xv6-riscv/user/xdr.c:88-98 | appends the bytes exactly when they fit |
| Rpc.Xdr.GetBytes | xv6-riscv/user/xdr.c:75-85 | reads the next bytes exactly when they are there |
| Rpc.EncodeCall | xv6-riscv/user/rpc.c:208-255 | the wire form of a call, or an error exactly for a wrong version, too long a payload or too short a buffer |
| Rpc.EncodeReply | xv6-riscv/user/rpc.c:257-295 | the wire form of an accepted reply, or an error exactly for too long a payload or too short a buffer |
| Rpc.DecodeMsg | xv6-riscv/user/rpc.c:304-396 | for every buffer, the message the definition over its bytes reads, or an error |
| Rpc.CallBody | xv6-riscv/user/rpc.c:317-337 | the call part of that |
| Rpc.ReplyBody | xv6-riscv/user/rpc.c:339-375 | the reply part of that |
| Rpc.GetAuth | xv6-riscv/user/rpc.c:170-191 | for every buffer and place, the authentication field as the code's two lengths delimit it, or an error |
| Rpc.AuthStandardIff | xv6-riscv/user/rpc.c:170-191 | a field that the standard allows is read as the standard reads it if and only if its body is empty |
| Rpc.StandardCallIff | xv6-riscv/user/rpc.c:304-337 | a call in the standard's form with any credentials decodes to itself if and only if both bodies are empty |
| Rpc.CallTakes | xv6-riscv/user/rpc.c:304-337 | how many bytes of a datagram a decoded call accounts for |
| Rpc.GetRest | xv6-riscv/user/rpc.c:380-388 | the rest of the buffer is the payload, unless it is too long |
| Rpc.CallRoundTrip | xv6-riscv/user/rpc.c:208-255 | decoding an encoded call without credentials gives the call |
| Rpc.CallExact | xv6-riscv/user/rpc.c:304-337 | bytes that decode to such a call are its encoding |
| Rpc.ReplyRoundTrip | xv6-riscv/user/rpc.c:257-295 | decoding an encoded accepted reply gives it back if and only if its status is not PROG_MISMATCH, which does not decode |
| HopCodec.FillHop | xv6-riscv/user/distinf.c:354-371 | the payload is the seven words of the hop followed by the floats |
| HopCodec.PutWord | xv6-riscv/user/distinf.h:105-110 | four bytes, big-endian |
| HopCodec.ReadHop | xv6-riscv/user/distinf.c:391-410 | for every payload, dimension and session, the hop the definition accepts, or none |
| HopCodec.HopRoundTrip | xv6-riscv/user/distinf.c:354-410 | an encoded hop decodes to itself if and only if its float count is allowed and matches, and its session matches |
| HopCodec.HopExact | xv6-riscv/user/distinf.c:391-410 | only exact encodings are accepted |
| HopCodec.HopFits | xv6-riscv/user/distinf.c:354-371 | a hop fits an RPC payload if and only if it has at most 1017 floats |
| HopCodec.HopOverRpc | xv6-riscv/user/distinf.c:354-410 | a hop sent as a call arrives as the same hop |
| Checksum.InetChecksum | server/mcast_switch.py:70-84 | the one's complement of the one's complement sum of the 16-bit words, as long as the plain sum is within the bound of two folds |
| Checksum.ValueIsOnes | server/mcast_switch.py:70-84 | folding a plain sum twice is adding with end-around carry word by word |
| Checksum.TwoFolds | server/mcast_switch.py:82-83 | two folds bring every sum below 0x1_0000_FFFF into 16 bits without changing what it represents |
| Checksum.TwoFoldsTight | server/mcast_switch.py:82-83 | at that bound two folds are not enough |
| Checksum.OnesSumRepresents | server/mcast_switch.py:70-84 | the end-around sum represents the plain sum modulo 0xFFFF and is zero only for zero |
| Checksum.AllOnes | server/mcast_switch.py:70-84 | any even-aligned data with its checksum filled in sums to 0xFFFF |
| Checksum.IpHeaderSums | server/mcast_switch.py:112-117 | the header of a built frame sums to 0xFFFF |
| Checksum.UdpSums | server/mcast_switch.py:106-110 | pseudo-header and datagram of a built frame sum to 0xFFFF, and the checksum sent is never zero |
| Checksum.ParseRecovers | server/mcast_switch.py:240-258 | the fixed-offset parser gives back addresses, port and payload of every built frame |

## Left out

- The kernel and the network stack: fragmentation, rate limiting, resource limits and scheduling are not modelled.
- Floating point: a transformer block is an arbitrary function, and the matrix product and the sampler are over exact reals.
- RMS norm, softmax, RoPE, the exponential and the attention tasks of the pool.
- Shutdown of the pool, and the attention calls that share its flags.
- Memory order: flags shared by threads are sequentially consistent. In the ring a read of a neighbour's address, the delivery of an assignment, its pick-up by the inference thread, and the readiness, source and replay checks together with the commit are one step each; the commit itself is taken apart word by word in the mailbox model.
- Ring liveness: that a token arrives under loss, and that a shard-ready count means that every shard is loaded.
- Sequence numbers in the ring are unbounded; the 32-bit wrap of `g_seq` is excluded.
- The `hop` counter and the timing word of a hop: the code sets them and never checks them.
- Sampling in the ring is a function of the activation, as it is at temperature 0; random sampling is only in the sampler's own model.
- The address of the head worker is taken once per session; a change of its address within a session is not modelled.
- Transfer.FetchWindow: asks its caller for a buffer as long as the window, as the source does.
- Transfer.Context.HandleMissing: does not state that a retransmission is answered, because the server's handler reads an offset before it sets it.
- The server's request handlers, beyond the chunk and the packet they build, and the metadata exchange.
- Allocator.Heap.Malloc: sizes are unbounded; the 32-bit overflow of a request near 2^32 bytes is not modelled, and sbrk gives memory above all earlier memory.
- Allocator.Heap.Free: is for live blocks only; the source has no case for a null pointer.
- Alignment of blocks, and the contents of memory other than headers.
- Sha256.Hash: the bit count wraps modulo 2^64 as in the code, which the standard excludes for longer messages.
- Geometry.CkptGeometry: offsets are unbounded; 32-bit overflow for very large models is not modelled.
- Bpe.Encode: takes the vocabulary search as an exact lookup, and needs the byte tokens of the text's bytes, the begin token if it is asked for, and the space token if the text is not empty; the buffer has the three spare places its callers allocate.
- TopP.SampleTopP: takes the library sort as a sorted permutation, and answers none for an empty candidate list, where the source would read before its array.
- Shard.Shard.Load: its claim about the layers is for checkpoints that end more than 511 bytes below 4 GiB; a transfer is followed by a copy into the segment, which the source does chunk by chunk.
- HopCodec.FillHop: asks for a hop that fits the payload, since the source fills a fixed buffer; HopFits says which hops do.
- Rpc.GetAuth: a second length above the 400 bytes of the field is only told apart from the other cases.
- The RAM probe itself, the notices sent to neighbours and evicted workers, rate limiting of discovery calls, and the drop counters.
- `xdr_float`, `xdr_double` and the other XDR types that the modelled messages do not use.
- The tables of the software switch, ARP and the destination other than its own port.
- Misbehaviour flags, simulation drivers, logging, command lines, performance reports and the stock xv6 utilities.
