# The message channel of ibv

`Conn` sends messages over an RDMA queue pair. Each end owns two ring buffers:

- a **send ring** (`SendBuffer`), where concurrent tasks reserve regions, gather their slices,
  and from which RDMA writes are posted. Writes may complete in a different order from the
  reservations; a release task advances `done` strictly in reservation order;
- a **receive ring** (`RecvBuffer`), written by the peer. The peer allocates in it
  (`RemoteBufManager`), and the receiver, which is never told an address, finds every message
  from lengths alone. Released bytes are batched by `notify_release`, queued, carried back as
  the immediate value of some later message in the other direction, and replayed by `update`,
  which sees only a sum of lengths.

The project models both ends, the wire between them and every task of each end, and proves that
each direction is a FIFO queue of byte strings, that neither ring ever hands out bytes still in
use, that no release notice is lost, and exactly when the flow control and the wait loops work.

## How the model is built

- `Rings`: positions, laps and the allocator's invariant `Safe` (at most one wrap between `done`
  and `index`, and then `index < done`). `Reload`: the two loads of `done` that each wait test
  makes, and exactly when a test that passes is safe. `Notices`: `notify_release` and the
  batches. `Progress`: when a sender waits forever.
- `Protocol`: the two-endpoint state machine. A `System` is two `Endpoint`s; an `Action` is one
  atomic step of one task; `AnyRun` is any interleaving, `Run` one in which no wrap test races.
  The wire carries addresses, not data: a delivery reads the sender's memory at that moment and
  stores at the address the sender chose.
- `Invariant`, `SendRing`, `Frames`, `Steps`, `Transfers`, `Runs`: the invariant, that every action
  keeps it, and that a run keeps it exactly as long as no wrap test races. `Channel`, `Safety`,
  `Flow`: what follows for every run and reachable state. `Traces`, `WrapRaces`: longer pieces of
  runs, and runs that reach the race.
- `RecvBuffers`, `RemoteBufs`, `SendBuffers`, `Conns`, `Daemon`: the classes of the program with
  their fields, wait loops and machine integers. Their contracts use the same functions
  (`Ring.Step`, `NotifyRelease`, `Flat`, `WriteAt`) as the state machine. What other tasks do
  while a method waits is an argument (`interference`, `counted`, `meanwhile`), and it is
  arbitrary. `Conn.SendMsg` when nothing interferes, `Conn.RecvMsg` and `Conn.Release` do to the
  fields what the actions they stand for do to an endpoint (`Conn.Shows`), and so does
  `Poller.Dispatch` (`Poller.Shows`). `WaitLoops`: the wait loops of the state machine and those
  of the classes are the same function of the values that their loads see.

The actions, and the code each one stands for:

| action | code |
|---|---|
| LockIndex, LocalLoad, LocalReload | `SendBuffer::alloc`, src/types/mr.rs:242-271, one step per load of `done` |
| CopySlice | the gather loop, src/connection/conn.rs:94-100, one step per slice |
| Enter, Count, TakeNotice | the lock, the `sending` window and `get_release_length`, src/connection/conn.rs:102-108 |
| RemoteLoad, RemoteReload | `RemoteBufManager::alloc`, src/types/mr.rs:154-176, one step per load of `done` |
| Post | `fetch_add` and the posted write, src/types/mr.rs:177 and src/connection/conn.rs:113-114 |
| Deliver, Acknowledge | the queue pair: the write lands, and later its completion appears |
| Poll, Forward | `polling`, src/connection/daemon.rs:26-43 |
| Dequeue, Uncount, Receive | `recv_msg`, src/connection/conn.rs:120-127 |
| Release | `release`, src/connection/conn.rs:129-134 |
| FreeSend | the release task, src/types/mr.rs:216-229 |

History variables (`sent`, `got`, `data`, `sends`, `applied`, `notified`, `released`, `freed`,
`Notice.upto`) record the past; no step decides anything by them.

## Assumptions

- Memory is sequentially consistent. The queue pair delivers in order and exactly once, and the
  data of a write is visible when its receive completion is. Completions of writes may appear in
  any order. Posts succeed.
- There is one receiver task per connection, and it releases each message before it receives the
  next one. A message is shorter than 2^32 bytes, and a ring ends at least 2^32 before 2^64.
- In the wrap branch of both wait loops `done` is loaded twice, and a `Run` is an interleaving in
  which no test races: when the second load lets a message through, its value is past the end of
  the new region (`Protocol.Races`). This is a condition on runs and not part of any step, and it
  is the weakest one possible: `Reload.WrapReloadExact` shows it exact for one test and everything
  after it, `Runs.SafeExact` for whole interleavings, and `WrapRaces` reaches the race at both
  allocators. The classes make no such assumption; they report exactly this case as `raced`. The
  fit branch needs no assumption, and flow control (`Flow`) is proved for every interleaving.
- Initially all positions are at `left`, all receive requests are posted, and each end's remote
  ring is the other end's receive ring (src/types/qp.rs:213-228). Capacities, the window and the
  notify threshold are symbolic in the state machine.

## Findings

- The wrap tests of both `alloc` functions are not safe against their own second load.
  `WrapRaces.LocalRace` and `WrapRaces.RemoteRace` reach it, for equal buffers of any size a little
  above the notify threshold: the bytes handed out belong to a message that the queue pair has not
  yet read, and to one that the peer's application is reading.
- A receive queue can run dry, and a poller block on a full channel, as soon as the two `sending`
  counters add up to more than the window (`Flow.RunsDryExact`, `Flow.BlocksExact`). The discipline
  that one end never sends more than it has received prevents both, and allowing that end one
  message more does not (`Flow.DisciplineExact`).
- On an idle peer a message can wait forever. `Progress.ProgressExact` gives the exact bound on
  the message length: a third of the ring for the shipped sizes (`Progress.ShippedBound`), less if
  the ring is small.
- The comment at src/types/mr.rs:136 says that the index cannot catch up with `done`, the one at
  line 158 that it could; `index` equals `done` exactly when nothing is unreleased.

## Model

| member | source | states |
|---|---|---|
| Rings.Ring.Grant | src/types/mr.rs:154-179 | a grant whose wait test passes keeps at most one wrap between `done` and `index`, with `index < done` strictly when there is one |
| Reload.BlockedExact | src/types/mr.rs:159-176 | the wait test is exact: it holds a message back iff granting it would break that invariant |
| Rings.Ring.Advance | src/types/mr.rs:181-188 | any number of further releases keep the allocator's invariant, so `done` may advance at any moment |
| Rings.Ring.LiveApart | src/types/mr.rs:133-188 | under the invariant any two unreleased messages occupy disjoint addresses |
| Rings.Ring.FullIsNotEmpty | src/types/mr.rs:133-138 | `done` equals `index` exactly when no byte is unreleased, and exceeds it exactly when a wrap is pending |
| Rings.Ring.HalfIsAlwaysGranted | src/types/mr.rs:246-264 | on an empty ring a length passes the wait test at every position iff it is at most half the capacity |
| Reload.FitReload | src/types/mr.rs:168-176 | the fit test is safe whatever `done` does between its two loads and after them |
| Reload.WrapReload | src/types/mr.rs:159-167 | the wrap test is safe, now and after any further releases, if `done` did not go back between its two loads |
| Reload.SecondLoadExact | src/types/mr.rs:160-166 | a wrap test let through by its second load keeps the allocator safe iff the value of that load is past the end of the granted region |
| Reload.LaterExact | src/types/mr.rs:159-177 | a wrap test that passes leads to no overlap, by its own grant or a later one that does not race, iff the value of the second load is past the end of the region |
| Reload.WrapReloadExact | src/types/mr.rs:159-177 | both of these for the whole test, with any progress of `done` between its two loads |
| WrapRaces.LocalRace | src/types/mr.rs:248-255 | for every buffer size above the notify threshold, from 5 bytes on, a run reaches a second load of the send buffer's wrap test that hands out bytes of a posted message the queue pair has not read |
| WrapRaces.RemoteRace | src/types/mr.rs:159-167 | for every buffer size from threshold + 6 bytes on, a run reaches a second load of the remote wrap test that hands out bytes of a message the peer's application holds |
| Notices.BacklogIsBatch | src/types/mr.rs:347-352 | the flushed backlog, as one length, takes `update` from the first to the last of its messages: no batch crosses a wrap except with its first message |
| Notices.ReleaseOne | src/types/mr.rs:343-362 | each `notify_release` keeps the receiver's bookkeeping; it sends a notice iff the message wraps or the backlog reaches the threshold, and the notice is a batch of consecutive messages |
| Notices.BatchedReplay | src/types/mr.rs:343-362 | the notices of j releases are those that the lengths and the threshold determine, and applied in order by `update` they put `done` at the position of a message k, with k..j as the backlog |
| Progress.ProgressExact | src/types/mr.rs:159-176 | on an idle peer no message of at most m bytes ever waits forever iff 3m fits the ring and 2m fits it beside a backlog of threshold - 1 |
| Progress.ShippedBound | src/types/default.rs:10-13 | for 64 MiB buffers and a threshold of 8192 that is exactly m <= 22369621 |
| Reload.WaitLoopEnds | src/types/mr.rs:161-175 | a wait loop, over the values its loads see, ends at a test that passes, with the last load of that test |
| WaitLoops.LocalWaitExact | src/types/mr.rs:246-266 | in the state machine a reservation is made at exactly the load at which the wait loop over the values seen ends, and until then the request waits unchanged |
| WaitLoops.RemoteWaitExact | src/types/mr.rs:159-176 | the same for the peer's buffer: until then the sender keeps its place in the lock and its notice |
| SendRing.ReserveKeeps | src/types/mr.rs:247-270 | a reservation keeps the send ring: free region, flag in use, queued for release in order |
| SendRing.CopyKeeps | src/connection/conn.rs:94-100 | copying one slice extends the copied part of its own message and changes no other live region |
| SendRing.FreeKeeps | src/types/mr.rs:217-228 | the release task passes exactly the oldest unreleased reservation, and only if its write has completed |
| Runs.RunKeeps | src/connection/conn.rs:55-145 | the invariant of both directions holds in every state of every run, whatever actions both ends interleave |
| Runs.SafeExact | src/types/mr.rs:154-271 | over any interleaving at all, the four allocators stay safe in every state iff no wrap test races |
| Channel.RunRefines | src/connection/conn.rs:88-127 | every run refines two FIFO queues: only a post puts a message, only a receive takes one, and it takes the oldest |
| Channel.Delivery | src/connection/conn.rs:120-127 | in every reachable state the k-th message received is, byte for byte, the k-th message posted |
| Channel.RequestsKept | src/types/mr.rs:242-271 | over any interleaving, the i-th reservation is that of the i-th request, and a request that has no reservation yet is the last one and waits |
| Channel.Provenance | src/connection/conn.rs:88-115 | every message posted is the concatenation of the slices of one request, no two messages come from the same request, and every request is waiting, being copied, in the lock, or a message |
| Channel.HeldStable | src/connection/conn.rs:119-134 | while the application holds a received buffer, its address and its bytes do not change, whatever either end does |
| Safety.ViewIsBehind | src/types/mr.rs:181-188 | the sender's stale `done` is the position of a message the peer has released |
| Safety.GrantedRegionIsFree | src/types/mr.rs:154-179 | in every reachable state the region `alloc` returns is inside the peer's buffer and overlaps no unreleased message |
| Safety.UnreleasedApart | src/types/mr.rs:154-188 | posted, unreleased messages never share a byte of the receive buffer |
| Safety.AddressAgreement | src/types/mr.rs:320-333 | the address in every write on the wire and the address of the next `read` are the start of the same-numbered message |
| Safety.SendRingReplay | src/types/mr.rs:216-229 | `done` has passed exactly a prefix of the reservations, all completed, and `index` all of them |
| Safety.SendRegionsApart | src/types/mr.rs:242-271 | unreleased regions of the send buffer are disjoint and inside it, for any completion order |
| Safety.NeverConfused | src/types/mr.rs:133-188 | outside the instant between a grant and its post, no reachable state lets an allocator take a full ring for an empty one |
| Safety.LocalRaceExact | src/types/mr.rs:248-255 | in a reachable state, a passing wrap test of the send buffer leads to no overlap, now or later, iff it does not race |
| Safety.RemoteRaceExact | src/types/mr.rs:159-167 | the same for the peer's buffer, by what the notices applied so far cover |
| Safety.ReleasedBytesConserved | src/connection/conn.rs:101-145 | released bytes equal those applied, plus those in notices queued, held, on the wire and received, plus the backlog, and the notices are consecutive |
| Safety.CoalescingExact | src/types/mr.rs:343-362 | in every reachable state which released messages are covered by notices follows from the lengths and the threshold alone |
| Safety.BacklogIsBounded | src/types/mr.rs:343-362 | the receiver's backlog stays inside the ring, and below the threshold unless it is one message that wrapped |
| Safety.DrainedRemoteGrants | src/types/mr.rs:159-176 | when everything is released and every notice applied, a sender within the bound leaves its wait loop in one pass |
| Safety.CompletedIsFreeable | src/connection/daemon.rs:36-42 | no completion is lost: the oldest write, once acknowledged and polled, can be released |
| Safety.DrainedLocalGrants | src/types/mr.rs:247-264 | on an empty send ring any length up to half of it is reserved in one pass |
| Safety.NumbersFit | src/types/mr.rs:320-362 | the length of every message on its way, every notice on its way, the backlog and every position are within their ring, and the next slice read is inside the buffer |
| Flow.CountersConserved | src/connection/conn.rs:102-122 | the two `sending` counters together count exactly the messages under way, and neither leaves -window .. window |
| Flow.RequestsConserved | src/connection/conn.rs:65-68 | posted receives plus delivered, unpolled messages always equal the number posted at the start |
| Flow.RequestResponse | src/connection/daemon.rs:28-35 | in request/response use no receive queue runs dry and no poller is blocked by a full channel, at either end |
| Flow.DisciplineExact | src/connection/conn.rs:102-107 | limiting one end to b messages more than it has received keeps all receive queues served iff b is at most 0, and keeps all pollers from blocking iff b is at most 0 |
| Flow.TwiceTheWindow | src/connection/conn.rs:36-38 | without that discipline the exact bound on messages under way in one direction is twice the window |
| Flow.RunsDryExact | src/connection/conn.rs:65-68 | from any start, counters p and q of the two ends allow a message to find no receive request iff p + q exceeds the window, in any interleaving |
| Flow.BlocksExact | src/connection/daemon.rs:28-35 | from any start, counters p and q of the two ends allow a poller to be blocked by a full channel iff p + q exceeds the window |
| Flow.StuckExact | src/connection/daemon.rs:28-35 | in a reachable state whose receiver stops, deliveries and the poller can end in a blocked poller iff more than a window of messages is on the wire, delivered, held or in the channel |
| Flow.DryState | src/connection/conn.rs:102-107 | for any counters p and q within the window whose sum exceeds it, a run without a race, on buffers of any size, reaches a message that finds no receive request |
| Flow.StuckState | src/connection/daemon.rs:28-35 | and another one reaches a poller blocked by a full channel |
| RecvBuffers.RecvBuffer.constructor | src/types/mr.rs:306-317 | all positions start at the buffer's address |
| RecvBuffers.RecvBuffer.Read | src/types/mr.rs:320-333 | returns the bytes at the start computed from the length and moves past them, without overflow or leaving the buffer |
| RecvBuffers.RecvBuffer.NotifyRelease | src/types/mr.rs:343-362 | updates the fields and returns the notice as `Notices.NotifyRelease` does, without overflow |
| RemoteBufs.RemoteBufManager.constructor | src/types/mr.rs:144-152 | the allocator starts empty on exactly the given region |
| RemoteBufs.RemoteBufManager.Update | src/types/mr.rs:181-188 | a batch moves `done` to the position after its last message |
| RemoteBufs.RemoteBufManager.Alloc | src/types/mr.rs:154-179 | with any notices arriving between any two loads: each load sees exactly what has arrived, the call returns at the first test that passes, and the granted region keeps the ring safe iff that test did not race |
| SendBuffers.SendBuffer.constructor | src/types/mr.rs:204-240 | the send ring starts empty |
| SendBuffers.SendBuffer.Finish | src/connection/daemon.rs:36-42 | clears exactly the flag of the finished write |
| SendBuffers.FlagsExact | src/connection/daemon.rs:36-42 | while a task waits, a flag is cleared iff its write finished |
| SendBuffers.FreedExact | src/types/mr.rs:216-229 | and `done` passes no reservation whose flag is not cleared |
| SendBuffers.SendBuffer.ReleaseTask | src/types/mr.rs:216-229 | passes reservations oldest first, up to and not including the first one still in use |
| SendBuffers.SendBuffer.AddToRelease | src/types/mr.rs:273-279 | a new flag in use joins the release queue behind all earlier ones |
| SendBuffers.SendBuffer.Alloc | src/types/mr.rs:242-271 | with any completions and releases between any two loads: exactly those happen to the flags and to `done`, the call returns at the first test that passes, and the reserved region keeps the ring safe iff that test did not race |
| Conns.GatherCopy | src/connection/conn.rs:93-100 | stores the slices in order from the region's start, ends behind them, and changes no other byte |
| Conns.TotalLength | src/connection/conn.rs:89-90 | the sum of the slice lengths is the length of their concatenation |
| Conns.Conn.GetReleaseLength | src/connection/conn.rs:136-145 | takes the oldest notice, or 0 when there is none |
| Conns.Conn.WaitForWindow | src/connection/conn.rs:103-106 | with messages counted off before any load, it ends at the first load below the window, and only there |
| Conns.Conn.Fill | src/connection/conn.rs:88-100 | reserves a region and gathers the whole message into it and nowhere else, or waits with nothing changed but what completed meanwhile |
| Conns.Conn.PostLocked | src/connection/conn.rs:101-115 | with messages counted off during both waits: counts, takes the oldest notice, gets a region of the peer's buffer and posts one write with all of these |
| Conns.Conn.SendMsg | src/connection/conn.rs:88-117 | the posted write names the region that holds exactly the message, a granted remote region and the oldest notice; undisturbed, the call does what the actions from LockIndex to Post do, and where they are possible |
| Conns.ReservedShows | src/connection/conn.rs:88-100 | an undisturbed reservation and copy take the send buffer where the actions LockIndex to CopySlice take it, and only where these are possible |
| Conns.PostedShows | src/connection/conn.rs:101-115 | and so does the part under the lock, with the same write |
| Traces.SendSlices | src/connection/conn.rs:88-117 | for a message of any slices, wherever both wait tests pass and the window is open, those actions lead from one reachable state to the other |
| Conns.Conn.RecvMsg | src/connection/conn.rs:120-127 | counts off one message, applies its notice if it is not 0, reads the message, and so does what Dequeue, Uncount and Receive do |
| Conns.Conn.Release | src/connection/conn.rs:129-134 | releases one buffer and queues the notice that becomes due, also a notice of 0, as the action Release does |
| Daemon.MessageAt | src/connection/daemon.rs:28-35 | each received message is forwarded as its length and immediate value, behind the items of exactly the messages before it |
| Daemon.ItemFrom | src/connection/daemon.rs:28-35 | and nothing else is forwarded |
| Daemon.Poller.Dispatch | src/connection/daemon.rs:12-55 | one receive is re-posted and one item forwarded, in order, per message, and exactly the flags of finished writes are cleared, up to a full channel: what the actions Poll and Forward do |

## Left out

- Device, protection domain, completion queue and queue pair creation, memory registration, work requests: foreign calls, replaced by the assumed wire.
- TCP handshake, `Server`, accept and connect loops, serialization of endpoints: their result is the initial state.
- Conversions from integers to enums: case tables.
- Raw-pointer ownership, `Drop`, weak memory orderings, cancellation, sleeps and time.
- `notify` in src/connection/daemon.rs:59-79, which its comment marks as not working.
- Error completions and failed posts, which the code logs or ignores.
- Unconditional liveness: a notice travels only with a message of the other direction, and a sender takes it before it may wait for space, so two full directions can wait on each other. Only the conditional results above hold.
- Bounds of the release queue, of the notice queue, of the send queue and of the completion queue: the state machine lets them grow, which allows more runs.
- Conns.Conn.SendMsg: requires a message shorter than 2^32 bytes, because the code truncates the total to u32 and would then copy past the region.
- Conns.Conn.RecvMsg: requires the item at the head of the channel to be one that the peer sends, a length that fits and a notice that is a batch; the state machine shows that every item is.
- RecvBuffers.RecvBuffer.Read: requires a length that fits the buffer, because the slice panics otherwise; `Safety.NumbersFit` shows it always fits.
- RemoteBufs.RemoteBufManager.Update: requires the notice to be a batch of the peer, as every notice in a run is.
- RemoteBufs.RemoteBufManager.Alloc: a wait loop is not shown to end; it ends or goes on as long as nothing more arrives.
- Protocol.Run: after a wrap test has raced, nothing is claimed of an interleaving but that its allocators are no longer safe (`Runs.SafeExact`), that requests are kept (`Channel.RequestsKept`) and what `Flow` says.
