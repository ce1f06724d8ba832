# kevy, verified

kevy is a Redis-compatible store with a Go client, a leader-election crate and a set of gates and
measuring tools around it. This project models, in Dafny, the parts of it whose correctness is a
matter of whole runs rather than of one line, and proves what they promise.

- **RESP** (`Bytes`, `Resp`, `RespLaws`, `RespPrint`, `RespParser`, `RespCanonical`, `RespGrammar`,
  `RespFaults`, `RespConn`): the
  incremental RESP2/RESP3 reply parser, the command encoder, the pipeline and the connection buffer.
  The parser is a set of recursive functions; the source's loops are methods proved to compute them.
- **Store registry** (`Registry`): the process-global reference-counted map, with its unlocked open
  between two critical sections, as a step system over any number of callers and keys.
- **Election** (`Elector`, `ElectSafety`, `ElectHeard`, `ElectNode`, `ElectRuns`,
  `ElectCounterexample`, `ElectSaturation`): the elector of one node, and a
  cluster of them over a network that loses, delays, duplicates and reorders messages while nodes
  crash and restart from their durable record.
- **Cluster routing** (`Crc`, `Cluster`): the table-driven CRC-16 against the bit-serial one, hash
  tags, the slot table and the connection that a keyed request reaches.
- **Pub/sub** (`Subscriber`, `EmbSub`): the ack-waiting consumer over a connection, and the
  round-robin poller over embedded subscriptions.
- **Bulk write** (`SetMany`): the arena, the pointer and length arrays, and the chunking loop.
- **Rank tree** (`RankTree`, `RankTreeRemove`, `RankTreeSet`, `RankTreeIter`): the counted B-tree behind
  sorted sets, with insertion, removal, rank, select, bounds and the iterator.
- **Tools** (`Winnow`, `NodeOrder`, `NodeOrderExact`, `NodeOrderText`, `Ratchet`, `RatchetRuns`,
  `Screen`, `ScreenBytes`): clone fingerprints, the canonical form of
  cluster-manager output, the symbol ratchet and the terminal screen.

Code that is expressions and recursion in the source is functions here. Code that updates state is a
class or a loop, and its contract ties it to such a function, about which the laws are then proved.
The functions are in turn pinned from outside, by statements that do not name them: a grammar of the bytes the
parser takes, the messages a node was sent, the keys and values a caller passed, the bytes written to a screen.
Every lemma carries `{:induction false}`: an inductive proof is written out, and none rests on Dafny's
automatic induction. `dafny verify dfyconfig.toml` checks the whole project.

## What the proofs found

Where a promise does not hold of the code as written, the code is modelled as it is. There is then a
concrete input on which the promise fails, and a statement of exactly when it holds.

- A length header whose payload would end past the largest 64-bit integer wraps around, and the slice panics
  instead of asking for more bytes (`RespFaults.OverflowingLengthPanics`, `RespFaults.NestedOverflowPanics`). The
  parser panics exactly when it reaches such a header, however deep (`RespFaults.ParseReplyFailsExactly`).
- The clone atlas documents that any shared run of K + W - 1 tokens is found. Its guard wants one
  token more, so a stream that is exactly such a run has no fingerprint; with at least K + W tokens on
  both sides the promise holds, and only then (`Winnow.SharedRunGivesSharedPrint`, `Winnow.ShortestRunIsMissed`).
- A slot range may end above 16383, since its row is only checked to fit 16 bits; building the table then
  panics, exactly in that case (`Cluster.RowPastTheTable`, `Cluster.BuildTopology`).
- A primary that accepts an offer moves to the new epoch and keeps its role, so two nodes can be in the
  primary role of one epoch (`ElectCounterexample.TwoPrimariesShareAnEpoch`). Only one of them was
  elected in it, and which one is decided by the saved vote (`ElectSafety.PrimaryIsElectedExactlyWhenLoyal`).
  The protocol document's promise, that only one election succeeds per epoch, holds in every run
  (`ElectSafety.ElectionSafety`), given that a message and the tick after it are one step, as the
  transport runs them (`ElectSafety.UncountedTallyStealsTheEpoch`), for every epoch but the last 64-bit one,
  where it fails (`ElectSaturation.TwoWinnersOfTheLastEpoch`).
- The ratchet takes exemptions from the stored baseline so that the run being judged cannot widen them,
  but an update stores the observed document's list. Two updates can so exempt a symbol and then grow it
  (`Ratchet.ExemptionsCanBeWidened`). The next update can grow a symbol exactly when the stored list
  exempts it (`Ratchet.GrowthNeedsAnExemption`), and a symbol that no list exempts is safe
  (`Ratchet.HeldSymbolsNeverGrow`).
- An envelope is compared with the stored baseline only when both have one identity; one of another identity
  replaces it and grows a held symbol without a reason (`RatchetRuns.AnotherIdentityIsNotCompared`). Without a
  reason it is stored exactly when nothing held grows or the identities differ (`RatchetRuns.EnvelopeWithoutReason`).
- An accepted envelope may raise the held total without a delta; the delta accounting survives it exactly when its
  total is no larger (`RatchetRuns.EnvelopeKeepsDeltasExactly`), and over mixed runs the history still bounds the
  total (`RatchetRuns.MixedRunsAreBounded`).
- The node-order canonical form is not idempotent on some texts without a final newline
  (`NodeOrder.UnterminatedIsNotIdempotent`). It is idempotent on a text exactly when that does not end in a run of
  reports whose greatest report trails a blank line and is there twice (`NodeOrderExact.TextIdempotentExactly`).

Code and documents also differ in two smaller places, and the model follows the code. The protocol
document has a voter accept every offer whose offset is not below its own; the code also refuses an equal
offset from a higher id. It has a node demote on any heartbeat of a newer epoch; the code does so only
when the sender claims to be the primary.

## Model

| member | source | states |
|---|---|---|
| `Bytes.ParsesExactlyItsSpellings` | bindings/go/reply.go:202-205 | a text parses as n exactly when n fits 64 bits and the text is an optional sign, some zeros and the digits of n |
| `Bytes.PrintIntParses` | bindings/go/resp_conn.go:51-63 | the decimal text of every 64-bit integer reads back as that integer |
| `Resp.FindCrlf` | bindings/go/reply.go:180-187 | the result is the first CRLF at or after the start, or -1 exactly when there is none |
| `Resp.ParseItems` | bindings/go/reply.go:243-256 | a parsed run has exactly the declared count of replies, took at least three bytes each and no more than the buffer holds; terminates for every declared count |
| `RespLaws.ParseReplyStable` | bindings/go/reply.go:138-176 | a buffer that yields a reply or an error yields the same reply with the same consumed count, or an error again, on every extension, through nested aggregates, maps and attributes |
| `RespLaws.NeedMoreOnPrefixes` | bindings/go/reply.go:134-176 | a buffer that needs more bytes has only prefixes that need more bytes |
| `RespLaws.ParseReplyOfPrefix` | bindings/go/reply.go:138-176 | the bytes past the consumed count are never looked at: cutting them off leaves the outcome as it was |
| `RespLaws.ReplyAppearsExactlyWhenComplete` | bindings/go/reply.go:134-176 | on the way to a reply, every prefix shorter than the consumed count asks for more, and every longer one gives the reply |
| `RespLaws.ItemsStable` | bindings/go/reply.go:229-258 | extension stability for a run of any number of items |
| `RespLaws.ReplyBound` | bindings/go/reply.go:229-291 | a reply consumes 3 to len(buf) bytes and has at most a third as many nodes, whatever counts its headers declare |
| `RespPrint.PrintedParses` | bindings/go/reply.go:138-374 | parsing a printed well-formed reply, followed by any bytes, gives that reply and consumes exactly its bytes; every RESP2 and RESP3 kind, any nesting |
| `RespPrint.PrintedAllParse` | bindings/go/reply.go:229-258 | the same for a run of replies |
| `RespPrint.BlobParses` | bindings/go/reply.go:209-227 | a length-prefixed payload comes back whole, CRLF bytes inside it included |
| `RespPrint.AttributesAreTransparent` | bindings/go/reply.go:356-374 | any number of leading attribute frames are consumed and change nothing else about the reply |
| `RespParser.CapHint` | bindings/go/reply.go:376-387 | the preallocated capacity is at most the declared count and at most the bytes that remain |
| `RespParser.FindCrlfScan` | bindings/go/reply.go:180-187 | the scanning loop returns the first CRLF at or after its start, or -1 |
| `RespParser.ReadHeader` | bindings/go/reply.go:229-241 | the header that aggregates, maps, bulks and verbatim strings share: need-more, malformed, or the count and where the body starts |
| `RespParser.AggregateLoop` | bindings/go/reply.go:229-258 | the item loop computes the recursive parser, and its appends never outgrow the capacity it chose |
| `RespParser.MapLoop` | bindings/go/reply.go:260-291 | the pair loop computes the recursive parser with keys and values alternating in wire order |
| `RespParser.PairLoop` | bindings/go/reply.go:269-290 | the loop body of mapReply: two parses a pair, every failure of either passed on, capacity never outgrown |
| `RespParser.Parse` | bindings/go/reply.go:138-176 | the dispatch on the tag byte computes the recursive parser on every buffer, unknown tags and the empty buffer included |
| `RespCanonical.ParsedFits` | bindings/go/reply.go:138-374 | every parsed reply is well formed and prints in no more bytes than it took, so the printer is as short as anything the parser accepts |
| `RespCanonical.ParsePrintParse` | bindings/go/reply.go:138-374 | parse, print, parse again: the second parse gives the first reply; the reply parser has one canonical spelling for each value |
| `RespGrammar.ParserIsTheGrammar` | bindings/go/reply.go:138-374 | the parser against a grammar that does not mention it: a buffer gives reply r and u bytes if and only if its first u bytes spell r, where a spelling covers every sign and padding of a header, all four null forms, the two uninspected bytes after a payload, and attributes anywhere |
| `RespGrammar.DerivationParses` | bindings/go/reply.go:138-374 | every frame of the grammar, whatever follows it, is parsed to its meaning and takes exactly its own bytes |
| `RespGrammar.ParseDerives` | bindings/go/reply.go:138-374 | every parse is explained by a frame that is written exactly as the bytes it took |
| `RespGrammar.SpellingsDelimitThemselves` | bindings/go/reply.go:138-374 | no byte string spells two replies, and no spelling is a proper prefix of another |
| `RespGrammar.NegativeCountIsNil` | bindings/go/reply.go:209-242 | every negative count, however it is written, is nil after $, !, * and ~, and takes the header alone |
| `RespGrammar.NegativeCountIsMalformed` | bindings/go/reply.go:238-268 | after the push, map and attribute tags it is a protocol error |
| `RespGrammar.HeaderIsNumber` | bindings/go/reply.go:229-237 | a header is exactly a tag, a 64-bit decimal in one of its spellings and a CRLF |
| `RespFaults.ParseReplyAnswersExactly` | bindings/go/reply.go:138-374 | all four answers, each with its exact condition: a reply where the buffer starts with a spelled one, a panic or an error where the walk over the frames reaches an oversized or a broken one, and otherwise a request for more bytes |
| `RespFaults.ParseReplyFailsExactly` | bindings/go/reply.go:138-374 | parseReply panics, or reports a protocol error, exactly when, following the frames in wire order through aggregates, maps and attributes, it reaches an oversized, or a broken, frame |
| `RespFaults.LeafFailsExactly` | bindings/go/reply.go:138-353 | the same for one frame that holds no others: unknown tags, bad numbers, short or unmarked verbatims, bad doubles, booleans and nulls |
| `RespFaults.FirstIsHere` | bindings/go/reply.go:229-291 | what that walk finds is a frame with the fault |
| `RespFaults.PayloadPanicsExactlyOnOverflow` | bindings/go/reply.go:220-226 | the 64-bit sums wrap, the length test passes and the slice bounds fail exactly when start + n + 2 does not fit an int |
| `RespFaults.BlobPanicsExactlyOnOverflow` | bindings/go/reply.go:209-227 | the same for a whole bulk, blob error or verbatim frame |
| `RespFaults.PanicNeedsAHugeHeader` | bindings/go/reply.go:209-227 | a panic needs a length header in the buffer that declares more than the largest int less the buffer and two |
| `RespFaults.OverflowingLengthPanics` | bindings/go/reply.go:217-226 | a bare header of each of the three tags that panics |
| `RespFaults.NestedOverflowPanics` | bindings/go/reply.go:229-258 | one inside an array panics as well |
| `RespConn.ReadOneFollowsStream` | bindings/go/resp_conn.go:108-127 | readOne over any cuts of the stream gives what one parse of the whole stream gives, errors included, and where the stream falls short the fault says whether it ended or broke; bytes consumed followed by the bytes left are the bytes received |
| `RespConn.ReadManyFollowsStream` | bindings/go/resp_conn.go:88-106 | n replies read off a connection are the first n replies of its whole byte stream, in order, and nothing is lost or read twice |
| `RespConn.SegmentationIndependence` | bindings/go/resp_conn.go:88-127 | two connections with the same bytes, however buffered and however cut into reads, give the same answer and leave the same unread bytes |
| `RespConn.PrintedRepliesArrive` | bindings/go/resp_conn.go:88-127 | a server that prints rs is heard as rs, whatever the cuts and whatever follows |
| `RespConn.EncodeCommand` | bindings/go/resp_conn.go:51-63 | the loop appends the printed array of bulk strings that stands for the argument vector |
| `RespConn.BatchDecodes` | bindings/go/pipeline.go:22-30 | a pipelined batch decodes to exactly the queued argument vectors, whatever bytes the arguments hold |
| `RespConn.PipelineBuf.Cmd` | bindings/go/pipeline.go:22-30 | the buffer stays the encoding of the queued commands and their count; an empty command is dropped and poisons the batch |
| `RespConn.Conn.ReadOne` | bindings/go/resp_conn.go:108-127 | the loop over rbuf and the socket: succeeds exactly when the unread stream holds a reply, returns it, and leaves the stream behind it; only an I/O fault closes |
| `RespConn.Conn.Roundtrip` | bindings/go/resp_conn.go:88-106 | one write of the whole wire and then n replies, or the first failure with the replies before it dropped; a write that fails has sent a prefix, and closes |
| `RespConn.Conn.Write` | bindings/go/resp_conn.go:195-207 | the encoded command is sent, or a prefix of it and the connection closed, or nothing if it was closed before |
| `RespConn.Conn.ReadReply` | bindings/go/resp_conn.go:209-218 | a closed connection is refused and left as it was; otherwise the first reply of the unread stream |
| `RespConn.Conn.Request` | bindings/go/resp_conn.go:65-78 | one encoded command out, one reply back |
| `RespConn.SendPipeline` | bindings/go/pipeline.go:42-56 | a poisoned or empty batch sends nothing; any other is one write of all commands, and the replies come back in queue order |
| `RespConn.Conn.Transmit` | bindings/go/resp_conn.go:94-96 | all the bytes go out, or those before the error |
| `Registry.KeysIdentifyTargets` | bindings/go/url.go:30-41 | two targets have one registry key exactly when they are the same target, and only anonymous memory has the empty key |
| `Registry.SharedRegistry.Lookup` | bindings/go/url.go:133-143 | a hit exactly when somebody holds the key; the caller then holds the open store that every holder of the key holds; the registry invariant is kept |
| `Registry.SharedRegistry.OpenStore` | bindings/go/url.go:144-147 | the new store is open and nobody but this caller can reach it; a failed open changes nothing; the invariant is kept |
| `Registry.SharedRegistry.Register` | bindings/go/url.go:148-161 | the caller ends up with the store that every holder holds; it is the own one exactly when nobody held the key, and otherwise the own one is closed; the invariant is kept |
| `Registry.SharedRegistry.Release` | bindings/go/url.go:177-195 | the store is closed exactly when it was anonymous or nobody else holds the key; the invariant is kept |
| `Registry.StepKeepsInv` | bindings/go/url.go:133-195 | each atomic step of any caller keeps the counts, the sharing, single ownership and the close counts |
| `Registry.EveryScheduleKeepsInv` | bindings/go/url.go:133-195 | every interleaving of any number of callers and keys keeps the invariant |
| `Registry.RegistrySafety` | bindings/go/url.go:133-195 | in every reachable state refs is the number of holders, all holders of a key hold the registered store, and no held store is closed |
| `Registry.HoldersShareByKey` | bindings/go/url.go:115-161 | two callers hold one store exactly when they asked for the same shared key |
| `Registry.CallersAreNeverStuck` | bindings/go/url.go:133-195 | the next step of every unfinished caller is always possible |
| `Registry.RegistryConservation` | bindings/go/url.go:133-195 | no store is closed twice; once every caller is done the map is empty and every store ever opened, lost races and anonymous ones included, was closed exactly once |
| `ElectNode.ElectorNode.constructor` | crates/kevy-elect/src/elector.rs:204-232 | a first start is one node of a cluster in which nothing has happened, and the cluster invariant holds |
| `ElectNode.ElectorNode.Pump` | crates/kevy-elect/src/transport_loops.rs:299-306 | a message and its tick on the mutable fields are one step of the cluster: the invariant is kept, the epoch does not fall, what is sent is logged, and no epoch has two winners |
| `ElectNode.ElectorNode.Timeout` | crates/kevy-elect/src/transport_loops.rs:312-316 | the same for a tick without a message |
| `ElectNode.ElectorNode.Restart` | crates/kevy-elect/src/elector.rs:300-310 | a restart keeps the durable epoch and vote, loses everything else, and keeps the invariant |
| `ElectNode.ElectorNode.SetOffset` | crates/kevy-elect/src/elector.rs:325-327 | the offset changes and the invariant is kept |
| `ElectNode.ElectorNode.EmitHeartbeats` | crates/kevy-elect/src/elector_tick.rs:13-37 | the loop over the peers sends to exactly those that are due, itself excepted, and records when |
| `ElectNode.ElectorNode.IsBestCandidate` | crates/kevy-elect/src/elector_inbound.rs:202-232 | true exactly when no live peer other than the primary is ahead by offset, then by lower id |
| `ElectNode.StepIsSafe` | crates/kevy-elect/src/transport_loops.rs:257-322 | any step of any node keeps the invariant, lowers no epoch and leaves at most one winner an epoch |
| `ElectSafety.StepKeepsInv` | crates/kevy-elect/src/transport_loops.rs:294-322 | one message-and-tick, timeout, crash or restart of one node keeps the invariant of the whole cluster |
| `ElectSafety.EveryRunKeepsInv` | crates/kevy-elect/src/transport_loops.rs:257-322 | every run keeps it, with messages lost, delayed, duplicated and reordered and nodes crashing between a message and its tick |
| `ElectSafety.OneVotePerEpoch` | crates/kevy-elect/docs/protocol.md:108-112 | no node votes for two candidates in one epoch, restarts included |
| `ElectSafety.ElectionSafety` | crates/kevy-elect/docs/protocol.md:237-239 | in every run at most one node announces itself primary of an epoch |
| `ElectSafety.OneElectedPerEpoch` | crates/kevy-elect/docs/protocol.md:60-72 | the same with a node that booted as primary counted as elected in the first epoch |
| `ElectSafety.PrimaryIsElectedExactlyWhenLoyal` | crates/kevy-elect/src/elector_inbound.rs:93-130 | in every run, a node in the primary role is the elected primary of its epoch exactly when its saved vote is not for another node |
| `ElectSafety.SharedEpochMeansAVoteWasCast` | crates/kevy-elect/src/elector_inbound.rs:93-130 | two primaries share an epoch only if one of them has voted for another node in it |
| `ElectSafety.EpochsNeverFall` | crates/kevy-elect/docs/protocol.md:62-67 | no step, restarts included, lowers any node's epoch |
| `ElectSafety.UncountedTallyStealsTheEpoch` | crates/kevy-elect/src/elector_inbound.rs:93-149 | why a message and its tick must be one step: a candidate whose full tally was not yet counted would announce the epoch it has just voted away |
| `ElectSafety.VotesFollowTheOrder` | crates/kevy-elect/src/elector_inbound.rs:93-130 | in every run, a node votes for an offer exactly when its epoch is newer and the node is not itself ahead of the candidate |
| `ElectSafety.NoMutualVotes` | crates/kevy-elect/src/elector_inbound.rs:93-130 | of two nodes that offer their own offsets, at most one can get the other's vote |
| `ElectSafety.TickOffersWhenStanding` | crates/kevy-elect/src/elector_tick.rs:42-102 | a tick sends an offer exactly when the node may stand |
| `ElectSafety.NoElectionWhilePrimaryIsHeard` | crates/kevy-elect/src/elector_tick.rs:42-73 | no tick offers while the known primary was heard within the down-after time |
| `ElectSafety.NoElectionBehindALivePeer` | crates/kevy-elect/src/elector_inbound.rs:202-232 | no tick offers while a live peer is ahead in the candidate order |
| `ElectSafety.LapsedCandidacyBacksOff` | crates/kevy-elect/src/elector_tick.rs:104-138 | a candidacy without quorum falls back to replica and does not stand again before its backoff and the jitter drawn for it have passed |
| `ElectSafety.OfferKeeps` | crates/kevy-elect/src/elector_inbound.rs:93-130 | an accepted offer casts a vote that is the node's first of that epoch, for a node that stands in it, and keeps the invariant with the vote in the log |
| `ElectSafety.AcceptKeeps` | crates/kevy-elect/src/elector_inbound.rs:132-149 | a counted vote is one that was cast for this candidate in this epoch |
| `ElectSafety.MessageKeeps` | crates/kevy-elect/src/elector.rs:445-462 | so does every deliverable message |
| `ElectSafety.StartElectionKeeps` | crates/kevy-elect/src/elector_tick.rs:75-102 | standing offers in an epoch the node has not voted in, below the last epoch, and keeps the invariant |
| `ElectSafety.FinishKeeps` | crates/kevy-elect/src/elector_tick.rs:104-138 | an announcement is backed by a majority of logged votes, and no quorum is left uncounted |
| `ElectSafety.TickKeeps` | crates/kevy-elect/src/elector.rs:418-427 | heartbeats, candidacy and its end, in that order, keep the invariant |
| `ElectHeard.HeartbeatIsRecorded` | crates/kevy-elect/src/elector_inbound.rs:34-51 | a heartbeat is recorded whole, under its sender and at its time: epoch, role and offset; no other view changes |
| `ElectHeard.HeartbeatMovesExactly` | crates/kevy-elect/src/elector_inbound.rs:52-91 | primary, role or epoch change exactly for a primary's heartbeat of a newer epoch, or of the same epoch where a replica knows no primary; the node then follows the sender, a newer epoch is saved without a vote, a candidate drops its votes, and nothing else changes |
| `ElectHeard.AnnouncementMovesExactly` | crates/kevy-elect/src/elector_inbound.rs:151-182 | an announcement is taken exactly when its epoch is newer, or the same with another primary; the node then follows it, saves it as its vote, and drops its own candidacy; otherwise nothing changes |
| `ElectHeard.OfferIsAnsweredExactly` | crates/kevy-elect/src/elector_inbound.rs:93-130 | an offer is voted for exactly when its epoch is newer, the node is not ahead and has not voted in it; the vote is saved and remembered and one ACCEPT goes to the candidate; otherwise nothing changes |
| `ElectHeard.VoteIsCountedExactly` | crates/kevy-elect/src/elector_inbound.rs:132-149 | a vote is counted exactly by a candidate of its epoch |
| `ElectHeard.RestartKeepsExactly` | crates/kevy-elect/src/elector.rs:300-310 | a restart keeps the durable record and the node's settings and nothing else, and remembers a saved vote as cast |
| `ElectHeard.ViewsAreWhatWasHeard` | crates/kevy-elect/src/elector_inbound.rs:34-51 | in every run a node's views are exactly the last heartbeats that reached it since it started |
| `ElectHeard.OffersFollowWhatWasHeard` | crates/kevy-elect/src/elector_tick.rs:42-102 | in every run a step offers a candidacy if and only if it ticks and the messages heard so far, that step's own included, leave the replica past its backoff, without a primary heard within down_after and without a better peer heard within it |
| `ElectHeard.NoOfferAfterAHeartbeat` | crates/kevy-elect/src/elector_tick.rs:42-73 | in every run, after a heartbeat of p at time t, no step of that node before t + down_after offers while p is its primary, whatever other messages arrive in between |
| `ElectHeard.PrimariesClaimedIt` | crates/kevy-elect/src/elector_inbound.rs:60-91 | in every run a node follows itself or a node that said, in its own epoch or an earlier one, that it is primary |
| `ElectHeard.CandidacyIsOwn` | crates/kevy-elect/src/elector_tick.rs:75-102 | a node that stands offers itself to all in the next epoch at its own offset and has saved its own vote; no other tick moves the epoch |
| `ElectHeard.MajorityWinsExactly` | crates/kevy-elect/src/elector_tick.rs:104-123 | a tick announces a primary exactly when the votes make a majority of the peers, the announcement names the node itself and its epoch, and no other tick makes a primary |
| `ElectHeard.CandidateWaitsExactly` | crates/kevy-elect/src/elector_tick.rs:104-138 | without a majority a candidate stays one until the election timeout, and then backs off for exactly its backoff and capped jitter |
| `ElectHeard.TickBeatsExactly` | crates/kevy-elect/src/elector_tick.rs:13-37 | a tick beats exactly to the peers that are due, with the node's own epoch, role and offset, and notes the time for those and no others |
| `ElectCounterexample.TwoPrimariesShareAnEpoch` | crates/kevy-elect/src/elector_inbound.rs:93-130 | a run of two nodes after which both are in the primary role of epoch 3 |
| `ElectSaturation.TwoWinnersOfTheLastEpoch` | crates/kevy-elect/src/elector_tick.rs:75-102 | in the last 64-bit epoch, which no candidate can pass, some run of three nodes has two winners, so the theorems' bound on the epoch is needed |
| `ElectSaturation.Climb` | crates/kevy-elect/src/elector_tick.rs:75-102 | standing and restarting takes a node to any epoch |
| `Winnow.LastMin` | tools/clone_atlas.py:111 | the chosen index holds the least hash of its window, the last one where that hash repeats |
| `Winnow.PickMovesRight` | tools/clone_atlas.py:109-115 | sliding the window by one keeps the pick or moves it right, by at most W |
| `Winnow.EveryPickIsKept` | tools/clone_atlas.py:108-115 | the prev comparison drops no window's pick |
| `Winnow.SelectionIsDense` | tools/clone_atlas.py:108-116 | selected positions strictly increase, are at most W apart, and every window holds one |
| `Winnow.Fingerprints` | tools/clone_atlas.py:93-116 | the two loops compute the grams at the selected positions, in order, and nothing below K + W tokens |
| `Winnow.Winnowed` | tools/clone_atlas.py:108-116 | the second loop, with its running prev, keeps exactly the selected grams |
| `Winnow.SharedRunGivesSharedPrint` | tools/clone_atlas.py:16-22 | two streams with a common run of K + W - 1 token texts share a fingerprint hash if and only if both have at least K + W tokens |
| `Winnow.PrintsTellTheirPlace` | tools/clone_atlas.py:97-107 | a fingerprint is the digest of K tokens in a row, under the line of the first of them |
| `Winnow.ShortestRunIsMissed` | tools/clone_atlas.py:95-96 | a stream of K + W - 1 tokens is such a run and shares no fingerprint, not even with itself |
| `Crc.ShiftsAreLinear` | bindings/go/crc16.go:12-26 | any number of polynomial shifts is linear under XOR |
| `Crc.CrcIsLinear` | bindings/go/crc16.go:28-34 | the CRC of the XOR of two strings of one length is the XOR of their CRCs |
| `Crc.TableStep` | bindings/go/crc16.go:28-34 | one byte through the table is eight single shifts, for every register and byte |
| `Crc.MakeTable` | bindings/go/crc16.go:12-26 | each of the 256 entries is eight shifts of its index |
| `Crc.TableCrc16` | bindings/go/crc16.go:28-34 | the table-driven loop is the bit-serial CRC of every string |
| `Crc.SerialCrc16` | bench/perfgate_angles.py:80-88 | the bit-by-bit loop is the same CRC |
| `Crc.CheckVector` | bindings/go/crc16.go:28-34 | the CRC-16/XMODEM check value of the digits 1 to 9 |
| `Crc.HashTagScan` | bindings/go/crc16.go:42-66 | the two scans find the bytes between the first brace and the next closing one, or the whole key |
| `Crc.TaggedKeyHashesTag` | bindings/go/crc16.go:42-66 | a key with a first, non-empty brace pair hashes what is inside it |
| `Crc.UntaggedKeyHashesWhole` | bindings/go/crc16.go:42-66 | every other key hashes whole, the empty pair and the unclosed brace included |
| `Crc.HashTagIsIdempotent` | bindings/go/crc16.go:42-66 | the tag of a tag is the tag |
| `Crc.SlotInRange` | bindings/go/crc16.go:36-40 | a slot is one of 16384 and is the CRC modulo 16384 |
| `Crc.KeysRouteWithTheirTag` | bindings/go/crc16.go:36-66 | a key has the slot of its tag, so keys with one tag share a slot |
| `Crc.KeyHashSlot` | bindings/go/crc16.go:36-40 | the composed computation gives the slot |
| `Cluster.ParseClusterSlots` | bindings/go/cluster.go:232-256 | all rows or nothing: it succeeds exactly when the reply is an array of well-shaped rows, and keeps their order |
| `Cluster.RowRoundTrip` | bindings/go/cluster.go:232-256 | a printed row parses to its range exactly when its numbers fit 16 bits, whatever follows the owner |
| `Cluster.RowExactly` | bindings/go/cluster.go:237-275 | a row parses exactly when it is start, end and an owner of host and port with all numbers within 16 bits, bulk or simple host, whatever the server adds, and to exactly that range |
| `Cluster.Nodes` | bindings/go/cluster.go:207-222 | the owners are listed once each: pairwise distinct, every range's owner among them, no more than there are ranges |
| `Cluster.NodesInOrder` | bindings/go/cluster.go:207-222 | the nodes stand in the order in which they first own a range |
| `Cluster.FindNode` | bindings/go/cluster.go:213-218 | the scan finds the node with this host and port, or there is none |
| `Cluster.FillRange` | bindings/go/cluster.go:223-226 | exactly the slots of the range get the entry; the index runs out of the table exactly when a non-empty range ends past it |
| `Cluster.OverrunsExactly` | bindings/go/cluster.go:223-226 | a range overruns the table exactly when it contains a slot the table lacks |
| `Cluster.AddRange` | bindings/go/cluster.go:210-226 | one pass of the loop: the owner is found or added at the end, and the range's slots get its index; it stops exactly at a range that overruns the table |
| `Cluster.BuildTopology` | bindings/go/cluster.go:205-230 | an error exactly for no ranges, a panic exactly when some range overruns the table, otherwise the distinct owners and the last range's owner for each slot |
| `Cluster.RangesFitSlots` | bindings/go/cluster.go:207-230 | disjoint non-empty ranges are at most 16384, so the 16-bit index loses nothing |
| `Cluster.TableRoutes` | bindings/go/cluster.go:207-230 | in a partition of the slots every entry is in bounds and indexes the owner of its range |
| `Cluster.OpenShards` | bindings/go/cluster.go:54-69 | one connection a node in node order, or, when a dial fails, all those already open closed again |
| `Cluster.ShardFor` | bindings/go/cluster.go:80-90 | the keyed lookup stays in bounds and returns the owner's connection |
| `Cluster.KeysReachTheirOwner` | bindings/go/cluster.go:80-90 | every key's slot is covered, and the key and its tag both route to the node that owns it |
| `Cluster.RowPastTheTable` | bindings/go/cluster.go:250-253 | a row that ends at slot 16384 is accepted by the parser and overruns the table |
| `Cluster.ClusterConnect` | bindings/go/cluster.go:40-70 | parse, build and dial together: an error exactly for an unreadable or empty reply, a panic exactly for an overrunning range, and over a partition a client whose table and connections agree |
| `Cluster.RouteKey` | bindings/go/cluster.go:40-90 | end to end: over a printed reply that partitions the slots, with reachable nodes, every key goes out on the connection of the node that owns its slot |
| `SetMany.OneByOneSplits` | bindings/go/kevy.go:305-367 | setting a concatenation is setting its parts, up to the first refusal |
| `SetMany.WritesArePrefix` | bindings/go/kevy.go:274-301 | what was written is the input in order: all of it, or a prefix that stops at a pair the engine refused |
| `SetMany.WritesWereAccepted` | bindings/go/kevy.go:274-301 | each pair that was written had been accepted by the engine as it stood then |
| `SetMany.ZippedWrites` | bindings/go/kevy.go:274-301 | pair by pair: write j is key j with value j, all of them exactly on success, and otherwise up to a refused pair |
| `SetMany.Db.SetScalar` | bindings/go/kevy.go:255-272 | a closed handle is refused; otherwise an accepted pair is added to what was written and a refused one is not |
| `SetMany.LaidAfterPush` | bindings/go/kevy.go:357-363 | queueing a pair keeps every earlier slice inside the arena, intact and apart from the others |
| `SetMany.Arena.Copy` | bindings/go/kevy.go:359-362 | the bytes that fit are copied at the offset and nothing below it changes |
| `SetMany.Arena.Push` | bindings/go/kevy.go:357-363 | two copies and four array writes queue one pair and keep the layout |
| `SetMany.Arena.ReadSlices` | crates/kevy-ffi/src/batch.rs:30-73 | reading each key and value through its pointer and length sets exactly the queued pairs in order, up to the first refusal |
| `SetMany.Arena.Flush` | bindings/go/kevy.go:325-336 | a flush is one SET a queued pair; on success the arena is empty |
| `SetMany.SetManyChunked` | bindings/go/kevy.go:305-367 | the chunking loop, with its re-check and its oversize bypass, terminates and equals one SET a pair in order: write j is key j with value j, all of them exactly when it succeeds, and otherwise up to the pair that was refused |
| `SetMany.SetManyPairs` | bindings/go/kevy.go:274-301 | a closed handle or a length mismatch writes nothing; otherwise one SET a pair in order, write j being key j with value j, and exactly len(keys) of them when no error is returned |
| `Subscriber.ClassifyInvertsFrames` | bindings/go/subscriber.go:262-301 | both delivery shapes of every event, RESP2 array and RESP3 push, classify to that event |
| `Subscriber.ClassifiedIsShaped` | bindings/go/subscriber.go:262-326 | only a shaped event comes out, and only from a frame of its kind's name and length |
| `Subscriber.ClassifyExactly` | bindings/go/subscriber.go:262-326 | a frame is event ev exactly when it is an array or a push of ev's own items, field for field, where only an acknowledgement's empty name may be a nil or a null |
| `Subscriber.NamesAreAscii` | bindings/go/subscriber.go:279-301 | the six names on the wire are their words in ASCII |
| `Subscriber.PrintedEventsArrive` | bindings/go/subscriber.go:262-326 | events printed by a server, mixing both shapes, are the events read off the byte stream |
| `Subscriber.AwaitReadsExactlyTheAcks` | bindings/go/subscriber.go:169-196 | an await succeeds exactly when enough acks of its kind are on the wire, has then read exactly that many, the last frame read being one, and queues everything it read |
| `Subscriber.EventsAreConserved` | bindings/go/subscriber.go:101-216 | over any run of subscribes, unsubscribes and receives, events handed out, queued and unread are exactly the wire stream in order |
| `Subscriber.ReceiveMessageTakesTheFirst` | bindings/go/subscriber.go:218-233 | a message receive succeeds exactly when a message is left, and takes the first |
| `Subscriber.AcknowledgementsArePassedOver` | bindings/go/subscriber.go:218-233 | a message receive passes over the acknowledgements before the first message or pattern message, hands that one out, and leaves what follows it |
| `Subscriber.MessagesAreConserved` | bindings/go/subscriber.go:218-233 | receiving messages alone, among any subscribes, hands out the message subsequence in order |
| `Subscriber.RemoteSubscriber.NextEvent` | bindings/go/subscriber.go:198-216 | the next wire event comes exactly when there is one, and the rest of the wire is left |
| `Subscriber.RemoteSubscriber.AwaitAcks` | bindings/go/subscriber.go:169-196 | the loop performs the await; when it fails, every event read is still queued |
| `Subscriber.RemoteSubscriber.Recv` | bindings/go/subscriber.go:198-216 | the queue is drained before the wire |
| `Subscriber.RemoteSubscriber.RecvMessage` | bindings/go/subscriber.go:218-233 | the loop performs the message receive |
| `Subscriber.RemoteSubscriber.SubscribeTo` | bindings/go/subscriber.go:101-126 | no names is refused before anything is sent; otherwise one command is sent and the acks are awaited |
| `EmbSub.PollApproaches` | bindings/go/subscriber_emb.go:93-109 | with a frame waiting at a handle, a poll serves that handle, or reports another handle's error and stays, or brings the cursor strictly closer |
| `EmbSub.NoStarvation` | bindings/go/subscriber_emb.go:93-109 | whatever arrives and however often other handles fail, a waiting frame is handed out within as many successful polls as there are handles |
| `EmbSub.EachHandleIsFifo` | bindings/go/subscriber_emb.go:93-109 | for each handle, frames handed out and then frames left are frames queued and then frames arrived |
| `EmbSub.KeptIsValid` | bindings/go/subscriber_emb.go:39-50 | a remove splits the handles in two: kept in order, or closed, never both |
| `EmbSub.UnsubscribeTakesExactly` | bindings/go/subscriber_emb.go:39-50 | an unsubscribe takes exactly the handles of its own sort, all of them when it names none and otherwise those it names |
| `EmbSub.Subscriptions.AddOne` | bindings/go/subscriber_emb.go:28-37 | a granted subscription goes to the end of the list; a refused one changes nothing |
| `EmbSub.Subscriptions.Filter` | bindings/go/subscriber_emb.go:39-50 | the aliased in-place loop never overwrites a handle it has yet to read |
| `EmbSub.Subscriptions.Remove` | bindings/go/subscriber_emb.go:39-50 | the list becomes exactly the kept handles in order, and exactly the dropped ones are closed |
| `EmbSub.Subscriptions.Close` | bindings/go/subscriber_emb.go:52-61 | every handle is closed once, in order, and none is left |
| `EmbSub.Subscriptions.PollOnce` | bindings/go/subscriber_emb.go:93-109 | the modular loop finds the first ready handle from the cursor, takes its first frame or that frame's error, and moves the cursor past it only for a frame |
| `EmbSub.ServedWithinARound` | bindings/go/subscriber_emb.go:93-109 | while every frame decodes, it is handed out within as many polls as there are handles |
| `EmbSub.Subscriptions.Append` | bindings/go/subscriber_emb.go:34 | append writes into the backing array where it has room, and into a larger copy where it has none |
| `NodeOrder.SortIsCanonical` | bench/cligate.py:375-382 | two lists of blocks sort alike exactly when they hold the same blocks as often |
| `NodeOrder.CanonicalPermutes` | bench/cligate.py:352-383 | the lines are kept, each as often |
| `NodeOrder.CanonicalKeepsRuns` | bench/cligate.py:352-383 | on newline-terminated text the runs of the result are the runs of the text, in the same order, each sorted |
| `NodeOrder.CanonicalIsIdempotent` | bench/cligate.py:352-383 | on newline-terminated text, a second application changes nothing |
| `NodeOrder.CanonicalComparesUpToOrder` | bench/cligate.py:386-391 | on newline-terminated text, equal results exactly when the texts differ only in the order of items within runs |
| `NodeOrder.NodeOrderFreeLines` | bench/cligate.py:360-382 | the loop over result, run and kind computes the canonical form of every list of lines |
| `NodeOrder.NodeOrderFreeText` | bench/cligate.py:352-383 | with its split and join it computes the canonical text |
| `NodeOrder.TextIsIdempotent` | bench/cligate.py:352-383 | the permutation and the idempotence, on bytes |
| `NodeOrder.TextsAgreeUpToOrder` | bench/cligate.py:386-391 | the comparison, on bytes |
| `NodeOrder.UnterminatedIsNotIdempotent` | bench/cligate.py:365-369 | without a final newline: a family of texts that a second application changes again |
| `NodeOrderExact.IdempotentExactly` | bench/cligate.py:352-383 | on any lines, a second application changes nothing if and only if the text does not end in a run of reports whose greatest report trails a blank line and is there at least twice |
| `NodeOrderExact.TextIdempotentExactly` | bench/cligate.py:352-383 | the same on bytes, newline-terminated or not |
| `NodeOrderExact.SortKeepsTextExactly` | bench/cligate.py:375-382 | sorting leaves the lines of a run alone exactly when its items are sorted |
| `NodeOrderText.ShapesAreExact` | bench/cligate.py:348-349 | on every line: block starts are M:, S: and SYNC lines, reports are exactly the six written-out shapes with any address, continuation lines are the indented and Transfer lines, and no line is two of these |
| `NodeOrderText.PrintedIsSorted` | bench/cligate.py:352-383 | a printed list of node blocks, report runs and other lines comes out with each run sorted and every other line where it was |
| `NodeOrderText.AnyNodeOrderGivesTheSortedText` | bench/cligate.py:352-383 | on the text: whatever order the nodes were printed in, the result is the text with every run sorted |
| `NodeOrderText.UnmarkedSplits` | bench/cligate.py:360-382 | a line of none of the shapes splits the work: what follows it is treated as a text of its own, what precedes it is rearranged before it |
| `NodeOrderText.UnmarkedKeepsItsPlace` | bench/cligate.py:360-382 | in any text, a line of none of the shapes stays at its place |
| `NodeOrderText.SortOrderIsLexicographic` | bench/cligate.py:375-382 | lines sort by their first different character with a prefix first, blocks by their first different line |
| `Ratchet.WorseMeansGrowth` | tools/setratchet.py:82-106 | a comparison is worse exactly when some held symbol joins or gains |
| `Ratchet.CompareExactly` | tools/setratchet.py:99-106 | each of the four maps holds exactly the held symbols that changed its way, with the size of the change |
| `Ratchet.ExemptExactly` | tools/setratchet.py:82-90 | a symbol is exempt exactly when the list names it or a prefix of it |
| `Ratchet.GateExactly` | tools/setratchet.py:125-157 | refused exactly when the identities are missing or differ or fewer regions than the floor, one by default, were counted; passed exactly when, besides, no held symbol joins or gains |
| `Ratchet.CompareBalances` | tools/setratchet.py:82-106 | exact accounting: observed total plus what shrank and left equals baseline total plus what joined and grew |
| `Ratchet.GateAgreesWithUpdate` | tools/setratchet.py:125-188 | without a reason, update records what gate passes, apart from the floor that only gate has |
| `Ratchet.UpdateExactly` | tools/setratchet.py:160-188 | a first update stores what was observed; a later one is refused off its measure, fails on growth without a reason, and otherwise stores what was observed with the old history and, for growth, one entry with the reason and exactly the symbols that grew |
| `Ratchet.UpdateAccounts` | tools/setratchet.py:160-188 | one update only extends the history, and raises the held total by at most the delta it records |
| `Ratchet.RatchetAccounts` | tools/setratchet.py:160-188 | over any run of updates under one exemption list, the held total never exceeds the first total plus the recorded deltas |
| `Ratchet.HeldSymbolsNeverGrow` | tools/setratchet.py:82-90 | over any run of updates without reasons, a symbol that no list exempts never joins or gains, however the lists change for others |
| `Ratchet.NoReasonNoGrowth` | tools/setratchet.py:160-188 | under one exemption list and without reasons, no held symbol joins or gains and the history stays |
| `Ratchet.GrowthNeedsAnExemption` | tools/setratchet.py:160-188 | the next update without a reason can record more of a symbol exactly when the stored baseline exempts it |
| `Ratchet.ExemptionsCanBeWidened` | tools/setratchet.py:181-183 | two updates without a reason that exempt a held symbol and then let it grow |
| `Ratchet.Merge` | tools/setratchet.py:240-243 | the merge loops give, for each symbol, its largest count over the sets |
| `Ratchet.MaximumIsUnique` | tools/setratchet.py:240-243 | there is one such map, so the order of sets and symbols does not matter |
| `Ratchet.Total` | tools/setratchet.py:267 | the sum of the counts |
| `Ratchet.EnvelopeOver` | tools/setratchet.py:191-278 | refused exactly off one clean tree or without identity, failed exactly when worse without a reason, otherwise the maximum is stored with one history entry |
| `Ratchet.OneCleanTreeExactly` | tools/setratchet.py:208-238 | the documents pass exactly when there are some, and all carry one identity and one tree that is not dirty |
| `Ratchet.DirtyExactly` | tools/setratchet.py:208-238 | a tree is dirty exactly when its name is some name with -dirty after it |
| `Ratchet.EnvelopeCovers` | tools/setratchet.py:192-206 | every merged set shows no growth and no joins against the envelope |
| `Ratchet.EnvelopeIsTight` | tools/setratchet.py:192-206 | any baseline that no merged set exceeds is at least the envelope |
| `Ratchet.Baseline.Record` | tools/setratchet.py:160-188 | the stored document after an update, refused and failed ones included |
| `RatchetRuns.RecordEnvelope` | tools/setratchet.py:191-278 | the envelope on the baseline file: the verdict and the stored document, refused and failed ones included |
| `RatchetRuns.EnvelopeWithoutReason` | tools/setratchet.py:245-262 | without a reason an envelope is stored exactly when no held symbol joins or gains, or the stored baseline is of another identity |
| `RatchetRuns.AnotherIdentityIsNotCompared` | tools/setratchet.py:252-262 | an envelope of another identity that replaces a baseline and grows a held symbol with no reason given |
| `RatchetRuns.MixedRunsAreBounded` | tools/setratchet.py:160-278 | over any run of updates and envelopes under one exemption list, the held regions stay within what the history allows: deltas add up, and an envelope starts over from its regions |
| `RatchetRuns.EnvelopeKeepsDeltasExactly` | tools/setratchet.py:264-273 | the bound by deltas alone survives a stored envelope exactly when its held total is no larger |
| `Screen.FeedFits` | bench/cligate_screen.py:35-103 | whatever bytes are fed, no row outgrows the screen's columns |
| `Screen.FeedSplits` | bench/cligate_screen.py:81-103 | feeding a stream is feeding its pieces, at any cut the first piece can be fed up to |
| `Screen.TypeOver` | bench/cligate_screen.py:35-42 | typed text lands at the cursor, and what lies beyond it stays |
| `Screen.RedrawShowsText` | bench/cligate_screen.py:44-103 | return, text, erase to the right: the row is exactly the text, whatever it held and wherever the cursor was |
| `Screen.RedrawingKeys` | bench/cligate_screen.py:44-103 | a redraw after each key leaves the row with the whole text |
| `Screen.TypingEqualsRedrawing` | bench/cligate_screen.py:1-15 | echoing keys and redrawing the row after each key leave the same screen |
| `Screen.ScreenBuffer.Line` | bench/cligate_screen.py:30-33 | rows are added down to the cursor and the others stay |
| `Screen.ScreenBuffer.PutChar` | bench/cligate_screen.py:35-42 | one character written, with padding, wrap and clipping at the last column |
| `Screen.ScreenBuffer.FeedBytes` | bench/cligate_screen.py:81-103 | the loop over bytes, control sequences and characters; where it raises, everything before the unmodelled sequence has been fed and nothing after |
| `Screen.CsiCells` | bench/cligate_screen.py:44-79 | a control sequence blanks the cells that its erase names and no others |
| `Screen.CsiChangesOneThing` | bench/cligate_screen.py:44-79 | each sequence moves the cursor along its axes, or erases, or sets the attribute, and leaves the rest |
| `Screen.MovesUndo` | bench/cligate_screen.py:44-57 | down and up, and right and left short of the margin, undo each other |
| `Screen.PutCells` | bench/cligate_screen.py:35-42 | a character lands at the cursor, or at the start of the next row past the margin, and no other cell changes |
| `ScreenBytes.GotoLands` | bench/cligate_screen.py:57-59 | ESC [ r ; c H, with the numbers written in any of their paddings, puts the cursor on row r and column c counted from one, zero standing for one, and changes nothing else |
| `ScreenBytes.HomeLands` | bench/cligate_screen.py:57-59 | with one number the column is the first; with none the cursor goes to the top left |
| `ScreenBytes.MovesLand` | bench/cligate_screen.py:45-56 | A, B, C, D and G with a written count land where their contract says, clamped at the top, the left and the right margin; without a count they move by one |
| `ScreenBytes.AttributeIsSet` | bench/cligate_screen.py:76-77 | after ESC [ params m text is written under exactly those parameters, none or a lone zero being the plain attribute |
| `ScreenBytes.ErasuresLand` | bench/cligate_screen.py:60-75 | J and K with a written mode, or none, blank exactly their cells and move nothing |
| `ScreenBytes.ControlsLand` | bench/cligate_screen.py:91-98 | CR, LF, BS and BEL |
| `ScreenBytes.TypedWhereSent` | bench/cligate_screen.py:35-103 | a character sent after ESC [ r ; c H is shown at row r, column c, under the current attribute, and no other cell changes |
| `ScreenBytes.KnownIsFed` | bench/cligate_screen.py:84-90 | a sequence of parameter bytes and a known letter is always fed |
| `ScreenBytes.UnknownEscapesFail` | bench/cligate_screen.py:84-90 | any other escape stops the screen |
| `RankTree.WeaveCut` | crates/kevy-ranktree/src/node.rs:14-26 | the keys of a subtree can be cut at any separator |
| `RankTree.CountedIsOk` | crates/kevy-ranktree/src/node.rs:46-51 | a recounted node over good children has the right count |
| `RankTree.SplitIfOverfull` | crates/kevy-ranktree/src/insert.rs:59-83 | no key moves out of order and both halves are at least half full |
| `RankTree.InsertRec` | crates/kevy-ranktree/src/insert.rs:35-57 | the keys of what comes back are the sorted keys with k among them; equal depth, occupancy and every subtree count are kept; it says whether k is new |
| `RankTreeRemove.BorrowFromLeft` | crates/kevy-ranktree/src/remove.rs:127-145 | a key goes up and one comes down, and no key changes place |
| `RankTreeRemove.BorrowFromRight` | crates/kevy-ranktree/src/remove.rs:147-163 | the mirror |
| `RankTreeRemove.MergeChildren` | crates/kevy-ranktree/src/remove.rs:165-175 | two minimal neighbours and their separator make one node with the same keys in order |
| `RankTreeRemove.FattenChild` | crates/kevy-ranktree/src/remove.rs:105-125 | the same keys in order, and a child to descend into that can spare one and covers the old one |
| `RankTreeRemove.RemoveMax` | crates/kevy-ranktree/src/remove.rs:85-93 | the subtree without its last key, and that key |
| `RankTreeRemove.RemoveMin` | crates/kevy-ranktree/src/remove.rs:95-103 | the subtree without its first key, and that key |
| `RankTreeRemove.RemoveHit` | crates/kevy-ranktree/src/remove.rs:51-83 | a separator is replaced by its neighbour in order or merged away; exactly it is gone |
| `RankTreeRemove.RemoveRec` | crates/kevy-ranktree/src/remove.rs:31-49 | exactly k is gone, shape and counts are kept, and it says whether k was there |
| `RankTreeSet.RankSet.Insert` | crates/kevy-ranktree/src/insert.rs:8-29 | the set is the sorted sequence with k put in its place; true exactly when k is new |
| `RankTreeSet.RankSet.Remove` | crates/kevy-ranktree/src/remove.rs:9-29 | the set is the sorted sequence without k, one level lower if the root emptied; true exactly when k was there |
| `RankTreeSet.RankOf` | crates/kevy-ranktree/src/lib.rs:288-312 | the number of keys below k if k is there, nothing if it is not |
| `RankTreeSet.WhichChild` | crates/kevy-ranktree/src/node.rs:77-98 | one level of the walk to a rank: the child it lies under, or the separator it is |
| `RankTreeSet.Select` | crates/kevy-ranktree/src/lib.rs:195-203 | the key at that position of the sorted sequence, nothing past the end |
| `RankTreeSet.SelectInvertsRank` | crates/kevy-ranktree/src/lib.rs:273-287 | select and rank_of undo each other |
| `RankTreeSet.PartitionPoint` | crates/kevy-ranktree/src/lib.rs:314-349 | how many leading keys satisfy a predicate that holds of a leading part |
| `RankTreeSet.CountIn` | crates/kevy-ranktree/src/lib.rs:351-397 | the keys inside the bounds are exactly the count keys from rank lo on |
| `RankTreeSet.HistoryDecides` | crates/kevy-ranktree/src/lib.rs:80-84 | over any history of inserts and removes, the sequence is sorted and holds exactly the keys whose last operation was an insert |
| `RankTreeSet.Replay` | crates/kevy-ranktree/src/tests_invariants.rs:10-38 | any history run on the tree gives that sequence, with every shape rule kept |
| `RankTreeIter.HeightFits` | crates/kevy-ranktree/src/iter.rs:11-13 | a tree whose count fits 64 bits has at most MAX_HEIGHT levels, so the path array is never overrun |
| `RankTreeIter.StackAt` | crates/kevy-ranktree/src/iter.rs:56-76 | the resume points of the walk to a rank owe exactly the keys from that rank on |
| `RankTreeIter.DescendLeft` | crates/kevy-ranktree/src/iter.rs:84-94 | the resume points pushed owe the whole subtree |
| `RankTreeIter.Iter.Next` | crates/kevy-ranktree/src/iter.rs:97-114 | the first key still to come, and the rest after it |
| `RankTreeIter.Collect` | crates/kevy-ranktree/src/lib.rs:215-234 | iterating from a rank yields the keys from that rank on, in order |
| `RankTreeIter.CollectRange` | crates/kevy-ranktree/src/lib.rs:379-383 | a range yields exactly the keys inside its bounds, in order |

## Left out

- Socket deadlines, context cancellation and the watcher goroutine: runs here have no timeouts, because a timed-out request leaves its late reply in the stream.
- The C ABI and cgo pinning: the arena is a byte array, a pointer is an offset into it, allocation always succeeds, and the engine behind `kevy_set_many` is any deterministic choice of which SETs it refuses.
- Float syntax: which texts are doubles is a parameter of the parser, and a double is kept as its text.
- Typed command wrappers, URL parsing, `HELLO 3`, `SELECT`, and the per-key sums of the cluster client: thin argument builders and one-branch reply checks.
- The embedded path of `Recv`: blocking with a timeout on one handle, and the store reference that closing the embedded subscriber releases.
- SetMany.Db.SetScalar: the time-to-live argument is left out, since the bulk write always passes zero.
- The rank tree's update in place: nodes are values, an update returns the new node, and vector capacities are not kept. Keys are integers, standing for any keys by their order; `binary_search` and `partition_point` on a node's keys are their specifications.
- The reverse iterator of the rank tree: the mirror of the forward one.
- Rendering of the screen as text, and all process and container fixtures of the gates.
- Lexing of Rust source and BLAKE2b: tokens are given and the digest is any function of a k-gram's texts.
- Printing, JSON files and the assembly of an identity from older fields in the ratchet: documents are values, and an identity is a string or missing.
- Election wire encoding, peer addresses, the outbound queue's cap, the fencing flag `has_quorum`, and how jitter is drawn: jitter is a parameter and any message may be lost.
- Failed or absent durable storage: a node's epoch and vote are saved before its answer leaves. Without that, one vote per epoch does not survive a restart.
- Node ids are naturals, ordered as the source orders its strings. The epoch saturates at the largest 64-bit integer, and the election theorems are about the epochs below it.
- `FLUSHALL`, storage, replication, indexes and the rest of the Rust engine.
