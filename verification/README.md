# Verified models of the semiconductor security pipeline

A Dafny model of the parts of the system that carry algorithms or state machines, with proofs about them.
Each file models one component of `app/` and says at its head which.

- **Event store.** `HashChain` (sealing and verifying records), `JournalText` (how records are framed as lines and
  how recovery takes a file apart), `JournalTail` (the writer's backward scan for the last line), `Indexes` (the four derived indexes), `EventStore` (the lock-held section of an append, recovery),
  `EventFiles` (writer and recovery as one object), `AppenderProtocol` (any number of interleaved appenders that
  may stop between steps, beside a running rebuild).
- **Merkle anchoring.** `MerkleTree` (the shape of the tree for any pairing function), `Merkle` (roots, proofs
  and verification over hexadecimal text).
- **PUF.** `BlockStream`, `PufCrypto`, `FisherYates`, `Prng`, `ChallengeFactory`, `ArbiterRace`, `Stability`,
  `PufVerifier`, `ChallengeLedger`, `ChallengeProtocol`.
- **Stateful guards.** `RateLimiter`, `Attestation`, `PolicyFusion`, `AiGate`, `Pipeline`.
- **Shared.** `Wrappers`, `Numbers`, `Texts`, `Bytes`.

SHA-256 and HMAC-SHA-256 are arbitrary functions with 32-byte results, passed as parameters; nothing assumes that
they are injective. Every binding result therefore ends in "or here are two inputs with one digest", and the two
inputs are given explicitly. Floats are real numbers. Clocks, nonces, measured noise, uuids and the outcomes of
foreign calls are inputs. A section that holds a lock is one atomic step; `append` has its locked section and its
two derived updates as separate steps.

Where an operation changes state it is a method of a class, proved against a function of its inputs and the old
state; the theorems are about those functions, over all inputs, runs and interleavings.

## What the code does not do

These are properties one might expect that do not hold. Where the code does have them under a condition, the lemma
named gives it.

- Recovery does not read every journal that was written. The writer ends records with a newline and leaves U+0085,
  U+2028 and U+2029 as they are, while `splitlines` cuts at them. A file reads back as its records if and only if no
  string of a record holds one of the three (`JournalText.FileReadsBackIff`); with such a string, for example a file
  name "a", U+2028, "b", recovery reports an intact store as invalid and does not rebuild it
  (`JournalText.SeparatedNameFails`, `EventFiles.EventFiles.Rebuild`). The writer itself reads the last record by
  newlines alone and is not affected (`JournalTail.ReadLastOfJournal`).
- `_delay_patterns` can always find the next pattern if and only if the response bits number at most
  2^stages. The configuration does not check this: it accepts 8 stages with more than 256 bits and 9 stages with
  more than 512, and only those settings never finish (`ChallengeFactory.PatternsProgressIff`,
  `ChallengeFactory.AcceptedButEndless`, `ChallengeFactory.TooManyPatternsNeverEnd`).
- Waiting for `retry_after` seconds is not always enough. With the same limit before and after the wait, it is
  enough if and only if all but limit - 1 of the calls in the window have left it by then
  (`RateLimiter.RetryAfterSufficesIff`). When the window holds exactly the limit, as it does for every limited caller
  of a key that is always checked against one limit (`RateLimiter.OneLimitFillsWindow`), that means: if and only if
  the exact wait is at most one second or a whole number of seconds, because the wait is truncated
  (`RateLimiter.RetryAtOneLimitSufficesIff`).
- Equal Merkle roots do not bind the number of leaves. For lists of equal length they bind the leaves
  (`MerkleTree.RootBinding`); any two lengths have lists with one root, whatever the hash function
  (`MerkleTree.AnyLengthsShareRoot`).
- A Merkle proof does not show that its hash is a leaf. Whatever its directions and length up to the height of the
  tree, it binds the hash to the node that its directions lead to (`MerkleTree.AnyProofBinding`), and every shorter
  tail of a generated proof is accepted for an inner node (`MerkleTree.InnerNodePasses`).
- The floors of risk fusion never apply in a run. A failed mandatory control, an incomplete feature contract or a
  simulation with its own controls raises before the models are asked, so such a run ends on an infrastructure hold
  and is not quarantined; and nothing ever sets the controls behind the bill-of-materials and custody floors. What is
  left to the gate is whether the weighted model score is below 0.85 (`AiGate.RunAiPipeline`).
- A chip whose score is classed COMPROMISED is not stopped by that: the gate's denied labels do not hold the class, so
  scores from 0.65 to below 0.85 pass it (`PolicyFusion.GatePassesClasses`).

## Model

| member | source | states |
|---|---|---|
| `HashChain.VerifyChain` | app/storage/event_store/hash_chain.py:48-59 | accepts exactly the lists in which every record has its position, its predecessor's hash and the hash of its own content; a rejection names the first broken record and the first check it fails |
| `HashChain.PrefixOk` | app/storage/event_store/hash_chain.py:48-59 | acceptance survives truncation |
| `HashChain.SuccessorOk` | app/storage/event_store/hash_chain.py:35-59 | an accepted list stays accepted with one more record exactly when that record is sealed and has the next sequence number and the last hash |
| `HashChain.ChainBinding` | app/storage/event_store/hash_chain.py:29-59 | two accepted lists that end in one hash are the same record by record, or two named contents have one digest |
| `JournalTail.ReadLastLine` | app/storage/event_store/writer.py:50-66 | the backward scan ends at the last line of any bytes; its decoded, stripped text is returned, nothing for an empty file or a blank line, and bytes that do not decode are an error |
| `JournalTail.ReadLastOfJournal` | app/storage/event_store/writer.py:50-66 | on newline-terminated records without inner newlines the scan returns exactly the last record's text |
| `Texts.StripSplits` | app/storage/event_store/writer.py:65 | stripping takes all white space off both ends and nothing else |
| `JournalText.FramedReadsBackIff` | app/storage/event_store/recovery.py:41 | newline-terminated texts come back from text-mode reading and splitlines exactly when none holds a character at which splitlines cuts |
| `JournalText.CleanRenders` | app/storage/event_store/writer.py:109-116 | JSON with only control characters, quotes and backslashes escaped has no such character when no string holds U+0085, U+2028 or U+2029 |
| `JournalText.EscapedReads` | app/storage/event_store/writer.py:109-116 | the inside of every string literal the encoder writes decodes to the text it was made from |
| `JournalText.DirtyRenders` | app/storage/event_store/writer.py:109-116 | otherwise its first such character lies inside a string literal, so what is cut off there is not JSON |
| `JournalText.FileReadsBackIff` | app/storage/event_store/recovery.py:41-49 | the lines of an appended file are its records' lines exactly when all records are clean, and then the decoded records are those appended |
| `JournalText.DirtyRecordFails` | app/storage/event_store/recovery.py:41-48 | up to the first record that is not clean all lines are read back, and its own first line does not decode |
| `JournalText.SeparatedNameFails` | app/storage/event_store/recovery.py:41-48 | a record with the string "a", U+2028, "b" is such a record |
| `Indexes.IndexBuilder.Update` | app/storage/indexes/builder.py:33-80 | the in-place update leaves an entry with the record's path, chip, sequence, type, time and status, keeps views that agree in agreement, and takes all four indexes to what the update function gives, for any index state |
| `Indexes.ScanEntryIsLastUpdate` | app/storage/indexes/builder.py:41-49 | after any history a scan has an entry exactly when it had an update, and its path, chip, sequence, event type and time are those of the last one, its status the one named there or UNKNOWN |
| `Indexes.ChipListsItsScans` | app/storage/indexes/builder.py:51-54 | a chip lists exactly the scans that had an event on it |
| `Indexes.ChipListGrowsAtEnd` | app/storage/indexes/builder.py:51-54 | a chip names each scan once, and later updates only add at the end of its list |
| `Indexes.ScanIsInOneStatusList` | app/storage/indexes/builder.py:56-63 | a scan is listed under the status of its last event and under no other |
| `Indexes.StatusListMoves` | app/storage/indexes/builder.py:56-63 | an update takes a scan out of its place in another status list, adds it at the end of its own unless it is there, and leaves every order alone |
| `Indexes.ViewsAgree` | app/storage/indexes/builder.py:41-75 | after any history each scan is in the status list of its entry and in no other, in the list of its entry's chip, and its element of latest.json has its entry's chip, time and status; the list begins with the scan updated last |
| `Indexes.SameScansSameViews` | app/storage/indexes/builder.py:33-63 | two histories that treat each scan alike, in whatever interleaving, leave the same scan index, the same keys and the same members |
| `Indexes.LatestIsBoundedMoveToFront` | app/storage/indexes/builder.py:65-75 | filter, insert in front and cut to a thousand on the bounded list tracks move-to-front on the unbounded one |
| `Indexes.LatestIsNewestFirst` | app/storage/indexes/builder.py:65-75 | latest.json holds the first thousand scans by last update, newest first, each once |
| `EventStore.NextEventExtends` | app/storage/event_store/writer.py:92-108 | the record built for a request carries every field of the request, the given id and time and the configured schema version, and continues the chain of its journal |
| `EventStore.OneRecordFits` | app/storage/event_store/writer.py:92-108 | no other record both carries the request and continues the journal |
| `EventStore.LocatedJournal` | app/storage/event_store/writer.py:136-143 | in a sound store the look-up never fails, finds only the scan's own journal, and finds it whenever there is one |
| `EventStore.LocatedIsOnFile` | app/storage/event_store/writer.py:136-143 | in any store a located journal is on file, the indexed path comes first, nothing is found exactly when no file bears the name, and the duplicate error is raised exactly for several |
| `EventStore.AppendAnswers` | app/storage/event_store/writer.py:82-130 | in a sound store the locked section raises for bad identifiers, for a known scan that must be new, and for an oversized record, in that order; otherwise it writes the one record that carries the request and continues the journal |
| `EventStore.AppendKeepsStoreOk` | app/storage/event_store/writer.py:86-130 | a locked append writes a record that carries its request to the scan's only journal, keeps every journal verifying and every index entry and snapshot showing a record on file, and only extends journals |
| `EventStore.ReplayOfScan` | app/storage/indexes/rebuild.py:27-34 | of the updates that a replay of the recorded events makes, those of one scan are its own journal in order, wherever it is listed |
| `EventStore.RebuildProjectsLastRecords` | app/storage/event_store/recovery.py:59-73 | once the journals are read, from any derived state, every scan entry, and the snapshot of every recorded scan, shows its journal's last record field by field, and no scan entry is left without one |
| `EventStore.StaleSnapshotsStay` | app/storage/event_store/recovery.py:65-73 | the snapshot of a scan without a record on file is left as it was |
| `EventStore.RebuildMatchesHistory` | app/storage/indexes/builder.py:33-63 | replaying the recorded events of all journals into fresh indexes, in any file order, leaves the views that any sequential history of updates had left; whether the files read back as those events is `JournalText.FileReadsBackIff` |
| `EventStore.RebuildKeepsCurrentSnapshots` | app/storage/event_store/recovery.py:65-73 | snapshots that were current are written again unchanged |
| `EventFiles.EventFiles.Find` | app/storage/event_store/writer.py:136-143 | the index look-up, the fall-back search and the duplicate-journal error, as the specification says |
| `EventFiles.EventFiles.WriteLocked` | app/storage/event_store/writer.py:82-130 | the locked section: each error leaves the journals alone, success appends exactly one record, which carries the request field by field |
| `EventFiles.EventFiles.Append` | app/storage/event_store/writer.py:68-134 | on error nothing changes; on success the returned record carries the request, and journal, indexes and snapshot take it in; in a store in step with its history that means that the scan's journal ends with the record, its entry and its snapshot show it, no other scan's changes, the views agree, and the store stays in step |
| `EventFiles.AppendShows` | app/storage/snapshots/builder.py:26-45 | after one append in a sound store the journal, the scan entry and the snapshot of the scan show the new record field by field and all others are as before |
| `EventFiles.VerifyLines` | app/storage/event_store/recovery.py:41-52 | for the lines of any file: no issue exactly when every line is blank or decodes and the records form a chain; every issue names a line that does not decode, or the first broken record and its reason |
| `EventFiles.AppendedVerifiesIff` | app/storage/event_store/recovery.py:41-51 | a file that records were appended to is accepted exactly when they form a chain and are all clean |
| `EventFiles.EventFiles.VerifyAll` | app/storage/event_store/recovery.py:34-53 | the report is clean exactly when every journal forms a chain of clean records, names every other journal, and every issue in it is real |
| `EventFiles.EventFiles.RebuildIndexes` | app/storage/indexes/rebuild.py:16-35 | succeeds exactly when all records are clean; then the indexes, whatever they held, are the replay of all journals and the count is that of the records; otherwise it raises with the indexes replayed up to the first record that is not clean |
| `EventFiles.AllCounted` | app/storage/indexes/rebuild.py:27-35 | the counted records are those replayed and, of clean files, those read back |
| `EventFiles.EventFiles.RebuildSnapshots` | app/storage/event_store/recovery.py:65-73 | every non-empty journal's snapshot becomes that of its last record |
| `EventFiles.EventFiles.Rebuild` | app/storage/event_store/recovery.py:55-74 | a store with a broken or unreadable journal is left as it was; otherwise indexes and snapshots are rebuilt and the views agree; after appends alone this is possible exactly when all records are clean, and then no view and no snapshot changes |
| `EventFiles.AppendKeepsUpToDate` | app/storage/event_store/writer.py:86-134 | one whole append keeps indexes, snapshots and history in step with the journals |
| `AppenderProtocol.NextKeepsInv` | app/storage/event_store/writer.py:86-134 | every step, crashes with partly written indexes and concurrent replay included, keeps the store sound and only extends journals |
| `AppenderProtocol.RunKeepsInv` | app/storage/event_store/writer.py:86-134 | in every reachable state each scan has at most one journal, which verifies, every entry and snapshot shows a record in it, and no two appenders hold one place |
| `AppenderProtocol.WrittenRecordStays` | app/storage/event_store/writer.py:122-134 | a record an appender has written stays at its place of the same verifying journal in every later state |
| `AppenderProtocol.AppendedRecordStays` | app/storage/event_store/writer.py:92-134 | over any interleaving the record an append wrote carries that append's request, and stays so in its scan's journal |
| `AppenderProtocol.UninterruptedAppend` | app/storage/event_store/writer.py:68-134 | an appender whose steps nobody interrupts leaves the store as one sequential append does, with its record shown everywhere |
| `MerkleTree.RootIsTopNode` | app/blockchain/ethereum/merkle.py:23-28 | pairing layers up to the root computes the top node of the recursive tree with clamped indexes |
| `MerkleTree.ProofClimbsToRoot` | app/blockchain/ethereum/merkle.py:31-52 | every generated proof climbs from its leaf to the root |
| `MerkleTree.DirectionsSpellIndex` | app/blockchain/ethereum/merkle.py:40-43 | the direction bits of a generated proof spell the leaf's index in binary |
| `MerkleTree.ProofBinding` | app/blockchain/ethereum/merkle.py:31-52 | a proof of the generated shape that reaches the root is the generated one for that leaf, or the climbs exhibit a collision |
| `MerkleTree.RootBinding` | app/blockchain/ethereum/merkle.py:20-28 | equal-length leaf lists with one root are equal or exhibit a collision |
| `MerkleTree.RepeatedLastLeafKeepsRoot` | app/blockchain/ethereum/merkle.py:25-26 | padding gives an odd list and the list with its last leaf repeated the same root |
| `MerkleTree.AnyLengthsShareRoot` | app/blockchain/ethereum/merkle.py:20-28 | any two lengths have leaf lists with one root, whatever the pairing function |
| `MerkleTree.AnyProofBinding` | app/blockchain/ethereum/merkle.py:47-52 | any proof up to the height of the tree that reaches the root starts at the node its directions lead to, or the climb exhibits a collision |
| `MerkleTree.InnerNodePasses` | app/blockchain/ethereum/merkle.py:31-52 | every shorter tail of a generated proof climbs from an inner node to the root |
| `Merkle.MerkleRoot` | app/blockchain/ethereum/merkle.py:20-28 | the loop returns the hexadecimal root, and refuses an empty list and any text that is no SHA-256 value |
| `Merkle.TwoLeafRoot` | app/blockchain/ethereum/merkle.py:10-28 | the parent of two leaves is the digest of the left one followed by the right one |
| `Merkle.MerkleProof` | app/blockchain/ethereum/merkle.py:31-44 | the loop returns the proof of the specification, and refuses an index outside the list and malformed hashes |
| `Merkle.VerifyProof` | app/blockchain/ethereum/merkle.py:47-52 | accepts exactly when the climb over the parsed steps equals the parsed root; any malformed text is an error |
| `Merkle.ReadDigestIff` | app/blockchain/common/hashing.py:33-37 | a text reads as a digest exactly when it is its hexadecimal text in any case, with or without one "0x" |
| `Texts.SafeNameIsLiteral` | app/storage/event_store/partitioning.py:16-22 | a name that passes is one path component and stands only for itself in the search pattern that looks for its journal |
| `Merkle.GeneratedProofVerifies` | app/blockchain/ethereum/merkle.py:20-52 | root, proof and verification run one after the other accept every leaf of every readable list |
| `Merkle.AcceptedLeafIsBound` | app/blockchain/ethereum/merkle.py:31-52 | a leaf accepted with a proof of the generated shape is the committed one, or two named inputs collide under SHA-256 |
| `Merkle.AcceptedIsNode` | app/blockchain/ethereum/merkle.py:47-52 | a digest that climbs to the root is a node of the tree at the level its proof's length gives, or two named inputs collide under SHA-256 |
| `Merkle.EqualRootsBind` | app/blockchain/ethereum/merkle.py:20-28 | equal-length lists with equal roots are equal in normal form, or two named inputs collide under SHA-256 |
| `BlockStream.ReadsJoin` | app/hardware/puf/crypto.py:140-146 | however a stretch of the generator's stream is cut into reads, their results join to it |
| `PufCrypto.DeriveKey` | app/hardware/puf/crypto.py:47-59 | the feedback loop yields the first bytes of one block stream, and refuses short master keys and non-positive lengths |
| `PufCrypto.ShorterKeyIsPrefix` | app/hardware/puf/crypto.py:47-59 | a shorter derived key is a prefix of a longer one with the same label |
| `PufCrypto.DerivedBlockBinds` | app/hardware/puf/crypto.py:53-58 | equal blocks of derived keys have one place, one label and equal blocks before them, or two named messages share a tag |
| `PufCrypto.DerivedKeysBind` | app/hardware/puf/crypto.py:47-59 | equal derived keys of at least one block come from one label, or two named messages share a tag |
| `PufCrypto.PackedBitsUnpack` | app/hardware/puf/crypto.py:62-78 | unpacking restores every bit string shorter than 2^32 |
| `PufCrypto.UnpackableIff` | app/hardware/puf/crypto.py:71-78 | unpacking refuses exactly what is too short for its header or for the length in it |
| `PufCrypto.XorBytesTwice` | app/hardware/puf/crypto.py:81-84 | the byte-wise exclusive or undoes itself |
| `PufCrypto.XorIsBitwise` | app/hardware/puf/crypto.py:81-84 | a digit of the exclusive or is set exactly when the operands differ there |
| `PufCrypto.Keystream` | app/hardware/puf/crypto.py:87-93 | the counter loop yields the first bytes of the stream of a key and context |
| `PufCrypto.KeystreamBlockBinds` | app/hardware/puf/crypto.py:87-102 | equal keystream blocks have one nonce, one context and one counter, or two named messages share a tag |
| `PufCrypto.SealedBytesUnseal` | app/hardware/puf/crypto.py:96-118 | what was sealed unseals to itself for every key, nonce and context |
| `PufCrypto.AcceptedTemplateIsGenuine` | app/hardware/puf/crypto.py:96-118 | an envelope accepted under a genuine tag is the sealed one for that context, or two named messages share a tag |
| `PufCrypto.TagIsNoKeystream` | app/hardware/puf/crypto.py:87-102 | a seal tag that is also a keystream block under the same key is the tag of two named messages |
| `Draws.DrawSucceeds` | app/hardware/puf/crypto.py:177-180 | a draw succeeds exactly when one of the words it may look at is below the limit |
| `Draws.DrawIsFirstAccepted` | app/hardware/puf/crypto.py:176-180 | the value drawn is the first word below the limit, reduced to the span, and the stream goes on right behind that word |
| `Draws.DrawMoreFuel` | app/hardware/puf/crypto.py:177-180 | allowing more attempts never changes a drawn value |
| `Draws.AcceptedWordsPerValue` | app/hardware/puf/crypto.py:175-180 | exactly limit/span of the words below the limit leave any given remainder, for every span up to 2^64 |
| `Draws.DrawsAreFair` | app/hardware/puf/crypto.py:175-180 | with any number of attempts, every value of the span is the answer to equally many lists of 64-bit words |
| `Draws.OneAttemptPerValue` | app/hardware/puf/crypto.py:175-180 | one attempt answers each value of a span up to 2^64 for exactly limit/span of the 64-bit words |
| `Prng.DeterministicPrng.Bytes` | app/hardware/puf/crypto.py:131-146 | a read returns the next stretch of the stream whatever was read before; a negative length is an error |
| `Prng.PrngBlockBinds` | app/hardware/puf/crypto.py:131-138 | equal blocks of two generators with one key have one context and one counter, or two named messages share a tag |
| `Prng.DeterministicPrng.Random` | app/hardware/puf/crypto.py:148-150 | the top 53 bits of the next word as a fraction in [0, 1) |
| `Prng.FractionBounds` | app/hardware/puf/crypto.py:148-150 | the fraction times 2^64 lies at most 2^11 below the word and never above it |
| `Prng.DeterministicPrng.RandInt` | app/hardware/puf/crypto.py:172-180 | returns the minimum plus the first accepted word modulo the span and leaves the stream right behind that word; without an accepted word it returns nothing; a reversed range is an error |
| `Prng.DeterministicPrng.Shuffle` | app/hardware/puf/crypto.py:182-185 | permutes the array in place, to what the drawn targets give |
| `Prng.ShuffledApplies` | app/hardware/puf/crypto.py:182-185 | the targets are drawn from the stream one after the other, each from one value fewer, and the result is their application |
| `Prng.EveryPermutationDrawn` | app/hardware/puf/crypto.py:182-185 | every permutation of up to 2^64 values is what a shuffle makes of some 64-bit words |
| `FisherYates.ApplyPermutes` | app/hardware/puf/crypto.py:182-185 | every target sequence permutes |
| `FisherYates.EachPermutationOnce` | app/hardware/puf/crypto.py:182-185 | on distinct values every permutation comes from exactly one target sequence |
| `ChallengeFactory.PairFromTwoDraws` | app/hardware/puf/simulator.py:77-81 | each unordered pair is hit by exactly two of the n(n-1) draws |
| `ChallengeFactory.AllPairsSize` | app/hardware/puf/config.py:227 | there are n(n-1)/2 ordered pairs in range |
| `ChallengeFactory.PairsProgressIff` | app/hardware/puf/simulator.py:76-84 | an unseen pair can be drawn while pairs are missing exactly when at most n(n-1)/2 are requested |
| `ChallengeFactory.PairWordsProgressIff` | app/hardware/puf/simulator.py:76-84 | while pairs are missing some 64-bit words draw a new one exactly when at most n(n-1)/2 are requested and n is at most 2^64 |
| `ChallengeFactory.AcceptedRingProgresses` | app/hardware/puf/config.py:227-228 | every accepted ring configuration can always find the next pair, in terms of outcomes and of 64-bit words |
| `ChallengeFactory.CollectedPairsOk` | app/hardware/puf/simulator.py:71-85 | the collected pairs are distinct, ordered, in range and of the required number |
| `ChallengeFactory.EveryPairListDrawn` | app/hardware/puf/simulator.py:71-85 | every list of distinct pairs, in every order, is what some 64-bit words collect |
| `ChallengeFactory.RingPairs` | app/hardware/puf/simulator.py:71-85 | the loop returns what the specification collects from the generator's stream |
| `ChallengeFactory.CollectedPatternsOk` | app/hardware/puf/simulator.py:87-97 | the collected patterns are distinct, binary, of the stage count and of the required number |
| `ChallengeFactory.DelayPatterns` | app/hardware/puf/simulator.py:87-97 | the loop returns what the specification collects from the generator's stream |
| `ChallengeFactory.EveryPatternDrawn` | app/hardware/puf/simulator.py:93 | every binary pattern is what some 64-bit words of the generator draw |
| `ChallengeFactory.SwitchIsTopBit` | app/hardware/puf/simulator.py:93 | switch k of a pattern is the top bit of word k |
| `ChallengeFactory.EveryPatternListDrawn` | app/hardware/puf/simulator.py:87-97 | every list of distinct patterns, in every order, is what some 64-bit words collect |
| `ChallengeFactory.PatternsProgressIff` | app/hardware/puf/simulator.py:92-96 | while patterns are missing some 64-bit words draw a new one exactly when at most 2^stages are requested |
| `ChallengeFactory.TooManyPatternsNeverEnd` | app/hardware/puf/simulator.py:92-96 | beyond 2^stages no stream and no number of draws completes the request |
| `ChallengeFactory.AcceptedButEndless` | app/hardware/puf/config.py:178-179 | among accepted settings exactly 8 stages with over 256 bits and 9 stages with over 512 bits can run out |
| `ChallengeFactory.CollectedChallengeAccepted` | app/hardware/puf/simulator.py:257-269 | a challenge made of collected pairs and patterns passes the shape check |
| `ChallengeFactory.ShapeAcceptedIff` | app/hardware/puf/simulator.py:257-269 | the shape check accepts exactly the configured numbers of pairs of different oscillators and of binary patterns of the stage count |
| `ArbiterRace.Race` | app/hardware/puf/simulator.py:331-341 | upper minus lower is the sum of stage differences signed by the parity of later crossings, and upper plus lower is the sum of all traversed delays |
| `ArbiterRace.DelayResponse` | app/hardware/puf/simulator.py:320-345 | each bit and margin follow from the signed sum and the jitter; ties give one |
| `ArbiterRace.LastCrossingReverses` | app/hardware/puf/simulator.py:333-341 | crossing the last stage, with its delays exchanged, reverses the race |
| `Stability.MajorityVote` | app/hardware/puf/stability.py:16-32 | refuses exactly the empty, ragged and non-binary inputs; otherwise gives the strict majority and the agreeing share of every bit |
| `Stability.VoteMinimisesTotalDistance` | app/hardware/puf/stability.py:16-57 | no binary reference is closer to all samples together, under any mask, than the vote |
| `Stability.StricterSelectsFewer` | app/hardware/puf/stability.py:35-38 | a higher minimum never selects more bits |
| `Stability.MasksCombineToMaskOfLeast` | app/hardware/puf/stability.py:35-47 | masking several reliability rows and combining the masks is masking their pointwise least, which is what enrollment does |
| `Stability.CombinedSelectsFewer` | app/hardware/puf/stability.py:41-47 | a combined mask selects no more bits than any of its parts |
| `Stability.MaskedHammingDistance` | app/hardware/puf/stability.py:50-57 | defined exactly for equal widths and a non-empty mask, with a ratio between zero and one |
| `Stability.CloseToReferenceCloseTogether` | app/hardware/puf/stability.py:50-57 | two responses within a ratio of one reference are within twice that ratio of each other |
| `Stability.ReliableBitsBoundDistance` | app/hardware/puf/stability.py:22-57 | when every selected bit is at least as reliable as the minimum, the samples' distances to the vote sum to at most (1 - minimum) x samples x selected bits |
| `Stability.CloneLikelihoodShape` | app/hardware/puf/stability.py:131-135 | zero exactly for accepted ratios, one exactly from a half on, linear between and monotone, for every configurable threshold |
| `PufVerifier.SealedTemplateOpens` | app/hardware/puf/verifier.py:153-165 | a sealed template opens to its reference with a matching commitment, for every key, nonce and stimulus |
| `PufVerifier.CommitmentBinds` | app/hardware/puf/verifier.py:159-165 | one commitment fixes stimulus, reference and mask although they are only concatenated, or two named messages share a tag |
| `PufVerifier.MaskIsBound` | app/hardware/puf/verifier.py:246-254 | a template with another mask in it does not open any more, or two named messages share a tag |
| `PufVerifier.CommitmentIsNoSeal` | app/hardware/puf/verifier.py:159-165 | a commitment that is also a seal tag or a keystream block under the same key is the tag of two named messages |
| `PufVerifier.SelectStable` | app/hardware/puf/verifier.py:117-130 | the reference is the vote of the corners and the mask selects exactly the bits reliable across and within all corners |
| `PufVerifier.StableBitsAt` | app/hardware/puf/verifier.py:144-147 | the bits whose entropy is judged are the selected bits of the reference, in order and nothing else |
| `PufVerifier.EnrollChallenge` | app/hardware/puf/verifier.py:93-178 | enrolls exactly when the responses can be voted on, enough bits are stable and unbiased; the template has the challenge's identifier and stimulus, the mask of the stable bits, the policy's two response thresholds, and opens to the majority response |
| `PufVerifier.EnrollmentGuarantees` | app/hardware/puf/verifier.py:117-178 | the same of the template as a value, and the corner distances sum to at most (1 - minimum reliability) x corners x stable bits |
| `PufVerifier.ValidateEnvelope` | app/hardware/puf/verifier.py:195-226 | accepts exactly when all checks pass, identifiers and digests agree, and the first template of the stimulus has the challenge's identifier |
| `PufVerifier.Judge` | app/hardware/puf/verifier.py:271-295 | accepted exactly when all five conditions hold; status, reasons and clone likelihood agree with what failed |
| `PufVerifier.Authenticate` | app/hardware/puf/verifier.py:228-312 | gives a verdict exactly when envelope, template and measurements allow one, accepts exactly under the five conditions on the opened reference, and gives each reason exactly when its condition holds |
| `PufVerifier.MaskedSumCounts` | app/hardware/puf/verifier.py:261-266 | the reliability sum takes every selected bit once and no other |
| `PufVerifier.EnrollThenAuthenticate` | app/hardware/puf/verifier.py:93-312 | a challenge that was enrolled and a response to it: the service answers exactly for responses of the enrolled width, with some stable bit and measured noise; RESPONSE_MISMATCH exactly when the share of stable bits that differ from the corners' majority exceeds the ratio of the enrollment policy, LOW_RESPONSE_RELIABILITY exactly when the stable bits average below its minimum, the other reasons by the policy in force; accepted exactly without reasons |
| `PufVerifier.AcceptedResponsesAgree` | app/hardware/puf/verifier.py:256-281 | two responses accepted under one template differ on at most twice its ratio of the stable bits |
| `ChallengeLedger.ReadState` | app/hardware/puf/repository.py:101-130 | the line-by-line loop gives the fold of the log or its first error |
| `ChallengeLedger.FoldsIffLawful` | app/hardware/puf/repository.py:101-130 | a log folds exactly when every challenge is issued once and consumed at most once after that, and the state says of each challenge which lines it has |
| `ChallengeLedger.IssuedThenConsumed` | app/hardware/puf/repository.py:118-129 | two lines about one challenge are its issuance and, later, its consumption |
| `ChallengeLedger.StatusNeverBack` | app/hardware/puf/repository.py:92-130 | as a log grows no challenge moves back, and an issued one stays with its device |
| `ChallengeLedger.IssueAnswers` | app/hardware/puf/repository.py:151-166 | in a folding log a challenge is issued exactly when no line issued it |
| `ChallengeLedger.ConsumeAnswers` | app/hardware/puf/repository.py:168-188 | in a folding log a challenge is consumed exactly when a line issued it for the device and none consumed it |
| `ChallengeLedger.ChallengeLedger.GetStatus` | app/hardware/puf/repository.py:143-149 | AVAILABLE exactly without an issued line, CONSUMED exactly with a consumed one; bad identifiers and corrupt logs are errors |
| `ChallengeLedger.ChallengeLedger.Issue` | app/hardware/puf/repository.py:151-166 | appends one issued line, or raises and leaves the log alone |
| `ChallengeLedger.ChallengeLedger.Consume` | app/hardware/puf/repository.py:168-188 | appends one consumed line for the issuing device, or raises and leaves the log alone |
| `ChallengeProtocol.RunKeepsInv` | app/hardware/puf/adapter.py:145-193 | over any interleaving of clients the log folds, names one device per challenge, and each issued challenge was returned by exactly one issue_challenge call and each consumed one passed exactly one authenticate call |
| `ChallengeProtocol.RunNeverBack` | app/hardware/puf/adapter.py:145-193 | between any two moments of any run no challenge's status moves back |
| `ChallengeProtocol.VerifiedWasReturned` | app/hardware/puf/adapter.py:180-193 | whoever passed with a challenge did so for the device it was returned to, and nobody else passed with it |
| `ChallengeProtocol.ConsumePassesIff` | app/hardware/puf/adapter.py:187-193 | an authentication gets past the ledger exactly when its challenge was returned for the same device and nobody passed with it before |
| `ChallengeProtocol.PassedAsAsked` | app/hardware/puf/adapter.py:180-193 | whoever passed asked for that challenge and that device |
| `ChallengeProtocol.ClaimFailsIffRaced` | app/hardware/puf/adapter.py:147-158 | claiming a challenge raises the replay error exactly when another call was returned it first, and exactly when the line that issued it was written after the call had looked and found none |
| `ChallengeProtocol.SettlesOnFirstFree` | app/hardware/puf/adapter.py:147-158 | over any interleaving the challenge a call claims or returns had no issuing line when the call looked, and the call had seen every earlier one of its bank issued, each at a read of its own |
| `ChallengeProtocol.ExhaustedMeansAllIssued` | app/hardware/puf/adapter.py:147-162 | over any interleaving a call reports that none is left only after it saw every challenge of its bank issued, each at a read of its own |
| `ChallengeProtocol.AloneReturnsFirstFree` | app/hardware/puf/adapter.py:145-158 | a call that runs alone returns the first challenge of its bank that no line issued, whenever there is one, and adds the line |
| `ChallengeProtocol.AloneExhausted` | app/hardware/puf/adapter.py:145-162 | a call that runs alone on a log that issued its whole bank reports that none is left and writes nothing |
| `RateLimiter.RateLimiter.Create` | app/security/rate_limiting.py:17-23 | refuses exactly the limits that are not positive |
| `RateLimiter.RateLimiter.Check` | app/security/rate_limiting.py:25-36 | accepts exactly when the full history has fewer accepted calls in the window than the call's own limit, or the limiter's for none or zero; an accepted call is recorded and nothing else is; the wait is counted from the oldest call in the window; a negative limit with an empty window is an index error |
| `RateLimiter.RateLimiter.Clear` | app/security/rate_limiting.py:38-40 | forgets every key |
| `RateLimiter.NoWindowExceeds` | app/security/rate_limiting.py:25-36 | no half-open window of the limiter's length, wherever it ends, ever holds more accepted calls than the largest limit used |
| `RateLimiter.RejectedLeavesNoTrace` | app/security/rate_limiting.py:31-35 | leaving a rejected call out changes nothing that follows |
| `RateLimiter.RetryAfterSufficesIff` | app/security/rate_limiting.py:32-34 | waiting as told is enough, under the same limit, exactly when all but limit - 1 of the calls in the window have left it by then, however many it holds |
| `RateLimiter.RetryAtOneLimitSufficesIff` | app/security/rate_limiting.py:32-34 | with exactly the limit in the window that means: exactly when the exact wait is at most a second or whole |
| `RateLimiter.OneLimitFillsWindow` | app/security/rate_limiting.py:28-34 | a key always checked against one limit has exactly the limit in its window when a caller is limited |
| `Attestation.NonceSpellsBytes` | app/hardware/opentitan/attestation.py:172-190 | a nonce is valid exactly when it spells an allowed number of bytes in either case |
| `Attestation.TimestampReasons` | app/hardware/opentitan/attestation.py:125-170 | at most one reason, the right one, and an error exactly for a naive clock and a UTC timestamp |
| `Attestation.Inspect` | app/hardware/opentitan/attestation.py:315-410 | a reason is listed exactly when its condition holds |
| `Attestation.OpenTitanAttestationVerifier.Verify` | app/hardware/opentitan/attestation.py:315-439 | passes exactly when nothing is wrong and the counter is above the stored one; only then does the replay state change |
| `Attestation.CounterStep` | app/hardware/opentitan/attestation.py:192-313 | one call touches the counter of its own device at most, and only upward |
| `Attestation.FirstEvidence` | app/hardware/opentitan/attestation.py:192-313 | sound evidence of a device without a stored counter passes exactly with a counter that is not negative |
| `Attestation.DamagedFileRaises` | app/hardware/opentitan/attestation.py:192-313 | sound evidence raises exactly when the replay file has another version, no device table, or an unreadable record of that device |
| `Attestation.AcceptedIsFiled` | app/hardware/opentitan/attestation.py:192-313 | accepted evidence leaves its counter, its digest and the time in the file, and every other device's record as it was |
| `Attestation.CountersIncrease` | app/hardware/opentitan/attestation.py:192-313 | over any sequence of calls, from any state, the counters accepted for a device strictly increase |
| `Attestation.NoEvidenceTwice` | app/hardware/opentitan/attestation.py:315-439 | no evidence is accepted twice |
| `Attestation.FileAcceptsWhatMemoryAccepts` | app/hardware/opentitan/attestation.py:192-313 | the file-backed and the in-memory counters accept exactly the same calls |
| `PolicyFusion.Fuse` | app/ai/risk_engine/policy_fusion.py:10-87 | the score is the highest of the clamped weighted score and the floors that apply; the reasons list exactly the mandatory names not set, and the two other floors exactly when set |
| `PolicyFusion.LastModelDecides` | app/ai/risk_engine/policy_fusion.py:43-47 | with two models certain of a threat the gate still depends on the third: below 2/3 for the base risk, 1/2 for the CNN, 2/5 for the anomaly score |
| `PolicyFusion.GateOpensIff` | app/ai/risk_engine/policy_fusion.py:38-83 | on any controls, the fused score lies under the gate's threshold exactly when every mandatory control passed, custody is intact and the weighted score is below 0.85 |
| `PolicyFusion.GatePassesClasses` | app/integration/adapters.py:1095-1109 | the class that a score names never closes the gate: it passes exactly the scores below 0.85, COMPROMISED ones from 0.65 on among them |
| `AiGate.MissingModelFeatures` | app/integration/evidence_features.py:216-252 | lists exactly the required features that the pipeline cannot supply and the PUF if it is not verified, so nothing exactly for a verified PUF and schema 2.0, or 2.1 with both relative features; unknown schemas raise |
| `AiGate.BuildAiControls` | app/integration/adapters.py:858-963 | raises for controls of the simulation's own and unverified hardware; otherwise sets exactly the adapter's names, each to its own source, never those of the two optional floors |
| `AiGate.ReachesGateIff` | app/integration/adapters.py:993-1060 | nothing gets to the gate but evidence of schema 2.0, or of 2.1 with both relative features, without controls or evidence of its own, over a PUF verified in its own stage and every required hardware stage passed |
| `AiGate.RunAiPipeline` | app/integration/adapters.py:993-1123 | answers exactly when nothing on the way raises; then fusion saw every mandatory control passed and no floor, and the gate passes exactly below 0.85 |
| `Pipeline.VerifyBlockchain` | app/integration/service.py:876-935 | when required, passes exactly with no error, Fabric committed and valid, and Ethereum confirmed; when not, also without any ledgers; raises exactly for a malformed result without an error |
| `Pipeline.RunAi` | app/integration/service.py:712-731 | the AI stage raises exactly when the adapter does not reach its gate, and passes exactly below 0.85 otherwise |
| `Pipeline.IntegratedPipelineRun.ExecuteStage` | app/integration/service.py:1051-1190 | saves the record before and after the stage, keeps every saved record sound, and lets exactly the exceptions of mandatory stages out |
| `Pipeline.IntegratedPipelineRun.Stop` | app/integration/service.py:1192-1218 | saves one more sound record with the given status, decision and quarantine |
| `Pipeline.IntegratedPipelineRun.RunFile` | app/integration/service.py:100-373 | every saved record has its stages in order, each with the status its stage yielded, with a stopping one last, is COMPLETED exactly when it says DEPLOY, and says DEPLOY only for a deployable chip; the run ends at the first blocking stage with that stage's decision or exception, and decides DEPLOY exactly when PUF, hardware and AI passed, with a verified PUF source and all hardware stages, compliance approved and both ledgers are valid; an earlier run of the same source is returned unless forced |

## Left out

- Prng.DeterministicPrng.RandInt, Shuffle, RingPairs and DelayPatterns take a number of attempts, because the loops
  of the code need not end; beyond that number the model says nothing. The lemmas say when an attempt can succeed.
- ChallengeFactory.RingPairs: needs at least two oscillators, which the configuration guarantees with at least eight.
- RateLimiter.RateLimiter.Check: needs a clock that does not run backward; the code reads its clock before it takes the
  lock, so two threads could enter in the other order.
- EventFiles.EventFiles.VerifyAll: takes for granted, for the records on file, that decoding inverts encoding and that
  no text with an open string literal decodes; so do RebuildIndexes and Rebuild. Both are facts about JSON, and
  `JournalText.CodecExists` shows that they can be met.
- Stability.ReliableBitsBoundDistance: states the product as repeated addition; `Stability.TimesTimes` shows that the
  two are equal.
- Attestation.OpenTitanAttestationVerifier.Verify: the checks of the constructor's own arguments are not modelled.
- Payload values, and with them the status, are texts; other JSON values for `status` are not modelled.
- JSON beyond string literals, the filesystem, fsync and partial writes: journals are byte sequences, texts or record
  lists, one JSON line of the ledger is one value, since identifiers, times and digests hold no line separators, and
  a write happens whole or not at all, except that a crash may leave an empty journal or only some of the index files
  written.
- Missing or unreadable index files read as their defaults, which the model has as empty indexes.
- The order of latest.json after a rebuild, which follows the order of the files; the reader's snapshot fall-back.
- The counters of `derive_key` (2^32 blocks) and of the generator (2^64 blocks) are unbounded here.
- Gaussian sampling, spectra, Shannon entropy, noise distance and environment penalty: their values are inputs.
- Time zones and the parsing of timestamps, base64 and environment variables; letter case beyond ASCII.
- Profile signatures, challenge signatures and response digests enter `PufVerifier` as verdicts.
- The enrollment repository, the simulator's ring frequencies and noise model, challenge expiry.
- Fabric, Ethereum, Yosys, Verilator and the machine-learning models: their results are inputs.
- Flask routes, the dashboard, sockets, logging, command lines, export and supplier scoring, the older orchestrator.
