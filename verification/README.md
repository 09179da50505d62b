# Verified model of a distributed counting Bloom filter

A Dafny model of the core of a distributed Bloom filter service written in Go: the counting filter
with its hash positions, position cache and checksummed encoding; the encrypted, rolling
write-ahead log (WAL) with its crash recovery; the asynchronous and the batching WAL writers; the
replicated state machine that ties filter, WAL and snapshots together; and two admission
controls, a token bucket and a replay guard. Objects that the Go code updates in place are classes
whose methods are proved against functions on values; the whole-run theorems are lemmas about
those functions. `dafny verify dfyconfig.toml` checks the project.

| modules | component |
|---|---|
| `Bytes`, `Decimal`, `Gcd` | words and bytes, decimal printing and scanning, divisibility |
| `HashIndices`, `Counters`, `CountingFilter`, `FilterRuns` | positions, counters, the filter, runs of it |
| `Burst`, `Crc32`, `FilterCodec`, `FilterBuffers` | what a CRC detects, CRC-32 (section 8 of RFC 1952), the encoding, its byte buffers |
| `LruCache`, `CacheRuns`, `CachedFilter` | the LRU cache of positions and the filter behind it |
| `Encryptor`, `WalFormat`, `WalDirectory`, `Wal`, `WalRuns`, `WalRecovery` | records, frames, files, writer and reader, every run with crashes, recovery |
| `AsyncWal`, `AsyncRuns`, `SyncWal` | the asynchronous writer as a state machine, its invariants, the batching writer |
| `Fsm`, `FsmRuns` | the replicated state machine, replicas and snapshots |
| `WalReplay`, `WalSystem` | replaying the WAL over runs with restarts; state machine and WAL together |
| `TokenBucket`, `ReplayGuard`, `ReplayRaces` | rate limiting, replay protection, overlapping validations |

## What is assumed

* MurmurHash3 is an arbitrary function to 32-bit words (`Hash32`). AES-GCM (section 7 of NIST SP
  800-38D) is a pair of functions of which only "opening what was sealed gives the plaintext back" is
  used (`Aead.Lawful`). `encoding/json` is a set of functions of which only this is used: what
  is rendered parses back, a rendered `FSMCommand` does not parse as a `Command` (its timestamp is a
  number, not a string), and what parses starts like a JSON text (`Json.Lawful`).
* The clock, nonces, keys, timer expiry, WAL write errors, the HMAC verdict and the order in which
  Raft calls the state machine are parameters or steps of the environment. Time and tokens of the
  rate limiter are reals.
* In the WAL runs a write that fails half-way ends the session, as a crash does. What a reader loses
  when it does not is `ShortWriteLoses`. File indices stay below one million (see `NameRoundTrip`)
  and frames below 4 GiB.

## Where the code does not do what one would expect

Each of these is a lemma. It gives the exact condition under which the property holds, and an input
or a family of inputs on which it fails.

* A change of four neighbouring bytes of a serialised filter is detected, with one exception: the
  bit-reflected CRC is stored most significant byte first, so flipping the last two counters by 61 D8
  and the first two checksum bytes by F4 EE is accepted (`CorruptionDetected`).
* `BatchAdd` checks all positions before it increments any. If an item's positions repeat, a counter
  can wrap from 255 to 0; it never does exactly when they do not (`NeverWrapsIffDistinct`,
  `DistinctIff`). In a filter of four counters and three hashes 127 adds and one batch add lose an
  item that is live 128 times (`BatchAddLosesItem`).
* Replaying the WAL stays below the running filter, over any run with restarts and restores, exactly
  when every new or restored filter covers what the WAL holds at that moment (`ReplayBelowIff`). A
  process that starts afresh and applies the log again does not: for every filter and every add the
  replay then overflows or overshoots (`ReappliedAdd`).
* The WAL of the asynchronous writer is in order as long as no two batches are outstanding at once, whoever
  flushes (`WalAscends`); as soon as two are, two more steps can put it out of order
  (`ContestedCanSwap`). An explicit `Flush` that overtakes `flushLoop` is such a run (`FlushOvertakes`).
* A clean-up forgets the key of a request that is still acceptable exactly when it starts above the size
  limit and the half it evicts has more places than there are expired keys (`ForgetsAcceptableIff`).
  After any run some request can be accepted again exactly when an accepted, unexpired one has lost
  its key (`AcceptsAgainIff`, `ReplayedBeyondLimit`). `timestampCount` keeps the number found
  before the age pass (`CleanupOldTimestamps`).
* The age test of a request and the storing of its key are two steps. A clean-up in between lets a replay
  through, even within the limit, exactly when an accepted request is waiting whose timestamp is
  before the cutoff (`SweepExact`, `OverdueIsAcceptedAgain`, `SweptInBetween`).
* The `%06d` scan reads back a file's index exactly when it is below one million (`NameRoundTrip`).
* With `maxFiles` 0 a roll deletes the file just opened and the record goes nowhere (`RollCleansUp`);
  with a negative one all files are deleted and the clean-up panics (`CleanupOldFiles`).
* Behind a short write that does not end the session, the later records of that file are all lost exactly
  when the bytes it left and what follows make no record (`ShortWriteLoses`).
* A rotation after a reload of the stored key rebinds a version; records stay readable exactly when no
  version in use is rebound (`KeyStability`, `SafeRunDecrypts`, `RotateReloadRotate`).
* A failed flush of `SyncWALWriter` has already emptied its buffer (`SyncConservation`).
* `Deserialize` accepts every filter with fewer than two counters and a valid k, on which hashing would
  divide by zero (`TinyAccepted`, `UsableIff`, `Restore`); a filter beyond the decoder's limits cannot be
  restored from its own snapshot (`RestoreRoundTrip`).
* `Decrypt` panics on a known version with a length field below 16 (`PanicIff`), which no written frame
  has (`FrameNeverPanics`).
* Capacity 0 still caches the last key used (`ZeroCapacity`); a negative capacity panics when the cache
  is made.

The record layout is the one of the code, `[length][version][nonce, ciphertext]`, not the one
sketched in ADR-001.md.

## Model

| member | source | states |
|---|---|---|
| HashIndices.GetHashIndices | pkg/bloom/hash.go:26-40 | the filled array is the k double-hash positions, (h1 + i * (1 + h1 mod (m - 1))) mod m, computed in 64-bit arithmetic |
| HashIndices.GetHashIndicesPooled | pkg/bloom/hash.go:45-62 | whatever a pooled slice held before, its first k entries are the same positions |
| HashIndices.IndexFormula | pkg/bloom/hash.go:26-40 | the i-th position in the numbers of the code |
| HashIndices.NoWrap | pkg/bloom/hash.go:26-40 | with k up to 2^32 the 64-bit sum and product never wrap, so the position computed is the unbounded one, and it is below m |
| HashIndices.DistinctIff | pkg/bloom/hash.go:26-40 | the k positions are pairwise distinct exactly when k is at most m / gcd(h2, m) |
| HashIndices.PrimeSizeDistinct | pkg/bloom/hash.go:26-40 | for prime m and k up to m the positions are always distinct |
| Counters.AddAtEffect | pkg/bloom/counting.go:43-55 | an add succeeds exactly when every counter has room for all its occurrences, and then adds exactly those; a failing one never adds more |
| Counters.AddAtFailure | pkg/bloom/counting.go:48-53 | a failing add leaves exactly the increments made before the saturated position |
| Counters.RemoveAtEffect | pkg/bloom/counting.go:70-80 | a remove subtracts each position's multiplicity and stops at zero |
| Counters.AddThenRemove | pkg/bloom/counting.go:43-80 | removing right after a successful add restores every counter |
| Counters.BatchAddAtEffect | pkg/bloom/counting.go:85-119 | an item of a batch is added, modulo 256, exactly when no position is saturated; otherwise nothing changes |
| Counters.BatchAddAtIsAddIff | pkg/bloom/counting.go:85-119 | past the check, the batch increment is the single add exactly when all occurrences fit |
| Counters.NeverWrapsIffDistinct | pkg/bloom/counting.go:85-119 | the two-pass batch add is safe in every filter state exactly when positions do not repeat |
| CountingFilter.CountingBloomFilter.constructor | pkg/bloom/counting.go:33-39 | a filter of m zero counters |
| CountingFilter.CountingBloomFilter.Add | pkg/bloom/counting.go:43-55 | the in-place loop is the saturating add, with its partial effect on failure |
| CountingFilter.CountingBloomFilter.Remove | pkg/bloom/counting.go:70-80 | the in-place loop is the truncated removal |
| CountingFilter.CountingBloomFilter.Contains | pkg/bloom/counting.go:143-154 | true exactly when every position is non-zero |
| CountingFilter.CountingBloomFilter.Count | pkg/bloom/counting.go:181-193 | the least counter over the item's positions |
| CountingFilter.CountingBloomFilter.BatchAdd | pkg/bloom/counting.go:85-119 | counters, messages and counts of the item-by-item batch; an entry of errors is empty exactly for a success; successes and failures add up |
| CountingFilter.CountingBloomFilter.BatchRemove | pkg/bloom/counting.go:122-138 | the fold of single removals |
| CountingFilter.CountingBloomFilter.BatchContains | pkg/bloom/counting.go:159-177 | the map of single lookups |
| CountingFilter.BatchSuccessIff | pkg/bloom/counting.go:85-119 | item n of a batch succeeds exactly when none of its positions is saturated after the items before it |
| CountingFilter.BatchAddRefinesAdd | pkg/bloom/counting.go:85-119 | with non-repeating positions the batch is all-or-nothing per item: its counters are those of single adds over exactly the successes |
| FilterRuns.RunAccounted | pkg/bloom/counting.go:43-138 | over whole runs of single and batch operations every counter covers the live items' occurrences, with equality when no single add overflowed; batch-added items have non-repeating positions |
| FilterRuns.NoFalseNegatives | pkg/bloom/counting.go:143-154 | every live item is contained, and each of its counters is at least its multiplicity |
| FilterRuns.ContainsExact | pkg/bloom/counting.go:143-154 | after a run without overflow an item is contained exactly when each of its k positions is one of some live item; after any run one zero counter is enough for a no |
| FilterRuns.CountCovers | pkg/bloom/counting.go:181-193 | whatever Count returns for an item is at least its multiplicity |
| FilterRuns.BatchAddLosesItem | pkg/bloom/counting.go:85-119 | with repeating positions a successful batch add wraps a counter and a live item is no longer contained |
| Crc32.FoldIsFeed | pkg/bloom/counting.go:229-231 | the table-driven CRC loop is the division of a lawful linear register |
| Crc32.RegisterLawful | pkg/bloom/counting.go:229-231 | the CRC-32 step is linear and injective, and shifting by a byte is undone by a step |
| Crc32.ChecksumBurst | pkg/bloom/counting.go:229-231 | strings of equal length that differ inside four neighbouring bytes have different checksums |
| Crc32.Straddle | pkg/bloom/counting.go:229-231 | a difference in the last one to three bytes that leaves the matching low checksum bytes alone is the one two-byte pattern |
| Crc32.PairFlip | pkg/bloom/counting.go:229-231 | that pattern really changes the checksum bytes by F4 EE |
| Crc32.CheckValue | pkg/bloom/counting.go:229-231 | the CRC-32 of the letter a is E8B7BE43, stored in that order, and that of nothing is 0 |
| FilterCodec.RoundTrip | pkg/bloom/counting.go:217-281 | decoding what was encoded gives the filter back |
| FilterCodec.RoundTripIff | pkg/bloom/counting.go:217-281 | and only for filters within the decoder's limits |
| FilterCodec.Layout | pkg/bloom/counting.go:217-234 | the bytes one by one: big-endian m and k, the counters, the CRC-32 of all that |
| FilterCodec.UsableIff | pkg/bloom/counting.go:239-281 | an accepted filter can be hashed into exactly when it has two counters or more |
| FilterCodec.TinyAccepted | pkg/bloom/counting.go:239-281 | every filter with fewer counters and a valid k is accepted |
| FilterCodec.Canonical | pkg/bloom/counting.go:239-281 | every accepted byte string is the encoding of what it decodes to |
| FilterCodec.CorruptionDetected | pkg/bloom/counting.go:217-281 | a change inside any window of four bytes is refused, exactly except for the flip of the last two counters and first two checksum bytes |
| FilterCodec.SingleByteDetected | pkg/bloom/counting.go:217-281 | a change of any single byte is refused |
| FilterBuffers.SerializeFilter | pkg/bloom/counting.go:217-234 | the filled buffer is the encoding of the filter |
| FilterBuffers.DeserializeFilter | pkg/bloom/counting.go:239-281 | a fresh filter with the decoded value, or the decoder's error |
| LruCache.IndexCache.constructor | pkg/bloom/cache.go:25-31 | an empty cache of the given capacity, which must not be negative |
| LruCache.IndexCache.Get | pkg/bloom/cache.go:35-55 | a hit returns the entry and moves its key to the recent end |
| LruCache.IndexCache.Put | pkg/bloom/cache.go:58-83 | updates and touches, or evicts the oldest and appends |
| LruCache.IndexCache.Remove | pkg/bloom/cache.go:86-94 | deletes the entry and its place in the list |
| LruCache.IndexCache.Clear | pkg/bloom/cache.go:97-103 | the empty cache |
| LruCache.IndexCache.RemoveFromLRU | pkg/bloom/cache.go:120-127 | the list without the first occurrence of the key |
| LruCache.IndexCache.EvictOldest | pkg/bloom/cache.go:130-138 | the cache without its oldest key |
| LruCache.PutIntoLru | pkg/bloom/cache.go:58-83 | Put keeps list and map in step and within the limit |
| LruCache.GetAfterPut | pkg/bloom/cache.go:35-94 | what is put is found, what is removed is not |
| LruCache.GetOther | pkg/bloom/cache.go:35-94 | other keys are found as before, but for the head of the list when it is evicted; the keys found are those of the list |
| LruCache.ZeroCapacity | pkg/bloom/cache.go:58-83 | with capacity 0 the cache holds exactly the last key put |
| LruCache.RemoveFromLru | pkg/bloom/cache.go:86-94 | Remove keeps list and map in step |
| CacheRuns.Inclusion | pkg/bloom/cache.go:35-138 | for every trace the smaller cache's list is a suffix of the larger's |
| CacheRuns.RunOrdered | pkg/bloom/cache.go:35-138 | the list is ordered by last use |
| CacheRuns.MostRecent | pkg/bloom/cache.go:35-138 | without removals it is the most recent part of the unbounded recency list |
| CachedFilter.CountingBloomFilterWithCache.Add | pkg/bloom/cache.go:156-177 | the positions come from the cache or are computed and cached; counters and answer are those of the uncached add |
| CachedFilter.CountingBloomFilterWithCache.Contains | pkg/bloom/cache.go:180-200 | the same for a lookup, which leaves the counters alone |
| CachedFilter.CountingBloomFilterWithCache.Remove | pkg/bloom/cache.go:203-207 | the uncached removal, and the key leaves the cache |
| CachedFilter.StepTransparent | pkg/bloom/cache.go:156-207 | every cached entry equals the item's positions, so a step answers and counts as without a cache |
| CachedFilter.Transparent | pkg/bloom/cache.go:156-207 | for every sequence of single and batch operations and every capacity, same answers and same counters as uncached |
| CachedFilter.LruInclusion | pkg/bloom/cache.go:35-138 | on one trace with capacities a <= b: suffix lists, every hit in the smaller is one in the larger, no repetition, within the limit, ordered by last use |
| Encryptor.WALEncryptor.constructor | internal/wal/encryptor.go:146-178 | the loaded key is current and cached under its version |
| Encryptor.WALEncryptor.RefreshKey | internal/wal/encryptor.go:182-206 | an expired cache installs the loaded key, a failing loader changes nothing |
| Encryptor.WALEncryptor.RotateKey | internal/wal/encryptor.go:312-327 | the next version, with 32-bit wrap-around, is bound to the new key |
| Encryptor.WALEncryptor.Encrypt | internal/wal/encryptor.go:231-263 | the frame of the record under the current key |
| Encryptor.DecryptFrame | internal/wal/encryptor.go:267-309 | a frame opens to its plaintext under its own key and is refused when its version is unknown |
| Encryptor.FrameLayout | internal/wal/encryptor.go:231-263 | the bytes of a frame one by one: big-endian length and version, nonce, ciphertext |
| Encryptor.PlainIff | internal/wal/encryptor.go:267-309 | Decrypt returns a plaintext exactly when the version is known, the length fits and authenticated decryption under that key gives it |
| Encryptor.PanicIff | internal/wal/encryptor.go:267-309 | Decrypt panics exactly on a known version whose length field leaves no room for a nonce |
| Encryptor.FrameNeverPanics | internal/wal/encryptor.go:231-309 | no written frame makes it panic, under any keys |
| Encryptor.KeyStability | internal/wal/encryptor.go:182-327 | over any run every record ever produced stays openable exactly when no version in use is rebound; the current key is always the cached one |
| Encryptor.SafeRunDecrypts | internal/wal/encryptor.go:182-327 | then every record still decrypts to its plaintext at the end of the run |
| Encryptor.RotateReloadRotate | internal/wal/encryptor.go:182-327 | rotate, encrypt, reload, rotate rebinds a version in use, and the record's key is gone |
| WalFormat.ReadFile | internal/wal/encryptor.go:600-640 | the offset-driven loop returns the records up to the first incomplete or undecryptable one |
| WalFormat.StrictPrefixIsTorn | internal/wal/encryptor.go:600-640 | no strict prefix of a frame can be taken for a record |
| WalFormat.ParseFrames | internal/wal/encryptor.go:600-640 | frames followed by a torn tail parse to exactly their plaintexts, up to the first unknown key version, without a panic |
| WalFormat.ParseBeyond | internal/wal/encryptor.go:600-640 | whatever follows frames of known versions is read on from there |
| WalFormat.ShortWriteLoses | internal/wal/encryptor.go:493-496 | behind a short write all later records of the file are lost exactly when its bytes and what follows make no record |
| WalDirectory.NameRoundTrip | internal/wal/encryptor.go:396-427 | a file's index is read back from its name exactly when it is below one million |
| WalDirectory.SortByIndex | internal/wal/encryptor.go:379-423 | the exchange sort yields a sorted permutation |
| WalDirectory.Directory.GetWALFiles | internal/wal/encryptor.go:379-423 | every file once, in ascending order of index |
| WalDirectory.Directory.CleanupOldFiles | internal/wal/encryptor.go:532-551 | the oldest files are deleted until at most maxFiles are left; a negative maxFiles deletes all and panics |
| Wal.WALWriter.constructor | internal/wal/encryptor.go:335-368 | opens the file after the newest one |
| Wal.WALWriter.OpenCurrentFile | internal/wal/encryptor.go:426-457 | keeps an existing file and its size, creates a missing one |
| Wal.WALWriter.DoRollFile | internal/wal/encryptor.go:507-529 | the next file is opened, then old ones are cleaned up |
| Wal.WALWriter.Write | internal/wal/encryptor.go:461-501 | rolls by size or time if needed and appends the frame; a failing file keeps what it took, uncounted, and the error is reported |
| Wal.WALReader.ReadAll | internal/wal/encryptor.go:575-597 | the records of all files in ascending order of index |
| WalRuns.RelatedStep | internal/wal/encryptor.go:335-551 | every step, crashes at any byte and in the middle of a clean-up included, keeps the directory a list of segments of whole records with at most a torn tail each |
| WalRecovery.InvStep | internal/wal/encryptor.go:335-551 | every step keeps whole records only, the newest part of the completed writes, in files of bounded size |
| WalRecovery.RunLog | internal/wal/encryptor.go:335-551 | so after every run the directory is such a log of the completed writes |
| WalRecovery.CrashRecovery | internal/wal/encryptor.go:575-640 | after any run a reader with no wrong key for a surviving record gets the completed writes in order, each once, missing only the oldest (none while there are fewer than maxFiles files) and what follows an unknown key version in a file; nothing else exactly when it has all surviving versions |
| WalRecovery.OwnRecovery | internal/wal/encryptor.go:575-640 | with its keys kept, the process itself reads back a suffix of the completed writes |
| WalRecovery.RollingInvariants | internal/wal/encryptor.go:461-551 | after every run the file indices are contiguous, the current file is the newest with the right size, and each file is within the limit, or one record, or no whole record |
| WalRecovery.RollCleansUp | internal/wal/encryptor.go:484-551 | a rolling write leaves at most maxFiles files, and the record in the newest exactly when maxFiles is at least 1 |
| WalRecovery.WriteEffect | internal/wal/encryptor.go:461-501 | a write stays in the current file exactly when it fits and the interval has not passed, and is then appended to it and changes no other; otherwise the next file holds the frame alone; the recorded size is the file's length |
| WalRecovery.LastWriteLands | internal/wal/encryptor.go:461-501 | after every run that ends with a write the current file ends with its frame |
| WalRecovery.AttemptIsStep | internal/wal/encryptor.go:461-501 | a write the file takes whole is the Write step of the runs; a short one leaves the directory of a crash at that byte |
| WalRecovery.NewestSurvives | internal/wal/encryptor.go:532-551 | clean-up keeps the newest file exactly when it keeps any |
| AsyncWal.DoFlush | internal/wal/async_wal.go:170-203 | one write of the concatenated data, none if it is empty, then every callback once with the result |
| AsyncWal.StateRecords | internal/wal/async_wal.go:72-99 | the entries of a state are those given to WriteAsync, in order, and how many of them before Close |
| AsyncWal.WakesIff | internal/wal/async_wal.go:79-96 | a producer sets out to wake flushLoop exactly when its entry fills the buffer |
| AsyncWal.NoLostWakeUp | internal/wal/async_wal.go:72-99 | in every reachable state with a full buffer a token is pending, or about to be sent, or flushLoop is on its way to the buffer |
| AsyncWal.FlusherAdvances | internal/wal/async_wal.go:125-167 | flushLoop (or the sender it waits for) is then never blocked, not even draining its timer, and each step brings the swap closer |
| AsyncWal.NothingSetsBack | internal/wal/async_wal.go:72-167 | no step of any thread sets it back before the buffer is swapped |
| AsyncWal.FullBufferIsFlushed | internal/wal/async_wal.go:72-167 | so a full buffer of an open writer can always be swapped out, as the newest batch, by the next steps of flushLoop and of the producer that owes it a token, without the timer |
| AsyncWal.TimerAdvances | internal/wal/async_wal.go:125-151 | with anything in the buffer and nobody's help, flushLoop's next step (or the firing of its timer) is enabled and takes the buffer or brings that closer |
| AsyncWal.TimerNotSetBack | internal/wal/async_wal.go:72-167 | no step of any thread sets that back |
| AsyncWal.TimerFlushes | internal/wal/async_wal.go:139-142 | so any buffer of an open writer is taken, as the newest batch, by flushLoop and its timer alone |
| AsyncWal.CloserToRest | internal/wal/async_wal.go:125-151 | an open flushLoop that has been woken is never blocked and comes closer to rest; each swap answers one wake-up |
| AsyncWal.ComesToRest | internal/wal/async_wal.go:125-151 | left alone it comes to rest, with an empty buffer if it had been roused, after exactly one swap per wake-up due; a token taken cancels a timer value |
| AsyncWal.CloserToDone | internal/wal/async_wal.go:125-151 | in every reachable stopped state the next step of flushLoop is enabled and brings its end closer |
| AsyncWal.CloseReturns | internal/wal/async_wal.go:206-210 | so after Close flushLoop can always end by its own steps alone, and Close return |
| AsyncRuns.StepsAreDoFlush | internal/wal/async_wal.go:170-203 | the write and callback steps of a batch, taken in a row, do what doFlush does |
| AsyncRuns.AsyncConservation | internal/wal/async_wal.go:72-203 | under every interleaving batches and buffer are the entries, each once and in order; each callback is called once, with its batch's result; each batch is written once if its write succeeds |
| AsyncRuns.FlushLeavesNothing | internal/wal/async_wal.go:107-122 | after a call of Flush every entry enqueued so far is in a batch |
| AsyncRuns.DirectWriteLands | internal/wal/async_wal.go:102-104 | a synchronous Write goes behind everything the WAL has been given |
| AsyncRuns.CloseInvRun | internal/wal/async_wal.go:144-210 | once flushLoop has taken its last batch, nothing enqueued before Close is left in the buffer |
| AsyncRuns.WalAscends | internal/wal/async_wal.go:107-203 | while no two batches with data are outstanding at once, the WAL holds batches in the order they were taken, whoever flushes and whichever writes fail |
| AsyncRuns.ContestedCanSwap | internal/wal/async_wal.go:107-203 | from every reachable state with two outstanding, two write steps put the WAL out of order |
| AsyncRuns.InOrderPlaintext | internal/wal/async_wal.go:107-210 | under that condition and without write errors the WAL's plaintext is the data of the first n entries in order, all of those in batches if none is outstanding, and then, after the loop has ended, all enqueued before Close |
| AsyncRuns.LoopUncontested | internal/wal/async_wal.go:125-167 | without explicit flushes no two batches are ever outstanding |
| AsyncRuns.LoopPlaintext | internal/wal/async_wal.go:125-210 | with flushLoop the only flusher and no write error the plaintext is in order, and after the loop has ended it covers everything enqueued before Close |
| AsyncRuns.FlushOvertakes | internal/wal/async_wal.go:107-122 | a run in which an explicit Flush writes a younger entry first |
| SyncWal.SyncWALWriter.Write | internal/wal/async_wal.go:239-250 | buffers, and flushes at maxSize |
| SyncWal.SyncWALWriter.Flush | internal/wal/async_wal.go:253-273 | empties the buffer and writes it up to the first error |
| SyncWal.FlushExact | internal/wal/async_wal.go:253-273 | a flush empties the buffer and extends the log by a prefix of it, all of it exactly when it succeeds |
| SyncWal.BufferBounded | internal/wal/async_wal.go:239-250 | over any run the buffer stays below the batch size |
| SyncWal.SyncConservation | internal/wal/async_wal.go:239-273 | log and buffer are what was written, in order, exactly as long as no call reports an error |
| Fsm.BloomFSM.constructor | internal/raft/fsm.go:55-72 | a state machine around the given filter, with a WAL file newly opened in the directory if there is one |
| Fsm.BloomFSM.Apply | internal/raft/fsm.go:85-149 | the filter effect of the parsed command, the attempt to write the WAL record exactly on success (a failure changes nothing else), the applied position unless parsing failed |
| Fsm.AddEntry | internal/raft/fsm.go:107-113 | an add entry succeeds exactly when every counter has room for the item's occurrences, and then adds exactly those |
| Fsm.RemoveEntry | internal/raft/fsm.go:114-116 | a remove entry always succeeds and takes the item's occurrences off each counter, down to zero |
| Fsm.OtherEntry | internal/raft/fsm.go:89-119 | an entry that does not parse, or of another type, is an error and changes nothing |
| Fsm.AddThenRemoveEntry | internal/raft/fsm.go:105-119 | a remove of the same item undoes an accepted add |
| Fsm.BloomFSM.Snapshot | internal/raft/fsm.go:158-181 | the encoding of the filter at that moment |
| Fsm.Persist | internal/raft/fsm.go:283-308 | the JSON text around the encoding |
| Fsm.BloomFSM.Restore | internal/raft/fsm.go:185-225 | a fresh filter from either format, usable exactly when it has two counters or more, or an error and no change |
| Fsm.DispatchUnambiguous | internal/raft/fsm.go:197-222 | no raw filter encoding can start a JSON text, so Restore takes the right branch |
| Fsm.RestoreRoundTrip | internal/raft/fsm.go:185-225 | a persisted snapshot restores its filter exactly when the filter is within the decoder's limits |
| FsmRuns.Setting.SnapshotsInvisible | internal/raft/fsm.go:85-225 | for every log and every placement of snapshot, persist, restore and restart steps, each replica has exactly the filter of its log prefix, and replicas at one position agree |
| FsmRuns.Setting.StepsTakeEffect | internal/raft/fsm.go:85-308 | every step has its effect: entries move a replica on, snapshots are filed under the position they were taken at, a restore moves there |
| WalReplay.RecordReplays | internal/raft/fsm.go:89-142 | a WAL record takes the FSMCommand branch and does what the command did |
| WalReplay.PerformBelow | pkg/bloom/counting.go:43-80 | a filter that is pointwise smaller accepts whatever the larger accepts and stays smaller |
| WalReplay.ReplayBelowIff | internal/raft/fsm.go:55-225 | over any run of applies, crashes, restarts and restores, replaying the WAL stays below the running filter throughout exactly when every new or restored filter covers what the WAL holds; and then it never overflows |
| WalReplay.ReplayExact | internal/raft/fsm.go:89-142 | it gives the running filter itself if that came from such a replay and no add has overflowed since |
| WalReplay.ReplayBelowLive | internal/raft/fsm.go:89-142 | so without restarts it never overflows and stays below the live filter, whatever is applied |
| WalReplay.ReappliedAdd | internal/raft/fsm.go:55-142 | after a restart that applies an add again, for every filter, the replay overflows or ends above the running filter |
| WalSystem.System.RecordsMatch | internal/raft/fsm.go:121-142 | the completed WAL writes are the records of all processes in order |
| WalSystem.System.RecoverAndReplay | internal/raft/fsm.go:55-142 | from disk to filter: after any run of processes, with crashes at any byte, ReadAll returns the records of all of them while there are fewer than maxFiles files; the replay has stayed below the running filter exactly when every new or restored one covered the WAL, and then replaying what is read never overflows and stays below |
| TokenBucket.TokenBucketLimiter.constructor | internal/grpc/ratelimit.go:480-487 | a full bucket |
| TokenBucket.TokenBucketLimiter.Allow | internal/grpc/ratelimit.go:490-504 | refill up to the maximum, then take one token if there is one |
| TokenBucket.TokenBucketLimiter.Tokens | internal/grpc/ratelimit.go:523-530 | the lesser of the maximum and tokens + elapsed * rate, without taking it |
| TokenBucket.Session.LevelIsTightest | internal/grpc/ratelimit.go:490-504 | the tokens found are the least that any window of earlier requests leaves |
| TokenBucket.Session.Exact | internal/grpc/ratelimit.go:490-504 | a request is denied exactly when some window ending at it would exceed burst + rate * length |
| TokenBucket.Session.WindowBound | internal/grpc/ratelimit.go:490-504 | the grants of every window are at most burst + rate * length |
| TokenBucket.GreedyAdmissible | internal/grpc/ratelimit.go:490-504 | the limiter's own decisions respect every window |
| TokenBucket.Optimal | internal/grpc/ratelimit.go:490-504 | no other decisions that do can have granted more requests at any point |
| ReplayGuard.AuthInterceptor.ValidateAPIKeyAuth | internal/grpc/auth.go:262-296 | verdict and seen set of a request; the key is recorded before the signature is checked |
| ReplayGuard.AcceptedIff | internal/grpc/auth.go:262-296 | accepted exactly when the key is known, the request at most 300 s old, its replay key new and the signature right; stored whenever the first three hold |
| ReplayGuard.AuthInterceptor.CleanupOldTimestamps | internal/grpc/auth.go:406-490 | outdated keys are deleted, and the older half when there were too many; what the counter then holds |
| ReplayGuard.AgePassExact | internal/grpc/auth.go:406-449 | a clean-up of at most 100000 keys deletes the key of a request exactly when its timestamp is before now minus 300 s in whole seconds |
| ReplayGuard.AuthInterceptor.EvictOldest | internal/grpc/auth.go:451-489 | the older half of the dated keys, by timestamp |
| ReplayGuard.TimestampRecovered | internal/grpc/auth.go:274-293 | the timestamp is read back from the replay key even when the API key contains colons |
| ReplayGuard.ReplayKeyInjective | internal/grpc/auth.go:274-293 | different requests have different replay keys |
| ReplayGuard.AtMostOnce | internal/grpc/auth.go:274-449 | in every run whose clean-ups start within the size limit no request is accepted twice |
| ReplayGuard.ForgetsFreshIff | internal/grpc/auth.go:406-490 | a clean-up deletes keys its age pass leaves alone exactly when it starts above the limit with two dated keys left |
| ReplayGuard.ForgetsAcceptableIff | internal/grpc/auth.go:406-490 | it forgets a key whose request is still acceptable exactly when it starts above the limit and evicts more keys than have expired among those left |
| ReplayGuard.AcceptsAgainIff | internal/grpc/auth.go:262-296 | after any run some validation accepts a request again exactly when the key of an accepted, unexpired request is missing |
| ReplayGuard.ReplayedBeyondLimit | internal/grpc/auth.go:451-489 | for every n above the limit, one clean-up of exactly n keys lets a run accept a request twice |
| ReplayRaces.Uninterrupted | internal/grpc/auth.go:262-296 | an age test and a store with nothing in between are the atomic validation |
| ReplayRaces.SweepExact | internal/grpc/auth.go:274-449 | within the limit a clean-up keeps accepted requests guarded exactly when none of them is waiting overdue to store its key |
| ReplayRaces.OverlappingAtMostOnce | internal/grpc/auth.go:274-449 | so in every such run, however validations overlap, no request is accepted twice |
| ReplayRaces.OverdueIsAcceptedAgain | internal/grpc/auth.go:274-293 | and if one is waiting overdue, and only then, the next store accepts a request again |
| ReplayRaces.SweptInBetween | internal/grpc/auth.go:274-449 | such a run, with a single key in the map |

## Left out

- HashiCorp Raft itself, `Node`, elections, replication and transport (internal/raft other than fsm.go): the consensus code is not part of the repository.
- `DoubleHash`, `ComputeIndices` and the other hash providers in pkg/bloom/hash.go: they would repeat the position lemmas.
- Compression and snapshot files (pkg/bloom/compression.go, internal/raft/snapshot.go): gzip and directory I/O.
- JWT, mTLS, HMAC and certificate code in internal/grpc/auth.go: foreign cryptography; the signature verdict is a parameter.
- `RateLimitInterceptor` and proxy address parsing in internal/grpc/ratelimit.go: built on other libraries.
- gRPC server, gateway, metadata service, audit logger and statistics counters: plumbing with easy properties.
- Floating-point rounding of the token bucket: the model is over reals.
- `WALEncryptor` key files and Kubernetes secrets: the loaded key is a parameter.
- Goroutine fairness: `FlusherAdvances`, `NothingSetsBack` and `CloserToDone` give the ranking arguments; that an enabled step is eventually taken is not modelled.
- WalDirectory.Directory.GetWALFiles: the directory is a map from index to bytes, so entries that are not WAL files and file system errors do not occur; `NameRoundTrip` is the link to names.
- Wal.WALWriter.Write: errors other than a short write (of the cipher, of opening or deleting a file) are not modelled; in the run theorems a short write ends the session.
- Fsm.BloomFSM.Snapshot: the metadata map is not modelled; nothing reads it back.
- Fsm.Persist: metadata and sink errors are not modelled; index and term are written as 0, so the theorems are about the filter and not about the applied position.
- SyncWal.SyncWALWriter.Flush: modelled for one caller at a time; two concurrent flushes may interleave their records.
- ReplayGuard.AuthInterceptor.ValidateAPIKeyAuth: one step; `ReplayRaces` splits the age test from the store.
- ReplayGuard.AuthInterceptor.CleanupOldTimestamps: one step, also in `ReplayRaces`; stores during its passes are not modelled.
