# CLIProxyAPI: a verified model of its stateful cores

The proxy keeps several small protocols and formats whose correctness no single branch settles. This project models them
and proves what they promise, over every input, every interleaving and every way the transport can fail.

**HTTP/1.1 wire rewriter** (`Bytes`, `Numbers`, `ChunkTracker`, `ChunkGrammar`, `ChunkPrinter`, `StableOrder`,
`HeaderOrder`, `HeaderFacts`, `HeaderMeaning`, `WireMachine`, `OrderedConn`, `WireStream`, `RequestPrinter`). A
connection wrapper buffers request heads, reorders their lines and passes bodies through. `WireMachine` says byte by
byte what belongs on the wire; `OrderedConn.Write` is the loop of the source, proved against it for connections that
accept any part of a write and then fail, described by a script that is universally quantified. `ChunkGrammar` reads a
chunked body line by line and agrees with the four-state tracker on every input; `ChunkPrinter` prints every chunked
body of RFC 9112, section 7.1, within the limits, and reader and tracker end exactly where it does. The main result is
`WireStream.SendRequests`: whatever the cut into Write calls and whatever the connection does, the wire carries each
reordered head followed by its unchanged body, or a prefix of that. `RequestPrinter` prints whole requests, which meet
its conditions, and says what the server sees of them.

**Replay caches** (`ReplayItems`, `Eviction`, `TimedMap`, `Transport`; `BranchMachine`, `AntigravityCache`,
`AntigravityHome`; `GenerationMachine`, `ThinkingStore`, `ClaudeReplay`, `KimiReplay`; `CodexReplay`, `CodexMachine`,
`CodexHome`). Requests read a snapshot, run, and publish or delete only if the state still allows it. The machines are
the protocols without clocks and capacity; their theorems are about runs of any number of requests. The in-process
stores are classes whose every operation is proved to be a short run of the machine, from the world their earlier calls
have left. In the remote forms other requests take arbitrary legal steps before each of our operations reaches the
store, and an operation may be refused or may land without an answer; each call is proved to take only legal steps
itself, so that calls of any number of requests compose, and to fail or give up only for a reason that the script shows.

**YAML tree merge and graph copy** (`YamlTree`, `YamlMeaning`, `YamlMerge`, `YamlMergeFacts`, `YamlPreserve`,
`YamlReach`, `YamlTwice`, `YamlSettle`, `YamlWitness`; `YamlCopy`). The merged tree covers the generated one, keeps what
the user wrote, matches list elements one to one, and is the user's own tree when nothing changed. The deep copy works
on heap nodes, shared and cyclic ones included.

**Concurrent ownership** (`MuxMachine`, `MuxListener`; `ConnMachine`, `HomeClient`; `ReleaseMachine`, `ReleaseFlusher`).
Each protocol is a machine of atomic steps with a conservation or monotonicity invariant; the classes are the source's
methods cut where other goroutines may run, each piece one step of the machine; the calls that take several pieces are
proved for whatever others do in between.

**LRU cache** (`BoundedLru`) and **RESP codec** (`Resp`, `RespIo`). The list is a function of the whole access history;
the codec's writers and readers are inverse for all byte strings.

Two properties a reader may expect do not hold of the code.

Not every generated configuration value reaches the file, not even every one that is no default itself: what counts is
also everything above it. For every generated scalar and every way to it through keys and list positions,
`YamlReach.MergedReaches` says exactly when the merged tree holds it, and `YamlReach.ArrivesExactly` says what the
condition is: the user's tree has every key on the way, or the part it lacks is copied whole, or the first missing key
is added (its pruned value is no default by the code's own test) and below that key no key leads to a default. For a
scalar that is no default itself the last part means that no mapping or list above it, under a key, is zero as a whole
(`YamlReach.LostUnderZero`). `YamlReach.LoneZeroWeightIsLost` and `YamlReach.NestedZeroWeightIsLost` are inputs where an
explicit zero weight, which counts as meaningful, is lost.

Saving twice is not always saving once: the first save may fill a blank scalar and so change what a list element is
known by (`YamlWitness.SecondSaveDiffers`). It is once exactly when the first save leaves a steady tree
(`YamlTwice.SavingTwice`): at every place of every list the generated element there finds the element of that very
place, which has no keys of its own and is steady itself, or else what the merge puts there is what stood there. Usually
it is the first at every place (`YamlTwice.Settled`), but not always (`YamlWitness.MovedButSteady`). That the first save
leaves such a tree can be told beforehand if all generated list elements are texts or known by a named identity
(`YamlSettle.SavedOnce`).

## Model

| member | source | states |
|---|---|---|
| Numbers.AtoiItoa | internal/api/redis_queue_protocol.go:421-425 | printing a length and parsing it back gives the length, for every length a Go int can hold |
| Numbers.SignedParse | internal/httpwire/ordered_conn.go:163-178 | a sign before the digits is taken, and the values are those of a Go int64, from -2^63 to 2^63 - 1 |
| Numbers.ParseRejects | internal/httpwire/ordered_conn.go:163-178 | nothing but digits behind one optional sign is a number |
| Numbers.DigitsOfHex | internal/httpwire/ordered_conn.go:232-243 | a number printed in hexadecimal digits of either case is read back as that number |
| ChunkTracker.ChunkedRequestTracker.Consume | internal/httpwire/ordered_conn.go:220-280 | the loop consumes, completes or fails exactly where the byte machine does, and leaves the tracker in the machine's state |
| ChunkTracker.ChunkedRequestTracker.Clone | internal/httpwire/ordered_conn.go:213-218 | the preview object is new and in the same state; the original is not changed |
| ChunkTracker.FeedConcat | internal/httpwire/ordered_conn.go:220-280 | consuming composes over every cut of the data |
| ChunkTracker.ReplayPrefix | internal/httpwire/ordered_conn.go:60-70 | replaying any prefix of what a clean preview consumed never fails, and completes exactly when the whole of a completing preview is replayed |
| ChunkTracker.ProgressIsPositive | internal/httpwire/ordered_conn.go:59-78 | a clean run on some data consumes some of it, so the loop of Write moves on |
| ChunkGrammar.MachineMatchesGrammar | internal/httpwire/ordered_conn.go:220-280 | on every input the byte machine and a line-by-line reader that takes the code's own size syntax agree where the body ends or that it does not |
| ChunkGrammar.TrackerEndsBodyExactly | internal/httpwire/ordered_conn.go:209-280 | a new tracker completes iff the data starts with a body the line-by-line reader accepts, on that body's last byte |
| ChunkGrammar.FeedTrailers | internal/httpwire/ordered_conn.go:265-274 | the trailer section ends at a bare CRLF or at the first blank line within the limit |
| ChunkPrinter.PrintedIsRead | internal/httpwire/ordered_conn.go:220-280 | every chunked body printed as RFC 9112, section 7.1, has it (sizes in either case and with leading zeros, extensions, trailers), within the limits, is read as exactly that body, whatever follows |
| ChunkPrinter.TrackerAcceptsPrinted | internal/httpwire/ordered_conn.go:209-280 | a new tracker completes on every printed body, on its last byte, whatever follows |
| ChunkPrinter.SizeOfLine | internal/httpwire/ordered_conn.go:232-243 | off a size line the tracker reads the number its digits write, whatever white space and extension follow |
| ChunkPrinter.SignedSizeIsAccepted | internal/httpwire/ordered_conn.go:232-243 | beyond the standard the code accepts a sign before the digits |
| StableOrder.BucketsAreStableSort | internal/httpwire/ordered_conn.go:130-147 | collecting lines rank by rank is a stable sort: ordered by rank, and equal ranks in their original order |
| StableOrder.StableSortUnique | internal/httpwire/ordered_conn.go:130-147 | a stable sort of a list by a key is unique |
| StableOrder.BucketsPermute | internal/httpwire/ordered_conn.go:130-147 | no line is lost or doubled |
| HeaderOrder.OrderLines | internal/httpwire/ordered_conn.go:130-147 | the double loop with the used array computes the rank-by-rank order |
| HeaderOrder.OrderRequestHeader | internal/httpwire/ordered_conn.go:115-156 | for every head and every order function the loops compute the head, length and chunked decision whose meaning the lemmas below give |
| HeaderMeaning.AsksForItsOrder | internal/httpwire/ordered_conn.go:115-156 | for a head written as method, target, version and fields the order function is asked about that method and that target, and the fields go out in the stable sort by the order it desires, behind the same request line |
| HeaderMeaning.OtherHeadsStay | internal/httpwire/ordered_conn.go:120-123 | a head whose first line has fewer than two spaces goes out as it is |
| HeaderMeaning.UndesiredHeadsStay | internal/httpwire/ordered_conn.go:125-128 | so does one for which no order is desired |
| HeaderMeaning.RankMeans | internal/httpwire/ordered_conn.go:130-147 | the rank of a field is the first place of its name in the desired list, behind all places if it is not there |
| HeaderMeaning.NamedMeans | internal/httpwire/ordered_conn.go:158-161 | a line has a name iff what stands before its first colon is that name in some case |
| HeaderMeaning.NamelessLines | internal/httpwire/ordered_conn.go:158-161 | a line without a colon has no name |
| HeaderMeaning.FoldMeans | internal/httpwire/ordered_conn.go:158-161 | two names are the same iff they differ in the case of letters only |
| HeaderMeaning.FirstLengthCounts | internal/httpwire/ordered_conn.go:163-178 | only the first Content-Length line counts, whatever stands around it, and only if it is a positive number |
| HeaderMeaning.MentionsMeans | internal/httpwire/ordered_conn.go:180-192 | a list of codings mentions chunked iff one of its elements between commas is that word, trimmed and in any case |
| HeaderFacts.OrderIsStableSort | internal/httpwire/ordered_conn.go:130-147 | the new order is the one stable sort by first matching position in the desired list, unlisted last, and a permutation |
| HeaderFacts.OrderKeepsNamed | internal/httpwire/ordered_conn.go:158-161 | the lines of each name keep their order among themselves |
| HeaderFacts.OrderKeepsFraming | internal/httpwire/ordered_conn.go:163-192 | reordering changes neither the Content-Length that is computed nor the chunked decision |
| HeaderFacts.RewritePermutes | internal/httpwire/ordered_conn.go:115-156 | the rewritten head has the same request line, the same lines and the same byte length |
| HeaderFacts.RewriteIdempotent | internal/httpwire/ordered_conn.go:115-156 | rewriting a rewritten head changes nothing, framing included |
| HeaderFacts.HeadEndsAtFirstTerminator | internal/httpwire/ordered_conn.go:83-92 | a head ends at its first blank line iff none of its header lines is empty |
| HeaderFacts.RewriteKeepsHeadEnd | internal/httpwire/ordered_conn.go:115-156 | a head that ends at its first blank line is still such a head after rewriting |
| WireMachine.FeedWireConcat | internal/httpwire/ordered_conn.go:40-113 | what goes to the wire for one input after another is what goes there for both at once |
| WireMachine.FeedHead | internal/httpwire/ordered_conn.go:81-111 | the head goes out, rewritten, with the byte that completes it, and not before |
| WireMachine.FeedBody | internal/httpwire/ordered_conn.go:48-58 | bytes of a Content-Length body pass unchanged and count it down |
| WireMachine.FeedChunks | internal/httpwire/ordered_conn.go:59-79 | bytes the tracker accepts pass unchanged; bytes it rejects make the input malformed |
| OrderedConn.WriteAll | internal/httpwire/ordered_conn.go:282-296 | exactly the reported prefix of the data reached the connection, all of it unless it failed; no-progress writes count as failures |
| OrderedConn.OrderedRequestConn.PassBody | internal/httpwire/ordered_conn.go:48-58 | after a partial write the count and the remaining length are those of exactly the bytes on the wire |
| OrderedConn.OrderedRequestConn.PassChunks | internal/httpwire/ordered_conn.go:59-79 | preview on a clone, write, advance: the tracker ends in the state of exactly the bytes on the wire, whatever part was written |
| OrderedConn.OrderedRequestConn.PassHeader | internal/httpwire/ordered_conn.go:81-110 | buffering, the size limit, the rewritten head, and the full count when its write fails |
| OrderedConn.OrderedRequestConn.PassSome | internal/httpwire/ordered_conn.go:45-111 | one round of the loop: whichever arm it takes, what went out is what the byte-wise semantics says of the bytes taken, unless an error stopped it |
| OrderedConn.OrderedRequestConn.Write | internal/httpwire/ordered_conn.go:40-113 | every outcome of a Write on every connection: returned count, retained state and bytes on the wire against the byte-wise semantics |
| WireStream.StreamToWire | internal/httpwire/ordered_conn.go:40-113 | a stream of well-formed requests goes to the wire as each reordered head followed by its unchanged body |
| WireStream.OutcomeIsPrefix | internal/httpwire/ordered_conn.go:40-113 | however a Write ends, it has put nothing on the wire but a prefix of what belongs there |
| WireStream.SendPieces | internal/httpwire/ordered_conn.go:40-113 | whatever the connection does the wire carries a prefix of what the semantics says of the whole stream; unless it fails all pieces are accepted iff no piece boundary leaves an over-long or malformed prefix, and then it carries all of it |
| WireStream.WellFormedAcceptsEveryCut | internal/httpwire/ordered_conn.go:40-113 | every cut of a stream of well-formed requests is accepted |
| WireStream.SendRequests | internal/httpwire/ordered_conn.go:40-113 | for every stream of well-formed requests, every cut of it into Write calls and every connection: the wire carries exactly the rewritten stream, or a prefix of it if the connection failed |
| RequestPrinter.PrintedIsWellFormed | internal/httpwire/ordered_conn.go:115-192 | every printed request is well-formed whatever the order: a request line, header lines, no body, or one framed by a decimal Content-Length in any case and white space, or by codings that end with chunked and a printed chunked body |
| RequestPrinter.LengthIsRead | internal/httpwire/ordered_conn.go:163-178 | off the lines of a printed request the rewriter reads the length its digits write, and no chunked coding |
| RequestPrinter.SendMessages | internal/httpwire/ordered_conn.go:40-113 | for every stream of printed requests, every cut of it and every connection the wire carries each request with its fields in the stable sort by the order desired for its own method and target, everything else unchanged, or a prefix of that if the connection failed |
| BranchMachine.StepKeepsInv | internal/cache/antigravity_reasoning_replay_cache.go:170-418 | every step of every request keeps: a current revision means the cell is what was read, a current branch means it extends what was read |
| BranchMachine.NeverAgain | internal/cache/antigravity_reasoning_replay_cache.go:296-384 | a snapshot that is not current never becomes current again, in any run |
| BranchMachine.BranchOnlyGrows | internal/cache/antigravity_reasoning_replay_cache.go:279-353 | over every run, as long as a key is on one branch its item list only grows by prefix extension |
| BranchMachine.StaleNeverSucceeds | internal/cache/antigravity_reasoning_replay_cache.go:279-418 | after a deletion, unconditional overwrite, eviction, expiry or clear no publish or delete with an earlier snapshot succeeds, in any later state of any run |
| BranchMachine.SuccessIsFaithful | internal/cache/antigravity_reasoning_replay_cache.go:334-347 | a publish that succeeds replaces exactly what it read or extends what is there, and stays on the branch iff it extends it |
| BranchMachine.StaleOperationFails | internal/cache/antigravity_reasoning_replay_cache.go:279-418 | wherever the operations of a store have led since a key's history ended, an operation with a snapshot from before can neither publish nor delete there |
| Eviction.OldestKeys | internal/cache/antigravity_reasoning_replay_cache.go:623-645 | the chosen keys are as many as asked for and none of them is younger than a key that stays |
| AntigravityCache.NormalizeItems | internal/cache/antigravity_reasoning_replay_cache.go:500-517 | the normalizable items, unless there are too many, too large or none |
| AntigravityCache.NormalizedIsNormal | internal/cache/antigravity_reasoning_replay_cache.go:500-517 | for an item normalizer that leaves its own results alone, normalizing a normalized list gives it back |
| AntigravityCache.ItemsPrefix | internal/cache/antigravity_reasoning_replay_cache.go:456-466 | the loop decides the prefix relation |
| AntigravityCache.ReplayCache.Evict | internal/cache/antigravity_reasoning_replay_cache.go:623-645 | drops an oldest batch, one epoch per victim, and nothing else changes |
| AntigravityCache.ReplayCache.CacheItems | internal/cache/antigravity_reasoning_replay_cache.go:124-141 | one unconditional overwrite on a fresh branch, then at most one oldest batch evicted; the final entries, time stamps included, and the epoch |
| AntigravityCache.ReplayCache.ReserveAbsent | internal/cache/antigravity_reasoning_replay_cache.go:256-275 | one oldest batch goes if the cache is full and nothing otherwise, then a tombstone fences the miss; the final entries |
| AntigravityCache.ReplayCache.Get | internal/cache/antigravity_reasoning_replay_cache.go:230-250 | a live entry is renewed and nothing else changes; a miss is fenced as ReserveAbsent does it, an expired entry goes first; the snapshot describes exactly the cell that is then stored |
| AntigravityCache.ReplayCache.Replace | internal/cache/antigravity_reasoning_replay_cache.go:334-352 | succeeds iff the publish rule allows it, and then is exactly that publish followed by at most one eviction; the final entries |
| AntigravityCache.ReplayCache.DeleteIfUnchanged | internal/cache/antigravity_reasoning_replay_cache.go:372-384 | succeeds iff the revision read is still current, and then leaves a fresh tombstone; the final entries |
| AntigravityCache.ReplayCache.Delete | internal/cache/antigravity_reasoning_replay_cache.go:409-417 | leaves a fresh tombstone whatever was there |
| AntigravityCache.ReplayCache.Clear | internal/cache/antigravity_reasoning_replay_cache.go:478-483 | drops every key |
| AntigravityCache.ReplayCache.PurgeExpired | internal/cache/antigravity_reasoning_replay_cache.go:647-656 | drops exactly the entries past their time to live and counts them |
| AntigravityHome.SwapIsPublish | internal/cache/antigravity_reasoning_replay_cache.go:296-330 | every swap the retry loop accepts is a publish the mutex-local rule accepts, with the same branch |
| AntigravityHome.ReadOrFence | internal/cache/antigravity_reasoning_replay_cache.go:183-203 | one round reads the value or fences a miss, at one moment of the run |
| AntigravityHome.Get | internal/cache/antigravity_reasoning_replay_cache.go:175-225 | the snapshot is what the key stored at one moment of the call, normalized again as it is read, under every interference and transport failure; it fails only if an operation does or if in each of the four rounds someone stored the missing key in between; undisturbed it reads the key or fences it, and a hit renews its time to live |
| AntigravityHome.ReplaceLoaded | internal/cache/antigravity_reasoning_replay_cache.go:296-330 | whatever others do between attempts: at most one publish lands, it is allowed at that instant, a reported success landed; it fails only if an operation does; and if it gives up while the rule would allow the publish, others were at work before each of the later swaps |
| AntigravityHome.TrySwap | internal/cache/antigravity_reasoning_replay_cache.go:301-304 | one swap is the publish or nothing, and lands iff the expected value is stored and it is not refused |
| AntigravityHome.ReadBack | internal/cache/antigravity_reasoning_replay_cache.go:305-327 | after a lost swap the loop goes on exactly if the chain extends what is now stored on the same branch |
| AntigravityHome.Replace | internal/cache/antigravity_reasoning_replay_cache.go:279-331 | the whole remote call: with every operation answered and no one else at work it succeeds iff the local rule allows it and stores the items, an unloaded snapshot overwrites; in general only a failed operation or invalid items make it fail |
| AntigravityHome.DeleteIfUnchanged | internal/cache/antigravity_reasoning_replay_cache.go:357-371 | the swap lands iff it is not refused and the revision read is still current at that instant; it fails exactly when its operation does |
| AntigravityHome.Delete | internal/cache/antigravity_reasoning_replay_cache.go:396-408 | a tombstone is stored unless the operation is refused; it fails exactly when its operation does |
| AntigravityHome.CacheItems | internal/cache/antigravity_reasoning_replay_cache.go:100-122 | a set that is not refused is one overwrite step; success is exactly an answered one |
| GenerationMachine.StepKeepsInv | internal/cache/claude_thinking_replay_cache.go:110-275 | a generation that is still there belongs to exactly the slot that was read |
| GenerationMachine.AtMostOneSucceeds | internal/cache/claude_thinking_replay_cache.go:165-249 | of all publishes and conditional deletes with one generation at most one succeeds in any run |
| GenerationMachine.TwoNeverSucceed | internal/cache/kimi_thinking_replay_cache.go:174-247 | said of any two of them: if the earlier one finds the generation, the later one does not |
| GenerationMachine.SuccessSeesSnapshot | internal/cache/kimi_thinking_replay_cache.go:174-247 | when one succeeds, the slot was exactly what its snapshot had read |
| GenerationMachine.NoneAfterLoss | internal/cache/claude_thinking_replay_cache.go:252-283 | after an overwrite or a drop none succeeds |
| GenerationMachine.RawSwapIsGenerationSwap | internal/cache/kimi_thinking_replay_cache.go:187-196 | swapping against the raw value read is the local generation check |
| ThinkingStore.ThinkingStore.EvictOldest | internal/cache/claude_thinking_replay_cache.go:448-471 | drops an oldest batch and keeps the byte total equal to the sum over what is stored |
| ThinkingStore.ThinkingStore.EnforceLimits | internal/cache/claude_thinking_replay_cache.go:438-446 | terminates within both limits, removes oldest first, stops as soon as it may, and does nothing within the limits |
| ThinkingStore.SumOfNothing | internal/cache/claude_thinking_replay_cache.go:440-443 | an empty map has a zero total, so the reset branch is unreachable |
| ThinkingStore.SumOfOne | internal/cache/claude_thinking_replay_cache.go:392-398 | what counts towards the total is the size of live contents; tombstones count nothing |
| ThinkingStore.ThinkingStore.Overwrite | internal/cache/claude_thinking_replay_cache.go:354-365 | one overwrite, then at most evictions; final entries, total and limits |
| ThinkingStore.ThinkingStore.Reserve | internal/cache/claude_thinking_replay_cache.go:347-352 | a tombstone under a fresh generation, with room left to write it again |
| ThinkingStore.ThinkingStore.Get | internal/cache/claude_thinking_replay_cache.go:144-161 | a live entry is renewed and nothing else changes; a missing or expired one makes way for a tombstone, which is there even if enforcing the limits evicted it; final entries, total and limits |
| ThinkingStore.ThinkingStore.PublishContent | internal/cache/claude_thinking_replay_cache.go:199-212 | one publish under a fresh generation, then at most evictions; final entries, total and limits |
| ThinkingStore.ThinkingStore.DeleteIfUnchanged | internal/cache/claude_thinking_replay_cache.go:240-248 | succeeds iff the generation read is still there |
| ThinkingStore.ThinkingStore.Delete | internal/cache/kimi_thinking_replay_cache.go:266-272 | drops the key and its bytes |
| ThinkingStore.ThinkingStore.Clear | internal/cache/claude_thinking_replay_cache.go:278-283 | drops every key; nothing is counted any more |
| ThinkingStore.ThinkingStore.PurgeExpired | internal/cache/claude_thinking_replay_cache.go:473-482 | drops exactly the expired entries and their bytes |
| ClaudeReplay.TrimmedIsLongest | internal/cache/claude_thinking_replay_cache.go:375-381 | trimming keeps the longest suffix within the turn and byte bounds |
| ClaudeReplay.NewTurnIsLast | internal/cache/claude_thinking_replay_cache.go:367-382 | a new valid turn is last in its session's list unless it duplicates a stored one, and nothing is trimmed without need |
| ClaudeReplay.AppendTwice | internal/cache/claude_thinking_replay_cache.go:369-373 | appending the same turn again changes nothing |
| ClaudeReplay.Append | internal/cache/claude_thinking_replay_cache.go:367-382 | the duplicate scan and the trimming loop compute that append |
| ClaudeReplay.NewStore | internal/cache/claude_thinking_replay_cache.go:60-64 | an empty store in which every session fits, measured by the bytes of its turns |
| ClaudeReplay.Cache | internal/cache/claude_thinking_replay_cache.go:71-100 | an overwrite with one turn; every stored session stays within its bounds |
| ClaudeReplay.ReplaceIfUnchanged | internal/cache/claude_thinking_replay_cache.go:165-213 | succeeds iff the generation is current, appends to what is stored, keeps every session within its bounds |
| ClaudeReplay.RemoteAppendsTheSame | internal/cache/claude_thinking_replay_cache.go:176-196 | the remote form, which appends to the snapshot, stores the same list as the local form |
| KimiReplay.Cache | internal/cache/kimi_thinking_replay_cache.go:80-109 | an overwrite with one content array |
| KimiReplay.ReplaceIfUnchanged | internal/cache/kimi_thinking_replay_cache.go:174-211 | succeeds iff the generation is current, and then publishes the content |
| KimiReplay.NewStore | internal/cache/kimi_thinking_replay_cache.go:61-65 | an empty store, measured by the bytes of its contents |
| CodexReplay.TrimItems | internal/cache/codex_reasoning_replay_cache.go:212-230 | terminates and returns the longest suffix of whole turns within both bounds, empty if none fits |
| CodexReplay.LongestIsUnique | internal/cache/codex_reasoning_replay_cache.go:212-230 | there is only one such suffix |
| CodexReplay.AppendTurn | internal/cache/codex_reasoning_replay_cache.go:190-210 | lists without a leading marker are dropped, known ids change nothing, anything else is appended and trimmed |
| CodexReplay.NewTurnIsKept | internal/cache/codex_reasoning_replay_cache.go:190-210 | a turn with a new id is always kept whole, last |
| CodexReplay.SameTurnAgain | internal/cache/codex_reasoning_replay_cache.go:194-205 | appending the same turn id again changes nothing |
| CodexReplay.FittingAppendIsConcat | internal/cache/codex_reasoning_replay_cache.go:206-209 | while everything fits, appending is concatenation |
| CodexReplay.NormalizeItems | internal/cache/codex_reasoning_replay_cache.go:347-357 | the normalizable items, trimmed; accepted iff any are left |
| CodexReplay.ReplayCache.AppendItems | internal/cache/codex_reasoning_replay_cache.go:174-187 | an expired list starts over; every stored list stays within its bounds |
| CodexReplay.ReplayCache.CacheItems | internal/cache/codex_reasoning_replay_cache.go:104-115 | one overwrite, then at most one oldest batch evicted |
| CodexReplay.ReplayCache.GetItems | internal/cache/codex_reasoning_replay_cache.go:280-294 | expired lists are dropped, others refreshed |
| CodexMachine.StepKeepsInv | internal/cache/codex_reasoning_replay_cache.go:131-171 | every read and swap of any number of requests in flight keeps the stored list the fold of the successful turns |
| CodexMachine.StoredIsFold | internal/cache/codex_reasoning_replay_cache.go:131-171 | in every interleaving of any number of requests the stored list is all turns whose swaps succeeded, appended in swap order: no success is overwritten |
| CodexHome.HomeStore.KVCompareAndSwap | internal/cache/codex_reasoning_replay_cache.go:158-166 | a swap of plain lists that lands appends its turn to whatever is stored |
| CodexHome.AppendNormalized | internal/cache/codex_reasoning_replay_cache.go:131-171 | whatever others append between attempts, the stored list is all landed turns folded in swap order; success means exactly one append; it fails only if an operation does, and gives up only if others were at work between the read and the swap of every one of the 32 rounds |
| CodexHome.TryAppend | internal/cache/codex_reasoning_replay_cache.go:137-168 | one round of read, append and swap; it is lost only to others in between |
| CodexHome.AppendItems | internal/cache/codex_reasoning_replay_cache.go:119-171 | the whole remote call |
| CodexHome.NothingIsLost | internal/cache/codex_reasoning_replay_cache.go:190-210 | while everything fits, the stored list is all successful turns one after the other |
| BoundedLru.RecentIsByLastUse | internal/cache/bounded_lru.go:38-77 | the distinct keys of the history read backwards are its keys in the order of their last uses |
| BoundedLru.UseIsRecent | internal/cache/bounded_lru.go:38-77 | how one more use changes the first capacity distinct keys |
| BoundedLru.BoundedLru.GetOrAdd | internal/cache/bounded_lru.go:38-66 | list and map stay the most recent keys of the whole history; the callback gets exactly the evicted entry, and every created entry is stored or was handed to it once |
| BoundedLru.BoundedLru.Get | internal/cache/bounded_lru.go:68-77 | a hit counts as a use, a miss changes nothing |
| BoundedLru.BoundedLru.Len | internal/cache/bounded_lru.go:79-83 | the number of most recent keys, at most the capacity |
| YamlCopy.DeepCopy | internal/config/config_yaml.go:441-443 | terminates on every finite graph, changes nothing that existed and returns an isomorphic graph of new nodes |
| YamlCopy.DeepCopySeen | internal/config/config_yaml.go:445-464 | the copies so far are distinct, apart from the graph, and complete except for the nodes still open |
| YamlCopy.PathsCorrespond | internal/config/config_yaml.go:445-464 | every path in the copy leads to the copy of where it leads in the original |
| YamlCopy.SharingPreserved | internal/config/config_yaml.go:449-453 | two paths meet in the copy exactly when they meet in the original |
| YamlCopy.WalkStaysInside | internal/config/config_yaml.go:445-464 | no path of the original leads out of the nodes that were copied |
| YamlCopy.WalkOn | internal/config/config_yaml.go:445-464 | a path is followed one edge after the other, from nodes of the set only |
| YamlTree.FindKeyIsFirst | internal/config/config_yaml.go:288-298 | the first entry with the key, or none |
| YamlMeaning.ZeroMeans | internal/config/config_yaml.go:398-440 | a generated value is zero iff every scalar in it, however deep, is a zero scalar |
| YamlMeaning.DefaultMeans | internal/config/config_yaml.go:314-355 | a scalar other than an integer weight is a default iff it is a zero scalar or one of five named values at their paths |
| YamlMeaning.DottedConcat | internal/config/config_yaml.go:327-330 | paths are joined by dots |
| YamlMeaning.WeightsAreNoDefaults | internal/config/config_yaml.go:317-320 | an integer weight is never a default |
| YamlMeaning.EqualMeans | internal/config/config_yaml.go:593-630 | two nodes are structurally equal iff they have the same shape with the same trimmed texts |
| YamlMeaning.WantedMeans | internal/config/config_yaml.go:508-549 | by identity a mapping finds a mapping of the same identity and a scalar a scalar of the same trimmed text, and by structure an equal shape with equal texts |
| YamlMeaning.NothingEmptyStays | internal/config/config_yaml.go:379-385 | no key of a pruned copy leads to an empty mapping or list |
| YamlMeaning.TrimMeans | internal/config/config_yaml.go:559-575 | trimming takes the ASCII blanks off both ends of a text and nothing else |
| YamlMeaning.LowerMeans | internal/config/config_yaml.go:578-591 | lower case replaces the capital letters and nothing else |
| YamlMeaning.FirstKeyCounts | internal/config/config_yaml.go:551-576 | an element is known by the first identity key that has a value, in the order of the keys |
| YamlMeaning.NamedFirst | internal/config/config_yaml.go:551-576 | a named identity comes before the first scalar that is not blank |
| YamlTree.PruneKnownDefaults | internal/config/config_yaml.go:359-393 | the recursive filter |
| YamlMerge.MatchSequenceElement | internal/config/config_yaml.go:508-549 | the first unused element of the same identity, else the first unused structurally equal one |
| YamlMerge.PicksAreInjective | internal/config/config_yaml.go:496-505 | no original element is matched twice |
| YamlMerge.ReorderSequence | internal/config/config_yaml.go:486-506 | the loop with the used array gives each target its match |
| YamlMerge.MergeNode | internal/config/config_yaml.go:221-284 | the three arms of the merge, with the kept explicit null and the list loop |
| YamlMerge.MergeMapping | internal/config/config_yaml.go:182-216 | each generated entry is merged into the first entry with its key or added pruned unless it is a default |
| YamlMerge.PruneMissingMapKeys | internal/config/config_yaml.go:721-750 | keeps exactly the entries whose trimmed key the source has |
| YamlMergeFacts.PrunedDefault | internal/config/config_yaml.go:359-393 | pruning never turns a default into something that is not one, and what it empties is a default |
| YamlMergeFacts.PrunedCovers | internal/config/config_yaml.go:205-213 | a pruned copy of a generated value covers it |
| YamlMergeFacts.KeptFind | internal/config/config_yaml.go:721-750 | dropping missing keys keeps the entry of every key the source has |
| YamlMergeFacts.MergedCovers | internal/config/config_yaml.go:182-284 | the merged tree covers the generated one |
| YamlMergeFacts.ElementCovers | internal/config/config_yaml.go:253-264 | so does every merged list element after its missing keys were dropped |
| YamlPreserve.MappingShape | internal/config/config_yaml.go:194-215 | the user's entries stay where they are, unmentioned ones untouched, and the added ones follow in generated order |
| YamlPreserve.UnchangedStaysUnchanged | internal/config/config_yaml.go:182-284 | merging a tree with the same data gives back the user's tree, style and comments included |
| YamlPreserve.MetaIsKept | internal/config/config_yaml.go:275-279 | style and comments of a merged node are the user's |
| YamlReach.PrunedReaches | internal/config/config_yaml.go:359-393 | a scalar of a generated value is in its pruned copy iff no key on the way to it leads to a default, and otherwise nothing is there |
| YamlReach.SparedMeans | internal/config/config_yaml.go:359-393 | said place by place: every value that a key of the way leads to is no default at its path |
| YamlReach.LostUnderZero | internal/config/config_yaml.go:314-393 | a scalar that is no default itself is lost from a new value iff some mapping or list above it, under a key, is zero as a whole |
| YamlReach.MergedReaches | internal/config/config_yaml.go:182-284 | along every way through keys and list positions, for every user tree: a generated scalar is in the merged tree iff it arrives, and otherwise nothing is there |
| YamlReach.ArrivesExactly | internal/config/config_yaml.go:194-284 | it arrives iff the user's tree has every key on the way, or the part it lacks is copied whole, or the first key it lacks is added (its pruned value is no default) and below that key no key leads to a default |
| YamlReach.ElementReaches | internal/config/config_yaml.go:253-264 | the same for merged list elements after their missing keys were dropped |
| YamlReach.MergedUnderKey | internal/config/config_yaml.go:194-215 | what the merged mapping holds under each generated key: the merge with the user's value, the pruned copy, or nothing |
| YamlReach.LoneZeroWeightIsLost | internal/config/config_yaml.go:314-355 | an explicit zero weight is no default, yet a new mapping that holds nothing else is left out |
| YamlReach.NestedZeroWeightIsLost | internal/config/config_yaml.go:359-393 | beside a value that is kept, such a mapping is lost as well |
| YamlTwice.SteadyIsFixed | internal/config/config_yaml.go:182-284 | merging leaves a tree alone that covers the generated one and is steady: in every list each generated element finds the element at its own place, without keys of its own and steady, or what comes out there is what stood there |
| YamlTwice.FixedIsSteady | internal/config/config_yaml.go:182-284 | and every tree that merging leaves alone is steady |
| YamlTwice.SettledIsFixed | internal/config/config_yaml.go:182-284 | so is a settled tree: in every list each generated element finds the element at its own place, which has no key of its own |
| YamlTwice.SavingTwice | internal/config/config_yaml.go:182-284 | saving twice is saving once iff the first save leaves a steady tree |
| YamlWitness.SecondSaveDiffers | internal/config/config_yaml.go:552-576 | on a whole configuration: a media relay server whose blank password stands before the user name is matched by the first save and replaced by the second |
| YamlWitness.MovedButSteady | internal/config/config_yaml.go:486-549 | a tree that merging leaves alone although a generated element finds the element at another place |
| YamlSettle.MergedSettles | internal/config/config_yaml.go:508-594 | if every generated list element is a text or is known by a named identity that saving keeps, and no key has white space around it, then whatever the file holds a save leaves it settled |
| YamlSettle.SavedOnce | internal/config/config_yaml.go:182-284 | so that saving twice is then saving once, which can be told before the first save |
| MuxMachine.StepKeepsInv | internal/api/mux_listener.go:29-94 | every atomic step keeps the conservation law and the closing discipline |
| MuxMachine.ExactlyOnePlace | internal/api/mux_listener.go:29-94 | in every interleaving a connection whose Put returned nil is queued, held, delivered or closed, exactly one of these |
| MuxMachine.EmptyForever | internal/api/mux_listener.go:68-94 | once Close has returned the queue stays empty and nothing more is delivered |
| MuxMachine.NothingLeaked | internal/api/mux_listener.go:68-94 | after Close and the last Accept every connection was delivered or closed as often as it was put |
| MuxMachine.NoDeliveryAfterClose | internal/api/mux_listener.go:58-64 | nothing is delivered once Close has begun |
| MuxMachine.CloseProgresses | internal/api/mux_listener.go:72-91 | until Close returns some step that brings it nearer is enabled |
| MuxMachine.StepsNeverDelayClose | internal/api/mux_listener.go:29-94 | no step of anyone moves it further away |
| MuxListener.MuxListener.PutEnter | internal/api/mux_listener.go:33-39 | the closed check and the in-flight count |
| MuxListener.MuxListener.PutSelect | internal/api/mux_listener.go:42-47 | sends, refuses or blocks exactly when it may |
| MuxListener.MuxListener.AcceptSelect | internal/api/mux_listener.go:51-54 | takes the head of the queue, sees the close, or blocks |
| MuxListener.MuxListener.AcceptDecide | internal/api/mux_listener.go:55-65 | the connection is returned, or closed if Close has begun |
| MuxListener.MuxListener.CloseStart | internal/api/mux_listener.go:72-76 | only the first call closes |
| MuxListener.MuxListener.CloseDrain | internal/api/mux_listener.go:78-91 | leaves the queue empty whatever Accepts and Puts do before each round; what was queued is closed, by Close or by the Accept that took it, and nothing is delivered |
| ConnMachine.StepKeepsInv | internal/home/client.go:293-604 | every critical section and every single close keeps every handle owned or closed |
| ConnMachine.AlwaysOwned | internal/home/client.go:560-604 | in every reachable state each connection is tracked, closed or with someone about to close it; a tracked connection or a pooled client is open and with no closer, and no client is in two pools |
| ConnMachine.ShutDownForever | internal/home/client.go:571-575 | after fence and detach nothing is tracked, returned or opened again |
| ConnMachine.ShutdownClosesEverything | internal/home/client.go:293-357 | once the fence is up, everything is detached and no one is in the middle of anything, every handle there ever was is closed |
| ConnMachine.ChainFinishesInOrder | internal/home/client.go:400-436 | chained closers finish in the order they were started |
| ConnMachine.SomeCloserReady | internal/home/client.go:400-436 | while some closer is unfinished, some unfinished closer may work |
| ConnMachine.ClosingProgresses | internal/home/client.go:388-436 | while some closer is unfinished, a step of a closer is enabled that leaves less to do |
| HomeClient.HomeClient.TrackDialed | internal/home/client.go:570-581 | tracked and returned, or refused when fenced |
| HomeClient.HomeClient.UntrackConn | internal/home/client.go:585-596 | the first half of a connection's own Close forgets it |
| HomeClient.HomeClient.CloseUnderlying | internal/home/client.go:598-604 | the second half closes it |
| HomeClient.HomeClient.EnsurePool | internal/home/client.go:490-513 | a missing pool is opened unless fenced |
| HomeClient.HomeClient.DetachClients | internal/home/client.go:374-417 | what is detached is handed to one closer, chained behind the previous one where the source chains |
| HomeClient.HomeClient.CloseDetached | internal/home/client.go:388-398 | closes everything it was handed, whatever others do before each close; alone it changes nothing else |
| HomeClient.HomeClient.Close | internal/home/client.go:293-312 | with others at work between its pieces: from the detach on nothing is tracked, every handle not still being dialed is closed or with someone about to close it, and when the wait ends every earlier chained closer has finished; alone it closes all that was tracked or pooled |
| HomeClient.HomeClient.CloseBootstrapPools | internal/home/client.go:315-324 | closes the connections and bootstrap clients there were, whatever others do meanwhile; alone it closes nothing else, and the release client stays pooled and open |
| HomeClient.HomeClient.PromoteSubscription | internal/home/client.go:1875-1889 | closes the command client there was, whatever others do meanwhile; alone it closes nothing else and changes no other pool |
| HomeClient.HomeClient.ClearIfSame | internal/home/client.go:427-434 | the closing channel is reset only if it is still the one that was waited for |
| HomeClient.AwaitedFinished | internal/home/client.go:400-436 | once the closing channel seen at some moment is closed, every chained closer started before has finished |
| ReleaseMachine.StepKeepsInv | internal/home/concurrency_release.go:77-233 | every mark, accepted frame and acknowledgement keeps the invariant |
| ReleaseMachine.RunKeepsInv | internal/home/concurrency_release.go:77-233 | in every run Latest and Acked only grow |
| ReleaseMachine.TicketsFollowAcks | internal/home/concurrency_release.go:77-233 | a ticket is closed exactly when Acked has reached it, only after a frame with at least its sequence was accepted, and Acked never exceeds Latest |
| ReleaseMachine.IdleCompletesAll | internal/home/concurrency_release.go:258-267 | idle means every ticket is completed and nothing waits |
| ReleaseFlusher.ReleaseFlusher.MarkDirty | internal/home/concurrency_release.go:77-100 | one mark, or nothing for an invalid group or sequence |
| ReleaseFlusher.ReleaseFlusher.Acknowledge | internal/home/concurrency_release.go:216-230 | closes exactly the waiters covered, none of them a second time |
| ReleaseFlusher.ReleaseFlusher.SendOne | internal/home/concurrency_release.go:205-230 | a frame is acknowledged if Home accepts it, and otherwise nothing happens |
| ReleaseFlusher.ReleaseFlusher.Flush | internal/home/concurrency_release.go:187-233 | with marks interleaved at every send: each group that was behind is sent once; exactly the groups whose frame Home accepted are acknowledged up to it, whatever became of the others; it fails iff a frame was refused; every closed ticket is covered by a frame in Home's own log |
| ReleaseFlusher.ClosedAreCovered | internal/home/concurrency_release.go:77-233 | every ticket that is closed is covered by an accepted frame of at least its sequence |
| ReleaseFlusher.ReleaseFlusher.IsIdle | internal/home/concurrency_release.go:258-267 | no group has an unacknowledged sequence |
| ReleaseFlusher.FlushedIsIdle | internal/home/concurrency_release.go:236-256 | a flush without failure and without new marks leaves the flusher idle |
| ReleaseFlusher.NextDelay | internal/home/concurrency_release.go:136-149 | the next delay and the backing-off flag |
| ReleaseFlusher.BackoffIsExponential | internal/home/concurrency_release.go:136-149 | after k failures in a row the delay is the flush interval doubled k times, up to the limit |
| ReleaseFlusher.Sane | internal/home/concurrency_release.go:166-185 | the provider's interval and limit, with the defaults for a zero that was left out, else the flusher's own; the default for an interval that is not positive; and the least limit not below the configured one and the interval |
| Resp.BulkRoundTrip | internal/api/redis_queue_protocol.go:455-475 | a bulk string decodes to its payload, whatever bytes that holds, and leaves the rest untouched |
| Resp.ArrayRoundTrip | internal/api/redis_queue_protocol.go:511-541 | an array of bulk strings decodes to its items, nil ones to empty strings, and leaves the rest untouched |
| Resp.CommandRoundTrip | internal/home/certificate.go:335-348 | decoding an encoded command returns the same argument list and leaves the rest untouched |
| Resp.StreamRoundTrip | internal/api/redis_queue_protocol.go:413-438 | any concatenation of frames decodes to the same sequence of commands |
| Resp.OnlyTheWholeIsAccepted | internal/api/redis_queue_protocol.go:413-438 | of all prefixes of a frame only the whole is accepted |
| Resp.ArrayExtends | internal/api/redis_queue_protocol.go:413-438 | more input never changes a command that was read |
| Resp.CommandIsInjective | internal/home/certificate.go:335-348 | different commands have different encodings |
| Resp.ReadersAgree | internal/home/certificate.go:350-382 | the lenient bulk reader reads alike whatever bulk string of non-negative length the strict one accepts |
| RespIo.Reader.ReadRESPLine | internal/api/redis_queue_protocol.go:477-485 | a line without its line feed and one carriage return |
| RespIo.Reader.ReadRESPBulkString | internal/api/redis_queue_protocol.go:455-475 | value, unread bytes and error kind of the bulk reader |
| RespIo.Reader.ReadRESPString | internal/api/redis_queue_protocol.go:440-453 | the prefix dispatch |
| RespIo.Reader.ReadRESPArray | internal/api/redis_queue_protocol.go:413-438 | the counting loop, failing with its first failing string |
| RespIo.Reader.ReadRESPBulk | internal/home/certificate.go:350-382 | value, unread bytes and error kind of the certificate client's reader |
| RespIo.Writer.WriteBulkString | internal/api/redis_queue_protocol.go:511-526 | appends one bulk string, the nil one for a nil payload |
| RespIo.Writer.WriteArrayOfBulkStrings | internal/api/redis_queue_protocol.go:528-541 | appends the array of all items |
| RespIo.EncodeRESPArray | internal/home/certificate.go:335-348 | the buffer is the command's encoding |

## Left out

- Text helpers: trimming and case folding are ASCII only; Unicode spaces and folds are not modelled.
- RequestPrinter.PrintedIsWellFormed: one framing line per request; a length repeated in several lines or as a list is not printed.
- OrderedConn.OrderedRequestConn.Write: its three arms are methods of their own; the arm for an impossible tracker state and the check of an error that a replayed prefix cannot produce are proved dead rather than written out; the mutex is not modelled, one Write runs at a time.
- ChunkGrammar.MachineMatchesGrammar: the reader's size syntax is the code's own.
- ChunkGrammar.TrackerEndsBodyExactly: the line-by-line reader takes sizes as the code does, a leading sign included; that every body of the standard is accepted is ChunkPrinter.TrackerAcceptsPrinted.
- Heads over the 1 MiB buffer and malformed chunks: the outcome is stated per Write, and depends on the cut as it does in the code.
- HTTP connections are scripts of partial writes and failures; TLS, sockets and other connection methods are not modelled.
- JSON in the caches: item normalizers, turn markers, content validity and canonical equality are parameters; marshalling and unmarshalling are taken to undo each other, and stored values to have been written by these caches (no legacy or foreign values, no values over the serialized size limit).
- Random nonces and UUIDs are numbers never drawn twice, named when they become visible; an unsigned revision counter does not wrap around.
- Wall clocks are parameters; expiry in the remote store is a step of the environment, and a renewed time to live is recorded without keeping it away.
- AntigravityCache.ReplayCache.Replace: snapshots are those Get returned without error (or zero ones); the not-found arm of the epoch comparison is kept in the code but no such snapshot is issued.
- A zero snapshot takes the unconditional path; the theorems about stale snapshots speak of snapshots that were issued.
- The survival of a just-inserted entry is not claimed: ties between timestamps are broken either way.
- Errors of obtaining a key-value client, logging and background cleanup scheduling are not modelled.
- AntigravityHome.Get: the item normalizer is assumed to leave its own results alone, so that stored lists normalize to themselves.
- GenerationMachine.RawSwapIsGenerationSwap: covers the remote publish and delete of the Claude and Kimi caches as single swaps; the reservation loop of their remote Get is the one proved in AntigravityHome.ReadOrFence and is not repeated.
- CodexHome.AppendNormalized: deletes, overwrites and expiry in the remote store are excluded; one key at a time; the context's cancellation is one of the failures.
- YamlMerge.MergeNode: works on tree values, because the nodes are merged in place recursively and each is reached by one path; updating in place and aliasing are not captured, and children left behind in a node turned scalar are not kept.
- YAML trees have no aliases, nil children, document nodes below the root or odd child lists; a mapping's children are its pairs.
- The deletion of generated-only maps at fixed paths, comment indentation, collection styles, YAML text and file writing are not modelled.
- YamlCopy.DeepCopy: node styles, comments, anchors and positions are one opaque field.
- MuxListener.MuxListener.CloseDrain: starts when no Put is in flight; the wait before it is a step of the machine, which MuxMachine.CloseProgresses shows to come nearer.
- MuxMachine.ExactlyOnePlace: a nil connection, for which Put returns at once, and addresses are not modelled.
- HomeClient.HomeClient.Close: redis clients and connections are identities with an open or closed state; options, dialing itself, heartbeats and failover are not modelled. The fence is read inside the critical section and counts from that read.
- HomeClient.HomeClient.CloseDetached: handles are closed in any order, where the source closes connections first; AbortAmbiguousDispatch takes the same fence and detach steps and leaves the closing to goroutines.
- Waiting on the closing channel is one pass of the loop (ClearIfSame).
- ReleaseFlusher.NextDelay: durations are unbounded integers; doubling is not modelled to overflow.
- ReleaseFlusher.ReleaseFlusher.Flush: one flush at a time, as in the run loop; timers and wake-up signals are not modelled.
- BoundedLru.BoundedLru.GetOrAdd: the create function is total and does not call back; the callback is a log of its calls.
- RespIo.Writer.WriteArrayOfBulkStrings: write errors and nil writers are not modelled; the readers' allocation failures for huge declared lengths are not modelled, except the overflow of the length itself.
- RESP integers, errors, publish and subscribe messages and the command loop would only add easy members.
- The signature cache and the xAI replay cache are plain maps with expiry; configuration validation, logging, the API server, middleware, OAuth flows, downloads and command lines are outside this model.
