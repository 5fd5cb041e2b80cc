# A verified model of the NTH DAO protocol primitives

NTH DAO coordinates agents through append-only, hash-linked logs, delivery protocols that run over
them, bounded structures that stand in for unbounded histories, and the codecs everything signed
depends on. This project models those parts in Dafny and proves, for every input, run or
interleaving, what the system relies on them for.

| file | what it models |
|---|---|
| `Receipts.dfy`, `ReceiptStores.dfy`, `ReceiptTampering.dfy` | receipts, the chain verifier, and the store that extends a signer's chain under a lock; what an accepted chain proves |
| `Gossip.dfy`, `GossipEcho.dfy`, `GossipDedup.dfy` | the gossip node and the flood as a step system over a peer graph; when an author hears its own echo; what a node's bounded memory forgets and never forgets |
| `GlobPatterns.dfy`, `Subscriptions.dfy`, `Polls.dfy` | event-type patterns; cursors, delivery cap, exact-pattern fast path, interleaved polls; one poll step by step |
| `ActionRouting.dfy`, `ActionAnswers.dfy` | freshness window, shared nonce ledger, LRU response cache; where answers come from |
| `EventChain.dfy`, `EventTampering.dfy`, `EventLines.dfy` | emitting, tail scan and audit of the hash-chained event stream; what the audit notices; line ends inside an event |
| `EventIndex.dfy` | byte-offset index against a linear scan |
| `Corrections.dfy`, `CorrectionRaces.dfy` | correction events, their index, and correctors that interleave |
| `CircuitBreaker.dfy`, `HalfOpenProbes.dfy` | one breaker's machine and buffer; what failed and interrupted probes do |
| `BreakerReplay.dfy`, `ReplayDecisions.dfy` | a breaker rebuilt from the bus against one that never restarted: its counts and its decisions |
| `FaultIsolator.dfy`, `AuditFlow.dfy`, `DrainerCount.dfy` | the isolator; its audit queue, drainers and the bus; how many drainers the bus bears |
| `CanonicalJson.dfy`, `CanonicalEncoding.dfy` | normaliser, validator, printer and parser; what canonical text determines |
| `DidKeys.dfy` | base58btc and did:key |
| `IsoTime.dfy`, `Achievements.dfy` | monthly bounds on naive ISO timestamps; reductions against all-time statistics |
| `RateLimiter.dfy` | the sliding-window limiter |
| `UntrustedContext.dfy`, `ContextLines.dfy` | the escaped, bounded transcript; what its characters and header lines tell |

Conventions. A SHA-256 hash is a datatype term over what it covers, so it is injective and cannot
contain itself; an Ed25519 signature is a term over key and message. Each locked section and each
one-line append is one atomic step. Clock readings, fresh ids and random choices are parameters.
Objects that the source updates in place are classes; concurrent behaviour is a step relation with
an invariant over every run.

Where code and documentation disagree the code is modelled:

- The breaker's header says that a failed half-open probe reopens the circuit. It does so only when the
  window, that failure included, holds at least the threshold (`CircuitBreaker.FailureOpensIff`), so the header holds
  exactly for a threshold of one (`HalfOpenProbes.ProbesReopenIff`). The successes that close a circuit are
  consecutive, as the docstring says, only when one of the two thresholds is one
  (`HalfOpenProbes.SuccessesConsecutiveIff`).
- The router's replay protection needs one clock reading for the freshness test and the ledger sweep; the code
  takes two. `ActionRouting.HorizonIsExact` gives the horizon that would cover a pause between them, and
  `ActionRouting.CodeIsSafeIff` says that the code's own covers none.
- The rate limiter reads the clock before it takes its lock, so readings can enter out of order and an hour can
  hold more calls than the limit; `RateLimiting.SafeWindowIff` says which windows are safe.
- A replay is documented to reconstruct the failure counter. Its later counts are right exactly when the bus has the
  failures in time order (`BreakerReplay.RestartAgreesIff`); its later decisions bear some disorder
  (`ReplayDecisions.RestartDecidesIff`). Two drainers can put failures out of order (`DrainerCount.DrainersReorder`,
  `DrainerCount.DisorderHappens`): over all runs that lose nothing, fold, counts and decisions are right exactly with
  at most one drainer, or in the trivial settings that `DrainerCount.FoldRightIff`, `DrainerCount.ReplayRightIff` and
  `DrainerCount.DecisionRightIff` name.
- `broadcast` puts its own id in the deque but not in the set, so an author logs its own echo once
  (`Gossip.AuthorLogsItsEcho`). On a full deque it pushes the oldest id out of the deque and leaves it in the set, which
  can then outgrow the deque without bound (`GossipDedup.ContainedIff`, `GossipDedup.SetOutgrowsDeque`).
- `sign_and_save` stores receipts the chain verifier will not accept: a first one with a link of its own, one whose
  token does not cover it, and a successor of one that did not sort last (`ReceiptStores.ChainAcceptedIff`).
- The tail scan splits the event file with `str.splitlines`, the audit by newline only. An event whose text holds
  U+0085, U+2028 or U+2029 is accepted by the audit and stops every later emit
  (`EventChain.StreamIsLanded`).
- The corrections index is promised in stream order; with concurrent correctors it is so exactly when they record
  in turn (`CorrectionRaces.LookupInStreamOrderIff`, `CorrectionRaces.RaceReverses`).
- `compute_stats` hashes the ledger after reading it, so a cached snapshot can be served for events it
  never saw (`Achievements.StoreIsHonestIff`).
- The escape function's comment says `&` must be replaced first; the order makes no difference
  (`UntrustedContext.EscapeIsCharwise`). The trimming step's test for a complete escape can never succeed
  (`UntrustedContext.TrimOnceDrops`). Only bodies are escaped: a sender label can hold the three characters
  (`ContextLines.ContextPlainIff`).

## Model

| member | source | states |
|---|---|---|
| Receipts.LocalChecksIffOneLine | nth_dao/execution_receipt.py:707-735 | for receipts whose hash seals their timeline, the local checks (one genesis, no shared prev, no orphan, no duplicate hash) hold exactly when the receipts can be put in one order in which the first has no prev and each later one points at the one before |
| Receipts.LineIsUnique | nth_dao/execution_receipt.py:655-735 | that order is the only one, whatever order the receipts were given in |
| Receipts.VerifyReceiptChain | nth_dao/execution_receipt.py:674-735 | the verifier's loops accept exactly a non-empty set of individually valid receipts of one named signer that lies on one straight line |
| ReceiptTampering.VerifiesIffAuthentic | nth_dao/execution_receipt.py:493-527 | a receipt verifies exactly when signing some request with its signer's key, on some head, gives it, and a token it carries covers signer, stamp and goal |
| ReceiptTampering.AcceptedIsAuthentic | nth_dao/execution_receipt.py:674-735 | every receipt of an accepted chain could have been produced by its signer's key |
| ReceiptTampering.NothingExchanged | nth_dao/execution_receipt.py:440-510 | neither signature, timeline (hash recomputed or not), signer nor hash of a receipt that verifies can be exchanged |
| ReceiptTampering.TokenDecides | nth_dao/execution_receipt.py:530-640 | a token that is expired, early, unsigned, or for another subject, task or purpose spoils the receipt it is put on, and any other does not |
| ReceiptTampering.ExchangeIsDetected | nth_dao/execution_receipt.py:674-735 | exchanging content or signature of one receipt makes the verifier refuse the chain |
| ReceiptTampering.RewriteIsDetected | nth_dao/execution_receipt.py:674-735 | nobody, the signer included, can give a receipt that another one points at another timeline |
| Receipts.CheckLinks | nth_dao/execution_receipt.py:707-735 | the second half of the verifier decides the local checks |
| Receipts.OmissionIsDetected | nth_dao/execution_receipt.py:674-735 | removing a receipt from an accepted history of two or more is rejected exactly when it is not the newest |
| Receipts.ChecksGiveLine | nth_dao/execution_receipt.py:707-735 | from the checks alone a line through all the receipts is built; well-founded hashes rule out side cycles |
| ReceiptStores.SignedReceiptVerifies | nth_dao/execution_receipt.py:277-390 | a freshly signed receipt verifies exactly when its capability token, if any, covers it, and carries the given prev link |
| ReceiptStores.ReceiptStore.VerifiedHead | nth_dao/execution_receipt.py:824-846 | the scan in any directory order returns the hash of a latest receipt of the signer, and refuses when one of them does not verify |
| ReceiptStores.ReceiptStore.SignAndSave | nth_dao/execution_receipt.py:789-822 | a successful call stores exactly one new receipt: the caller's entries in order, preceded by exactly one link to the signer's head when the signer has receipts, and the caller's goal, id, stamp and token; a failing one stores nothing |
| ReceiptStores.StepKeepsRecord | nth_dao/execution_receipt.py:789-846 | every step of any process, whatever stamp, token or timeline it commits, keeps each signer's history: distinct sealed receipts, each linked to the head of its time, none but the newest failing verification |
| ReceiptStores.CommitPossible | nth_dao/execution_receipt.py:789-822 | whoever finds the lock free and a verifying chain can take the lock and commit, after which the receipt is stored, the lock free and nothing else changed |
| ReceiptStores.RunIsRecorded | nth_dao/execution_receipt.py:789-846 | so it is after every run by any number of processes, and the history is exactly what was committed, in commit order |
| ReceiptStores.ChainAcceptedIff | nth_dao/execution_receipt.py:789-846 | after every run, any listing of a signer's stored receipts is accepted by the chain verifier exactly when the newest verifies, the first commit carried no link of its own, and every commit but the newest sorted last by stamp and hash when made |
| ReceiptTampering.WorkIsRecovered | nth_dao/execution_receipt.py:350-390 | from any accepted listing of a signer's receipts, in any order, the entries, goals, stamps and tokens its processes asked to sign are recovered in commit order, after every run |
| ReceiptStores.HeadIsNewestIff | nth_dao/execution_receipt.py:824-846 | the head a scan finds in an accepted chain is its newest receipt exactly when that one sorted last too |
| ReceiptStores.EverySignerHasOneChain | nth_dao/execution_receipt.py:789-846 | in the promised case of strictly increasing stamps, covering tokens and no leading link, the chain is accepted and its head is the signer's last receipt |
| ReceiptStores.PoisonedForever | nth_dao/execution_receipt.py:824-846 | a stored receipt that does not verify is its signer's last: nothing is committed for that signer afterwards |
| ReceiptStores.FirstReceiptAcceptedIff | nth_dao/execution_receipt.py:334-390 | a first receipt is an accepted chain exactly when the caller's timeline does not open with a link of its own, of whatever form |
| Gossip.GossipNode.HandleGossip | nth_dao/gossip.py:726-857 | a packet that is new and passes every check is logged once, marked and relayed to all peers but the sender; every other packet changes nothing; with signatures required a message of a pinned author is logged only with the pinned key's signature, whatever the trust graph says |
| Gossip.GossipNode.Broadcast | nth_dao/gossip.py:470-514 | the author logs its message, puts the id in the deque only, and sends to all peers |
| Gossip.GossipNode.TrustAgent | nth_dao/gossip.py:229-240 | a pinned key is never replaced and empty arguments are refused |
| Gossip.StepKeepsInv | nth_dao/gossip.py:503-514 | every send and delivery keeps ids unique, packets on edges, logs and marks in step, and every neighbour told or being told |
| Gossip.LoggedAtMostOnce | nth_dao/gossip.py:726-857 | in every reachable network each node logs a message at most once, its author at most twice |
| Gossip.HandledAtMostOnce | nth_dao/gossip.py:726-857 | of all copies that ever reach a node at most one is handled and so relayed |
| Gossip.QuiescenceCovers | nth_dao/gossip.py:834-844 | when the wire is empty a public message is in exactly the logs that a walk of accepting nodes connects to its author, although each relay skips its sender |
| Gossip.FloodTerminates | nth_dao/gossip.py:726-857 | no schedule delivers more packets than the work the network started with |
| Gossip.DeliveryReducesWork | nth_dao/gossip.py:834-857 | each delivery strictly lowers packets in flight plus what unhandled messages could still add |
| Gossip.AuthorLogsItsEcho | nth_dao/gossip.py:494-500 | an author's log holds its message twice after one echo |
| GossipEcho.EchoPossibleIff | nth_dao/gossip.py:726-844 | some schedule makes an author log its public message twice exactly when its own checks pass it and a cycle of accepting nodes leads back to it |
| GossipEcho.RunKeepsEchoes | nth_dao/gossip.py:726-844 | in every run whatever travels back to an author, or has arrived there, came around such a cycle |
| Gossip.ForgottenIffOldest | nth_dao/gossip.py:852-857 | one handled packet forgets an id exactly when the deque is full and the id is at its left end, and then that message is handled again |
| GossipDedup.StaysIff | nth_dao/gossip.py:852-857 | over every run of received and own messages an id stays in the set exactly until a packet is handled on a full deque with that id at its left end; an own message never removes one |
| GossipDedup.SeenSetIs | nth_dao/gossip.py:852-857 | after every run the deque is the last cap ids entered, and an id is in the set exactly when a handled packet brought it in and no packet since was handled cap entries after a copy of it |
| GossipDedup.ForgottenIff | nth_dao/gossip.py:852-857 | an id entered once is forgotten exactly when the entry cap places later came with a handled packet; if it is an own message, the id is never forgotten |
| GossipDedup.ContainedIff | nth_dao/gossip.py:494-500 | at every point of every run the set is within the deque exactly when no own message was pushed onto a full deque whose left end is in the set and nowhere else in the deque |
| GossipDedup.SetOutgrowsDeque | nth_dao/gossip.py:494-500 | for every deque size some run leaves any given number of ids in the set and none of them in the deque |
| GlobPatterns.ExactPatternIsEquality | nth_dao/event_subscriptions.py:64-68 | a pattern without glob characters matches exactly its own text, so the pushdown path selects what the glob path does |
| GlobPatterns.GlobIffDivides | nth_dao/event_subscriptions.py:68-68 | a pattern matches exactly the texts that can be cut into one piece for each of its parts: any text for a star, one character for a question mark or closed class, itself for every other character |
| GlobPatterns.StarSplits | nth_dao/event_subscriptions.py:68-68 | literal text, a star and a rest match exactly the texts that start with the literal and split behind it at some place where the rest matches |
| GlobPatterns.PrefixPattern | nth_dao/event_subscriptions.py:68-68 | literal text and a star match exactly the texts that start with it |
| GlobPatterns.OneCharacterParts | nth_dao/event_subscriptions.py:68-68 | a question mark takes one character, a closed class one of its members, an unclosed bracket stands for itself |
| GlobPatterns.FirstBracketIsMember | nth_dao/event_subscriptions.py:68-68 | a closing bracket that comes first in a class, negated or not, is a member of it |
| Subscriptions.SubscriptionManager.DeliverOne | nth_dao/event_subscriptions.py:157-208 | delivers the next matching events after the cursor, at most the cap, and moves the cursor so that exactly the rest remains due, on both paths; a prefix pattern gets exactly the next events whose type starts with the prefix |
| Subscriptions.DeliveryLoop | nth_dao/event_subscriptions.py:157-208 | the loop's deliveries and final cursor, over the lines present |
| Subscriptions.StepKeepsInv | nth_dao/event_subscriptions.py:136-208 | every step of concurrent polls, emits, subscribes and unsubscribes keeps each subscription's received events consistent with its cursor |
| Subscriptions.ReceivedIsPrefix | nth_dao/event_subscriptions.py:136-208 | under every interleaving what a subscription received is a duplicate-free in-order prefix of the matching events after its start point |
| Subscriptions.ShortPollDeliveredEverything | nth_dao/event_subscriptions.py:136-208 | a loop that ends below the cap has delivered every matching event in the stream at that moment |
| Subscriptions.UnknownStartDeliversNothing | nth_dao/event_bus.py:599-657 | a start id that names no event holds delivery back entirely |
| Subscriptions.NeverAboveCap | nth_dao/event_subscriptions.py:157-208 | in every run no poll has delivered more than the cap, and the count it compares with the cap is the number of callbacks it made |
| Polls.PollAlone | nth_dao/event_subscriptions.py:157-208 | from every reachable world an uninterrupted claim, reads, store and release are possible and deliver the due events up to the cap, leave exactly the rest due and change nothing else |
| ActionRouting.ActionRouter.Handle | nth_dao/action_routing.py:478-606 | gates, then cache, then handler: rejected requests change nothing, an admitted one is answered from the cache or by one handler run and becomes the most recent use; on a miss it is completed with the handler's value exactly when a handler is registered and succeeds, and otherwise failed; the call is one step of the workspace runs below |
| ActionRouting.AdmittedAtMostOnce | nth_dao/action_routing.py:523-552 | from any ledger, any number of routers sharing a workspace admit a timestamped request at most once ever, although nonces are swept, if the horizon covers ttl, skew and the longest pause between freshness test and sweep |
| ActionRouting.HandlerRunsAtMostOnce | nth_dao/action_routing.py:478-606 | then a handler runs at most once ever for the request, over all routers and whatever their caches hold |
| ActionRouting.HorizonIsExact | nth_dao/action_routing.py:892-949 | over runs of any length, a replay is possible if and only if the sweep horizon is shorter than ttl + skew plus that pause |
| ActionRouting.CodeIsSafeIff | nth_dao/action_routing.py:892-949 | with the code's horizon of ttl + skew a replay is possible if and only if there is a pause |
| ActionRouting.ReadmittedIff | nth_dao/action_routing.py:859-949 | in every run, after the last admission under a nonce the next delivery with it is admitted exactly when it is addressed and signed, looked fresh at its first reading, and its sweep reading is past the horizon after what was recorded |
| ActionRouting.PauseReopensReplay | nth_dao/action_routing.py:859-949 | any positive pause between freshness test and sweep admits some request twice |
| ActionRouting.UnstampedIsReplayable | nth_dao/action_routing.py:859-890 | in every run a request without timestamp is admitted again exactly once its nonce is swept |
| ActionRouting.AdmitIff | nth_dao/action_routing.py:478-552 | who is admitted in every mode, verified or not, with or without ttl and ledger and for every kind of timestamp, and what happens to the ledger |
| ActionRouting.WithoutLedgerRepeats | nth_dao/action_routing.py:540-542 | without verification or ledger an admitted request is admitted again any number of times |
| ActionAnswers.AnswersAreHandlers | nth_dao/action_routing.py:554-606 | in every run of a workspace each answer is what some call under that key at that router got from its handler, and a completed one is that handler's value |
| ActionAnswers.RepeatsGetSameAnswer | nth_dao/action_routing.py:554-606 | an admitted call gets the answer of the latest call under its key, without a handler run, exactly while the key is among the max_dedup most recent distinct keys of its router |
| ActionRouting.NonceKeyInjective | nth_dao/action_routing.py:912-915 | ledger keys tell requests apart when sender names hold no separator |
| ActionRouting.SeparatorCollides | nth_dao/action_routing.py:912-915 | every sender name with a separator shares its keys with another sender |
| ActionRouting.CacheIsMostRecent | nth_dao/action_routing.py:846-852 | the cache is always the max_dedup most recently used distinct keys in recency order |
| ActionRouting.ActionRouter.HoldsMostRecent | nth_dao/action_routing.py:556-606 | the same of a router after any calls |
| ActionRouting.ForgottenIffManyOthers | nth_dao/action_routing.py:556-606 | a used key is forgotten exactly when at least max_dedup distinct others were used since |
| CanonicalJson.NormalizeIsSound | nth_dao/canonical_json.py:38-108 | normalisation succeeds exactly on trees without infinities, foreign objects and non-string keys; its output passes the validator, keeps keys distinct and is a fixed point |
| CanonicalJson.NormalizeFlattens | nth_dao/canonical_json.py:68-108 | the result is the input with every float replaced by its own decimal text; other leaves, list lengths and dict keys stay |
| CanonicalJson.PrintParses | nth_dao/canonical_json.py:111-143 | a parser recovers every accepted value from its JSON text, whatever follows it |
| CanonicalJson.EscapeParses | nth_dao/canonical_json.py:137-143 | string escapes, as in section 7 of RFC 8259, are undone by the parser |
| CanonicalJson.EscapeTable | nth_dao/canonical_json.py:137-143 | the text of every escaped and unescaped character |
| CanonicalEncoding.EncodingIsExact | nth_dao/canonical_json.py:111-143 | two accepted values have the same canonical text if and only if they denote the same JSON tree |
| CanonicalEncoding.LessIsLexicographic | nth_dao/canonical_json.py:137-143 | keys are sorted by the first differing character, a prefix first |
| CanonicalEncoding.SerializeIsExact | nth_dao/canonical_json.py:111-143 | the public entry takes only accepted objects, and two of them serialize alike exactly when they denote the same tree |
| CanonicalEncoding.SerializesIff | nth_dao/canonical_json.py:131-143 | serialisation succeeds exactly on accepted objects |
| CanonicalEncoding.ParseRecovers | nth_dao/canonical_json.py:111-143 | parsing canonical text gives the value back up to key order |
| CanonicalEncoding.PrintOneLine | nth_dao/canonical_json.py:137-143 | canonical text never holds a raw newline or other control character |
| CanonicalEncoding.JoinDetermines | nth_dao/execution_receipt.py:229-233 | newline-joined lines determine the lines |
| CanonicalEncoding.ContentTextDetermines | nth_dao/execution_receipt.py:198-233 | the text a receipt hashes determines number, order, timestamps, types and payloads of its timeline |
| EventChain.EventBus.Emit | nth_dao/event_bus.py:313-367 | succeeds exactly when the tail scan does and the payload can be normalised; then one row is appended, and an accepted stream stays accepted exactly when the signer is sound; otherwise nothing changes |
| EventChain.EventBus.TailUnlocked | nth_dao/event_bus.py:571-596 | the scan finds the last sequence number and hash, forgiving only a torn last line |
| EventChain.EventBus.VerifyChain | nth_dao/event_bus.py:712-760 | the audit accepts exactly the readable streams whose events are numbered from 1, linked by hash, correctly hashed and without an invalid signature |
| EventChain.ScanFindsHead | nth_dao/event_bus.py:571-596 | on an accepted stream the tail is the number of events and the last hash |
| EventChain.RunIsAccepted | nth_dao/event_bus.py:313-367 | every crash-free run of emitters leaves a stream the audit accepts, with seq 1..n |
| EventChain.StreamIsLanded | nth_dao/event_bus.py:578-595 | the stream holds, in lock order, exactly the normalisable requests up to and including the first whose text holds a line break only the tail scan sees |
| EventLines.DumpBreaksIff | nth_dao/event_bus.py:349-349 | the JSON dump of a value holds U+0085, U+2028 or U+2029 exactly when some text or key in it does |
| EventChain.SameHeadSameHistory | nth_dao/event_bus.py:712-760 | two chains with the same last hash have equal length and agree at every position in id, type, actor, key, timestamp, number and predecessor, and in the JSON tree their payloads normalise to |
| EventChain.AcceptedStreamsAgree | nth_dao/event_bus.py:712-760 | the same for any two streams the audit accepts |
| EventTampering.ChangeIsDetected | nth_dao/event_bus.py:745-751 | changing any hashed field of one row makes the audit refuse the stream: always when the hash is kept, and whatever the hash when another event follows |
| EventTampering.LastEventOpen | nth_dao/event_bus.py:735-760 | the last event can be replaced exactly by one that is properly hashed over its place and whose signature, if any, is not invalid |
| EventTampering.SignatureExchangedIff | nth_dao/event_bus.py:752-760 | a signature can be taken off unnoticed, and replaced exactly by the key's own signature over the content where the library is present |
| EventChain.TornTailSealsStream | nth_dao/event_bus.py:348-361 | after a torn line one emit succeeds, then none, and the audit refuses the stream for good |
| EventChain.NewEventVerifies | nth_dao/event_bus.py:691-710 | a new event is readable and not invalid exactly when the signing identity has a 64-digit key and, if it signs, the id derived from it |
| EventChain.PlainHexIff | nth_dao/event_bus.py:146-153 | a key or signature text without white space is read exactly when it is an even number of hex digits |
| EventIndex.IndexedFile.Emit | nth_dao/event_bus.py:348-365 | appends one line, ending a torn one first, records its byte offset, and a scan then finds the event |
| EventIndex.IndexedFile.Get | nth_dao/event_bus.py:659-687 | for any index contents never an event with another id; with a sound index, however incomplete, the answer of a linear scan |
| EventIndex.IndexedFile.Rebuild | nth_dao/event_bus.py:888-899 | the index has exactly the ids of the parseable lines, each at its line's offset |
| EventIndex.IndexedFile.ReadAt | nth_dao/event_bus.py:671-687 | an offset outside the file or at a foreign line yields nothing |
| EventIndex.RunKeepsIndex | nth_dao/event_bus.py:349-365 | in every run of emit, get, rebuild and loss of the index each entry is the byte offset of its event's line |
| EventIndex.EmittedStaysFound | nth_dao/event_bus.py:501-507 | an emitted event is found by a scan for ever after |
| EventIndex.LawfulCodecExists | nth_dao/event_bus.py:349-350 | the assumptions on rendered lines can be met: there is a one-line rendering that parses back |
| Corrections.CorrectionDesk.Correct | nth_dao/event_bus.py:371-499 | succeeds exactly when no rule refuses and the event can be emitted; then the stream gains that correction, from whose payload the original, type, reason and replacement are read back, and the index stays exact |
| Corrections.CorrectionDesk.CorrectionsFor | nth_dao/event_bus.py:509-558 | through the index or by the rebuilding scan, exactly the corrections a full scan finds, in stream order |
| Corrections.Rescan | nth_dao/event_bus.py:534-546 | one pass yields the event's corrections and the complete index |
| Corrections.PermittedIff | nth_dao/event_bus.py:407-475 | a correction is permitted exactly when the named event exists, is no correction, and is keyless or not invalid and matched by a signer holding its key, and a replacement comes only with CORRECTED |
| Corrections.EventIdIff | nth_dao/event_bus.py:117-117 | an original id is accepted exactly when it is sixteen lower-case hex digits, with at most a newline behind them |
| Corrections.PermittedIsGrounded | nth_dao/event_bus.py:421-478 | a permitted correction refers to an earlier non-correction event and carries its key when it has one |
| Corrections.PayloadTells | nth_dao/event_bus.py:475-483 | two corrections have the same payload only if they name the same original, type, reason and replacement |
| Corrections.DedupPrefixes | nth_dao/event_bus.py:549-554 | merging two prefixes of one list gives the longer, so a rebuild never reorders an exact index |
| CorrectionRaces.StepKeepsInv | nth_dao/event_bus.py:407-499 | every step of interleaved correctors and readers keeps the authorship rules and the index content |
| CorrectionRaces.CorrectionsAreGrounded | nth_dao/event_bus.py:433-475 | in every reachable stream each correction refers to an earlier non-correction and carries its key when it has one |
| CorrectionRaces.SettledIndexIsPermutation | nth_dao/event_bus.py:480-497 | once no corrector of an event is pending the index lists exactly the corrections a scan finds, each once |
| CorrectionRaces.LookupInStreamOrderIff | nth_dao/event_bus.py:480-533 | at rest the indexed lookup is in stream order if and only if every correction of the event was recorded before any later one |
| CorrectionRaces.OrderKeptIff | nth_dao/event_bus.py:488-554 | a step keeps a list in stream order exactly when it does not record out of turn |
| CorrectionRaces.AloneIsInTurn | nth_dao/event_bus.py:480-497 | a corrector that is alone with its event records in turn, so sequential corrections keep the order |
| CorrectionRaces.CorrectAlone | nth_dao/event_bus.py:371-499 | an undisturbed corrector can check, write and record, and leaves one more event and its id at the end of the original's list |
| CorrectionRaces.LookupAlone | nth_dao/event_bus.py:509-570 | an undisturbed reader can scan and merge, and leaves what was listed followed by what the scan found, each once |
| CorrectionRaces.RaceReverses | nth_dao/event_bus.py:480-497 | two correctors of one event can leave the index in the opposite order of the stream |
| CircuitBreaker.BufferIsRecentHistory | nth_dao/fault_isolation.py:497-519 | after any run the deque is the last cap of the failures since the latest reset that were in the window at the last pruning |
| CircuitBreaker.BoundedRefinesIdeal | nth_dao/fault_isolation.py:289-345 | the bounded deque changes no state, counter or audit event compared with an unbounded log |
| CircuitBreaker.Configure | nth_dao/fault_isolation.py:139-152 | settings in range are taken as given, others clamped, and the deque always has room for a threshold's worth of failures |
| CircuitBreaker.TrailReconstructsState | nth_dao/fault_isolation.py:230-349 | folding an agent's deferred circuit events gives its circuit state at every point of every run |
| CircuitBreaker.UnforcedCloseIsEarned | nth_dao/fault_isolation.py:250-270 | an unforced close comes after exactly success_threshold successes since the latest half-open, with no other transition in between |
| CircuitBreaker.FailureOpensIff | nth_dao/fault_isolation.py:312-345 | a failure opens a closed or half-open circuit exactly when the window, itself included, holds the threshold, and otherwise keeps state and probe progress |
| HalfOpenProbes.ProbesReopenIff | nth_dao/fault_isolation.py:11-15 | a failed probe, still in the window when counted, reopens the circuit in every time-ordered run exactly when the threshold is one |
| HalfOpenProbes.SuccessesConsecutiveIff | nth_dao/fault_isolation.py:232-270 | no run closes a circuit by success, failed probe, success exactly when one of the two thresholds is one |
| CircuitBreaker.HalfOpensAfterCooldownIff | nth_dao/fault_isolation.py:471-495 | an open circuit was opened by some failure, and a success or query half-opens it exactly when the cooldown has passed since that failure |
| CircuitBreaker.ReplayRebuilds | nth_dao/fault_isolation.py:585-634 | in reset-free runs whose failure events reached the bus in order, replay rebuilds the in-window buffer |
| CircuitBreaker.ReplayCountsInAnyOrder | nth_dao/fault_isolation.py:585-634 | with events in any order the count at the moment of the replay is still the same |
| BreakerReplay.ReplayNeverUndercounts | nth_dao/fault_isolation.py:497-519 | as long as nothing is pushed out, a rebuilt deque counts at every later failure at least the failures in the window, whatever the order on the bus |
| BreakerReplay.ReplayCountsRightIff | nth_dao/fault_isolation.py:497-634 | a rebuilt deque counts right at every later failure exactly when the bus has the unexpired failures in time order, looking only at those still held after one more |
| BreakerReplay.RestartAgreesIff | nth_dao/fault_isolation.py:585-634 | in reset-free runs whose failure events all reached the bus, a restarted breaker counts like one that was never restarted at every later failure exactly under that condition |
| ReplayDecisions.ReplayDecidesRightIff | nth_dao/fault_isolation.py:312-634 | for every bus, the rebuilt breaker passes the threshold at every later failure exactly when the window holds a threshold's worth, if and only if a finite test of the bus succeeds: for fewer failures than the threshold and each stamp on the bus as cutoff, kept and counted failures fall on the same side |
| ReplayDecisions.HarmlessIffTolerable | nth_dao/fault_isolation.py:497-519 | with room for a threshold's worth beside the bus that test says: every failure followed by an older one has all but one of a threshold's worth stamped no earlier |
| ReplayDecisions.RestartDecidesIff | nth_dao/fault_isolation.py:585-634 | in reset-free runs whose failure events all reached the bus, the restarted breaker passes the threshold at the same later failures as the one never restarted exactly when the bus passes that test |
| BreakerReplay.DisorderOpensEarly | nth_dao/fault_isolation.py:585-634 | two failures in reversed bus order and a restart open a circuit that otherwise stays closed; `DrainerCount.DisorderHappens` gives the run that leaves this bus |
| FaultIsolation.FaultIsolator.RecordSuccess | nth_dao/fault_isolation.py:230-272 | exactly one success step of that agent's machine; all other agents untouched, events deferred |
| FaultIsolation.FaultIsolator.RecordFailure | nth_dao/fault_isolation.py:273-349 | exactly one failure step, with the error cut to 500 characters and the deque capped and pruned |
| FaultIsolation.FaultIsolator.CircuitState | nth_dao/fault_isolation.py:362-369 | a query may half-open the circuit; the answer is the fold of everything deferred |
| FaultIsolation.FaultIsolator.Reset | nth_dao/fault_isolation.py:408-436 | one forced reset step, the deque emptied |
| FaultIsolation.FaultIsolator.ResetAll | nth_dao/fault_isolation.py:438-462 | every agent, known or not, goes through one reset step |
| FaultIsolation.FaultIsolator.TakePending | nth_dao/fault_isolation.py:560-565 | snapshot and clear in one section; without a bus the queue is dropped |
| FaultIsolation.FaultIsolator.ReplayFromEventBus | nth_dao/fault_isolation.py:585-634 | one replay call on every agent: its deque becomes the capped in-window failures on the stream, circuit states stay, the number of events taken up is returned, and every other method can be called again |
| FaultIsolation.RebuildAll | nth_dao/fault_isolation.py:611-634 | the pass over the stream leaves for every agent exactly its capped in-window failures in stream order |
| FaultIsolation.FoldIsState | nth_dao/fault_isolation.py:533-543 | for every agent among many, folding all deferred events gives its state |
| AuditFlow.AuditsAreConserved | nth_dao/fault_isolation.py:533-575 | under every interleaving of isolator calls and drainers each event is queued, in hand, emitted or lost exactly as often as it was deferred |
| AuditFlow.PerformedIsWork | nth_dao/fault_isolation.py:533-543 | a call on one agent is such a step: the breakers stay those of their agents' runs and the queue grows by its events |
| AuditFlow.TransferMoves | nth_dao/fault_isolation.py:544-575 | where each step of a drainer moves events; only an emit reaches the bus |
| AuditFlow.SingleDrainerKeepsOrder | nth_dao/fault_isolation.py:544-575 | in every run with one drainer that loses nothing the bus is at every moment a prefix of what was deferred, in order |
| AuditFlow.BusReconstructsState | nth_dao/fault_isolation.py:533-575 | once such a run is at rest folding the bus gives every agent's circuit state |
| AuditFlow.BusRebuildsBuffer | nth_dao/fault_isolation.py:585-634 | and a replay of that bus rebuilds the unexpired deque of every agent without resets |
| DrainerCount.DrainersReorder | nth_dao/fault_isolation.py:544-575 | from every reachable state at rest, with two drainers, the events of any two stretches of calls on an agent, failures included, can reach the bus in the opposite order, losing nothing |
| DrainerCount.BusIsPermutation | nth_dao/fault_isolation.py:544-575 | with any number of drainers a run that loses nothing has at rest everything deferred on the bus, in some order |
| DrainerCount.BusTellsOldState | nth_dao/fault_isolation.py:544-575 | with two drainers or more a reachable bus at rest folds to open while the circuit is closed |
| DrainerCount.FoldRightIff | nth_dao/fault_isolation.py:533-575 | folding the bus gives every agent's state in all runs at rest with k drainers that lose nothing exactly when k is at most one |
| DrainerCount.ReplayRightIff | nth_dao/fault_isolation.py:585-634 | a replay of the bus counts like the breaker itself at every later failure in all those runs exactly when k is at most one or the deque has one place |
| DrainerCount.DecisionRightIff | nth_dao/fault_isolation.py:585-634 | it passes the threshold at the same later failures in all those runs exactly when k is at most one or the threshold is one |
| DrainerCount.DisorderHappens | nth_dao/fault_isolation.py:544-634 | two drainers and two failures reach rest with the later failure first on the bus, and a restart from it opens a circuit that otherwise stays closed |
| DidKeys.ConvertBack | nth_dao/did_key.py:88-126 | change of base keeping leading zeros is undone by the opposite change |
| DidKeys.B58Encode | nth_dao/did_key.py:88-104 | the divmod loop computes that change of base from 256 to 58, written in the alphabet |
| DidKeys.B58Decode | nth_dao/did_key.py:107-126 | Horner's loop and to_bytes compute the opposite one, refusing exactly the texts outside the alphabet |
| DidKeys.ToBytesIsMinimal | nth_dao/did_key.py:107-126 | the byte length from bit_length is exactly the number of base-256 digits |
| DidKeys.LettersSpellAlphabet | nth_dao/did_key.py:88-104 | the digit letters are the Bitcoin alphabet in order |
| DidKeys.DecodeUndoesEncode | nth_dao/did_key.py:88-126 | encode then decode is the identity on all byte strings |
| DidKeys.EncodeUndoesDecode | nth_dao/did_key.py:88-126 | decode then encode is the identity on all texts over the alphabet |
| DidKeys.KeyRoundTrip | nth_dao/did_key.py:132-181 | every 32-byte key survives the round trip |
| DidKeys.DidRoundTrip | nth_dao/did_key.py:152-181 | the only string decode accepts for a key is the one encode produces |
| IsoTime.BoundsArePrefix | nth_dao/achievement.py:90-111 | on well-formed naive timestamps the string-bound test, the prefix test and being of that month agree |
| IsoTime.PeriodParses | nth_dao/achievement.py:96-99 | a listed period's text parses back to its year and month |
| IsoTime.Calendar | nth_dao/achievement.py:90-104 | the days of each month, leap years included |
| IsoTime.IsoLayout | nth_dao/achievement.py:107-111 | where each field stands in a timestamp text and that it reads back |
| Achievements.OnePeriod | nth_dao/achievement.py:107-135 | a well-formed event is within the bounds of exactly the period that is its prefix |
| Achievements.ListPeriods | nth_dao/achievement.py:114-121 | exactly the non-empty prefixes of the events, strictly ascending |
| Achievements.ReducePeriod | nth_dao/achievement.py:124-196 | refuses exactly a malformed period; otherwise every number is the sum over the selected events, with their success rate and the sequence and hash range from first to last |
| Achievements.RangePinsEvents | nth_dao/achievement.py:155-158 | in a ledger numbered from 1 and stamped in order, that range pins exactly the selected events and spans as many numbers as there are events |
| Achievements.Reduce | nth_dao/agent_ledger.py:519-552 | every counter, cost and dictionary entry is the sum of the events' contributions |
| Achievements.ComputeStats | nth_dao/agent_ledger.py:467-560 | the all-time report with success rate and first and last timestamp, empty for an empty ledger |
| Achievements.SuccessRate | nth_dao/agent_ledger.py:554-557 | between 0 and 1, zero without attempts, otherwise the share of attempts that were completed |
| Achievements.PeriodsConserveLedger | nth_dao/agent_ledger.py:467-560 | over the listed periods every number adds up to the all-time statistics, whatever the event order |
| Achievements.SumPermutes | nth_dao/agent_ledger.py:519-552 | the same events in any order give the same numbers |
| Achievements.StoreIsHonestIff | nth_dao/agent_ledger.py:562-570 | the stored cache is right for the hash it names exactly when nothing was appended between the read and the hash |
| Achievements.StaleCacheIsServed | nth_dao/agent_ledger.py:562-570 | an append in that gap makes the next call serve statistics that miss the event |
| RateLimiting.RateLimiter.CheckAndRecord | nth_dao/local_tool_orchestrator.py:255-279 | the locked section for any earlier clock reading: refused exactly when the stored calls after it fill the limit, which is the whole history's verdict when no later reading was admitted; a refusal changes nothing and its wait is always long enough |
| RateLimiting.SafeWindowIff | nth_dao/local_tool_orchestrator.py:262-279 | readings may enter the lock out of order; in all such runs windows of a given width hold at most limit admitted calls exactly when the width is at most an hour, less the longest time between reading and lock unless the limit is one |
| RateLimiting.SlidingWindow | nth_dao/local_tool_orchestrator.py:262-279 | any window (t - 3600, t] holds at most limit admitted calls in every run exactly when the limit is one or no caller can be overtaken before the lock |
| RateLimiting.WaitIsExact | nth_dao/local_tool_orchestrator.py:269-272 | the announced wait is always long enough, and exact exactly when the first stored call is the oldest |
| RateLimiting.WaitsExactIff | nth_dao/local_tool_orchestrator.py:262-272 | it is exact in every run exactly when the limit is one or no caller can be overtaken before the lock |
| UntrustedContext.EscapeIsCharwise | nth_dao/agent_daemon.py:330-343 | the three replacements, in this order or the opposite one, are one character-wise map |
| UntrustedContext.TrimOnceDrops | nth_dao/agent_daemon.py:369-386 | one pass always drops from the last backslash among the last five characters, and skips no clean prefix |
| UntrustedContext.TrimDangling | nth_dao/agent_daemon.py:346-366 | the loop ends with the longest prefix that has no backslash among its last five characters |
| UntrustedContext.EscapesCompleteOrAbsent | nth_dao/agent_daemon.py:346-386 | a clean cut of a message is a piece of its header or the header with the escaped form of a prefix of its body |
| UntrustedContext.BuildContext | nth_dao/agent_daemon.py:285-321 | the context never exceeds the character limit, every part but the last is a whole message, and as many of the last max_messages messages as fit are in it |
| UntrustedContext.RecentIsSuffix | nth_dao/agent_daemon.py:286-291 | what is rendered is the end of the message list, as many messages as asked for, at least one, or all |
| UntrustedContext.RenderedCut | nth_dao/agent_daemon.py:309-321 | in a rendered transcript every escape from the cut body is complete or absent |
| UntrustedContext.LabelIsOneLine | nth_dao/agent_daemon.py:324-327 | a label is one line of 1 to 80 characters |
| UntrustedContext.ChunkShape | nth_dao/agent_daemon.py:291-298 | a whole message is its label line and text free of carriage returns and of the three escaped characters |
| ContextLines.ContextPlainIff | nth_dao/agent_daemon.py:291-327 | a whole transcript is free of the three escaped characters exactly when its sender labels are; labels are not escaped |
| ContextLines.RenderedPlainIff | nth_dao/agent_daemon.py:285-327 | the same for a transcript that was cut, with what the cut left of the last header |
| ContextLines.HeadersAreOwnIff | nth_dao/agent_daemon.py:297-321 | the lines of header form in a whole transcript are its messages' headers, in order, exactly when no escaped body holds a line of that form |
| ContextLines.BodyMayHoldHeader | nth_dao/agent_daemon.py:297-298 | a body can hold the header line of any message with a plain label |
| ContextLines.EscapesReadBack | nth_dao/agent_daemon.py:330-343 | a JSON string reader turns an escaped body back into the body |
| ContextLines.LabelKeepsName | nth_dao/agent_daemon.py:324-327 | a sender name stands in its header as it is, up to 80 characters of it, without the blanks around it |
| ContextLines.UnixLinesPieces | nth_dao/agent_daemon.py:294-294 | each line end of a body, of whichever kind, becomes one newline and nothing else changes |

## Left out

- Ed25519, SHA-256, key files and the signature library: terms and predicates stand for them. Spellings of one key in different letter case are different keys here.
- The internals of capability tokens: one flag stands for a token's shape and issuer signature.
- UTF-8: text is a sequence of Unicode scalar values; offsets in `EventIndex.dfy` are bytes of an abstract codec whose rendered events are single non-empty lines that parse back.
- Bracket classes in glob patterns: which characters a bracket body admits is a parameter of the matcher.
- A wall-clock reading of zero milliseconds in receipt signing.
- ReceiptStores.StepKeepsRecord: receipt ids are freshly drawn, here and in `ReceiptStores.RunIsRecorded`, `ReceiptStores.ChainAcceptedIff`, `ReceiptStores.EverySignerHasOneChain` and `ReceiptStores.PoisonedForever`; a caller-chosen id that is taken overwrites that receipt.
- WebSocket transport, handshake, peer discovery and reconnection; the peer graph is fixed during a flood.
- Gossip.StepKeepsInv: no dedup entry is evicted in the network theorems of `Gossip.dfy` and `GossipEcho.dfy`; `GossipDedup.SeenSetIs` says what one node remembers when entries are.
- Persistence and reload of breaker state, health scores and their rounding, and wider exceptions than the modelled ones.
- Crash recovery of the event file beyond `EventChain.TornTailSealsStream`; loss of the corrections index; `seq` fields that are not integers.
- The agent ledger's own hash chain: it repeats the event chain with other fields. Ledger lines that do not parse.
- Spellings of numbers in a period text other than plain decimal digits, which `int()` would also read.
- Routing strategies, fan-out and request signing of the action router; the handler is a pure function of the request.
- `reset`'s and other calls' log output, and the text of error messages beyond a short reason.
- Marketplace, membership, groups, guardians, reputation, A2A documents and invitations: their branches are settled by one reading or add only easy members.
