# Verified models of openserver

This project models the stateful kernels of openserver, a C service framework with an embedded
MQTT broker, and proves what they promise.

- `LinearHash`: the linear-hashing table of `src/opbox/hash.c` refines a finite map across every
  split, doubling, merge and halving, within its load bounds.
- `PoolAllocator`, `PoolRuns`: the pool allocator of `src/base/opmem.c`, on top of that table as its
  index of live blocks: disjointness, conservation of blocks, accounting, the reclaiming pass, and
  whole runs.
- `Topics`, `TopicMatcher`, `Tokeniser`: topics and filters, the character-wise matcher, the
  in-place tokeniser and its inverse.
- `TopicTree`, `RetainedMessages`, `Subscriptions`: the retained-message tree and the subscription
  tree find exactly what level-wise matching selects.
- `Messages`, `OutgoingWriter`, `StoreList`, `Admission`, `SessionLists`: one client's lists, cached
  counters, the writer and the reconnect reset, and the counting of a stored message's holders.
- `WriteLaws`, `InsertLaws`, `ResumeLaws`, `Answers`: what is listed, sent and answered, packet by
  packet, and in which order.
- `DbInvariant`, `DbSteps`, `Inbound`, `PendingIds`, `MessageDb`, `ExactlyOnce`: the message
  database. Its invariant says that every reference count equals the client entries, retained nodes and temporary references
  holding the message, that no holder points to a removed message, that the store list's count and
  bytes are right, that cached counters are right for clients not limited to quality 0, and that
  every accepted incoming message is pending, forwarded or discarded. Every method keeps it.
  `ExactlyOnce` is about whole runs of PUBLISH and PUBREL packets, takeovers and deletions of sessions.
- `Timers`: the timer list of `src/opbox/uloop.c` under a truncating millisecond difference.
- `AccessControl`: the access lists of `src/module/mqtt/security_default.c`.
- `Options`, `Modular`: helpers.

How the outside world appears: the network is a function from the number of a send to its result,
and packets are logged; the system allocator gives regions apart from those it has not got back;
clocks are parameters; timer callbacks are scripts of timer operations; the subscribers of a message
and the result of searching them are parameters of the methods that hand a message on (which
subscribers a topic reaches is proved in `Subscriptions`). `accepted`, `forwarded`, `discarded`, `handed` and `pins`
of the message database are ghost bookkeeping: messages that became pending, were handed on with
success, were given up, every hand-over with its result, and references held by running calls.

Where the code differs from what it seems to promise, the code is followed and the exact condition
is proved: filters of the form `$x/#` miss a childless `$x` node (`OnlyDollarMissed`,
`DollarParentMissed`, `VisitExact`); counters drift for a client limited to quality 0
(`AppendKeepsIff`, `CountersDrift`) and after an access check that drops entries (`AclDropIff`, `AclDrops`);
pending ids stay distinct unless a queued one is reused (`PublishOrderly`, `ReuseDisorders`, and
`RunOrderly` for runs); the latest-write equals the full write under the condition of `LatestIsAll`;
storing a retained message again needs a second holder (`RetainSafeIff`, `RetainUnsafe`); the backlog
of a client that is away is bounded only in messages of quality above 0 (`BacklogBounded`,
`BacklogLengthIff`, `BacklogOverflows`); the reset after a reconnect can leave an inflight entry in the
queued state (`ResetAtWorkIff`, `ResetLeavesQueued`); an acknowledgement can exceed `inflight_maximum`
(`AckedWithinMaximumIff`, `AckExceedsMaximum`); two times are ordered rightly exactly while their
difference fits an int, as far as 2^32 milliseconds (`LaterRightIff`), and where it does not a timer
fires early or is misplaced (`WrapMisorders`, `FiresOne`, `FiresEarly`, `Misplaces`); a PUBLISH of quality 1 at an empty receive quota
raises it, and one that fails at MQTT 5 lowers it (`QuotaKeptIff`).

`dafny verify dfyconfig.toml` checks the whole project.

## Model

| member | source | states |
|---|---|---|
| `LinearHash.LoadTests` | src/opbox/hash.c:125-127 | the truncating load division asks for growth exactly from two items a bucket on, and for shrinking exactly while the truncated load is at most one |
| `LinearHash.BucketAfterSplit` | src/opbox/hash.c:246-292 | a split readdresses only items of bucket p, to p or p + pmax, and the test hash % nni != p tells which, also at the doubling step |
| `LinearHash.SplitKeeps` | src/opbox/hash.c:273-289 | sharing out bucket p keeps every item in the bucket computed for it, no key twice, the spare slots empty, and the map represented |
| `LinearHash.MergeKeeps` | src/opbox/hash.c:294-329 | appending bucket p + pmax to bucket p undoes a split: same invariant, same map, also at the halving step |
| `LinearHash.SplitChain` | src/opbox/hash.c:279-289 | the relinking loop shares a chain out without losing or duplicating a node |
| `LinearHash.LookupInChain` | src/opbox/hash.c:331-354 | a node found in the computed chain is the map's entry; a key not met there is not in the map |
| `LinearHash.ChainUpdate` | src/opbox/hash.c:117-177 | rewriting one chain for one key represents the map rewritten at that key |
| `LinearHash.HashTable.constructor` | src/opbox/hash.c:49-94 | a new table is the empty map and within the load bounds |
| `LinearHash.HashTable.Expand` | src/opbox/hash.c:246-292 | one split keeps the contents and all of num_alloc_nodes = 2*pmax, p < pmax, num_nodes = pmax + p, placement |
| `LinearHash.HashTable.Contract` | src/opbox/hash.c:294-329 | one merge keeps the same and takes p and pmax exactly one split back |
| `LinearHash.HashTable.GetRn` | src/opbox/hash.c:331-354 | the slot and chain position of a key: found exactly when the map has it |
| `LinearHash.HashTable.Insert` | src/opbox/hash.c:117-149 | map update returning the replaced entry; load stays at most 2 items a bucket, and at least 1 above the minimum size |
| `LinearHash.HashTable.Delete` | src/opbox/hash.c:151-177 | map removal returning the removed entry, within the same bounds |
| `LinearHash.HashTable.Retrieve` | src/opbox/hash.c:179-196 | map lookup |
| `LinearHash.HashTable.DoAll` | src/opbox/hash.c:198-229 | visits every entry exactly once |
| `LinearHash.HashTable.Run` | src/opbox/hash.c:117-196 | any sequence of operations answers as a finite map would, across every split, doubling, merge and halving |
| `PoolAllocator.ClassForFits` | src/base/opmem.c:101-110 | the first class found is the smallest whose blocks hold the size |
| `PoolAllocator.GetList` | src/base/opmem.c:101-110 | the scan of the class table returns that class, and none exactly above the maximum |
| `PoolAllocator.FitsOwn` | src/base/opmem.c:101-110 | a block's own size leads back to the class it was cut for |
| `PoolAllocator.InsideChunk` | src/base/opmem.c:56-72 | every block lies inside its chunk |
| `PoolAllocator.BlocksApart` | src/base/opmem.c:56-72 | different blocks do not overlap |
| `PoolAllocator.LiveApart` | src/base/opmem.c:227-325 | live blocks, pool or system, are pairwise disjoint in every valid state |
| `PoolAllocator.TakeKeeps` | src/base/opmem.c:312-324 | taking the first free block: it was not live, so the index gains an entry and replaces none; the invariant is kept |
| `PoolAllocator.GiveKeeps` | src/base/opmem.c:391-402 | giving a live block back to its class keeps the invariant |
| `PoolAllocator.NewFatherKeeps` | src/base/opmem.c:266-287 | a chunk over a region the system had not handed out keeps the invariant |
| `PoolAllocator.SystemTakeKeeps` | src/base/opmem.c:237-258 | a block taken from the system is new to the index and disjoint from everything |
| `PoolAllocator.SystemGiveKeeps` | src/base/opmem.c:381-389 | returning a system block keeps the invariant |
| `PoolAllocator.UnusedHasNoLive` | src/base/opmem.c:417-447 | used_size 0 means that no live block belongs to the chunk |
| `PoolAllocator.ReclaimKeeps` | src/base/opmem.c:417-447 | dropping an unused chunk with all its free blocks keeps the invariant: no free block refers to a removed chunk |
| `PoolAllocator.TakeStat` | src/base/opmem.c:312-322 | pool_alloc = used + noused and per-class counts survive an allocation |
| `PoolAllocator.GiveStat` | src/base/opmem.c:391-402 | the same for a release of a block |
| `PoolAllocator.ReclaimStat` | src/base/opmem.c:432-436 | the same for a reclaimed chunk |
| `PoolAllocator.DropBlocks` | src/base/opmem.c:428-439 | the inner loop takes exactly the chunk's blocks off the free list and adds up their bytes |
| `PoolAllocator.Allocator.constructor` | src/base/opmem.c:140-225 | initialisation gives a valid state with exactly one chunk per class, over its own region, that may never be reclaimed |
| `PoolAllocator.Allocator.Malloc` | src/base/opmem.c:227-325 | a fresh address outside every live block, of the smallest class that fits, or the region of the exact size from the system; the index gains just this entry; the system is asked exactly for a large block or when the class has no free one; every chunk stays with its class, place, size and reclaim flag, and an added one may be reclaimed |
| `PoolAllocator.Allocator.TakeFirst` | src/base/opmem.c:312-324 | unlinks the head of the free list, leaves the rest and the other classes as they were, and indexes it |
| `PoolAllocator.Allocator.AddFather` | src/base/opmem.c:266-310 | cuts a chunk into exactly its blocks and appends them to the free list of its class |
| `PoolAllocator.Allocator.Free` | src/base/opmem.c:366-407 | removes exactly the block from the index and returns it to the tail of the class it came from, or its region to the system; an unknown address changes nothing; every chunk stays with its class, place, size and reclaim flag |
| `PoolAllocator.Allocator.ReleaseCheck` | src/base/opmem.c:417-447 | afterwards exactly the releasable unused chunks are gone, with all their blocks; none had a live block, initial pools stay |
| `PoolAllocator.TakeCuts` | src/base/opmem.c:312-324 | every block ever cut from a chunk is still free or live after an allocation |
| `PoolAllocator.GiveCuts` | src/base/opmem.c:391-402 | and after a release of a block |
| `PoolAllocator.ReclaimCuts` | src/base/opmem.c:417-447 | and after the reclaiming pass, for the chunks that are left |
| `PoolRuns.BlocksConserved` | src/base/opmem.c:191-210 | per class, all_num = free blocks + live blocks = blocks a chunk times chunks: no block is lost or doubled |
| `PoolRuns.PoolAllocIsChunks` | src/base/opmem.c:191-210 | pool_alloc is the sum of the block bytes of all chunks |
| `PoolRuns.Run` | src/base/opmem.c:227-447 | over any run of allocations, releases and reclaiming passes, on any system whose only promise is that what it hands out is apart from what it has not got back: the state stays valid, live blocks stay disjoint, no initial pool is ever reclaimed, and pool_alloc stays that sum |
| `PoolRuns.AddressComesBack` | src/base/opmem.c:237-258 | such runs include an address that leaves the index and comes back: a large block is freed and the system hands the same region out again |
| `Topics.JoinSplit` | src/module/mqtt/persist_write.c:217-224 | joining the levels of a string gives the string back |
| `Topics.DollarApart` | src/module/mqtt/retain.c:196-252 | a filter and a topic of which one starts with $ never match (section 4.7.2 of MQTT Version 5.0) |
| `Topics.FilterHashLast` | src/module/mqtt/lib/util_topic.c:117-154 | a valid filter has # only as its last level |
| `Topics.TopicHasNoWildcards` | src/module/mqtt/lib/util_topic.c:51-80 | a valid topic's path has no wildcard level |
| `TopicMatcher.SubTopicCheck` | src/module/mqtt/lib/util_topic.c:117-154 | accepts exactly the valid filters within the length and depth limits |
| `TopicMatcher.TopicMatchesSub` | src/module/mqtt/lib/util_topic.c:192-327 | on valid input the one-pass character scan decides level-wise matching; empty input is refused |
| `TopicMatcher.AtPlus` | src/module/mqtt/lib/util_topic.c:225-245 | the + step keeps the scan's meaning or ends it with the right answer |
| `TopicMatcher.AtHash` | src/module/mqtt/lib/util_topic.c:246-263 | the # step ends the scan with the right answer |
| `TopicMatcher.AtOther` | src/module/mqtt/lib/util_topic.c:264-287 | the step where the strings differ ends the scan with the right answer |
| `TopicMatcher.AtSame` | src/module/mqtt/lib/util_topic.c:288-314 | the step over equal characters keeps the scan's meaning, also where the topic ends before /# or /+ |
| `Tokeniser.StrtokHier` | src/module/mqtt/topic_tok.c:33-56 | cuts the next level off in place and moves the save pointer behind it |
| `Tokeniser.CountLevels` | src/module/mqtt/topic_tok.c:76-81 | the counting pass counts the slashes behind the first character |
| `Tokeniser.TokenCount` | src/module/mqtt/topic_tok.c:82-98 | the counted slots plus three always hold the path and its end mark |
| `Tokeniser.CutTokens` | src/module/mqtt/topic_tok.c:88-98 | the token array denotes exactly the levels, with the leading empty one unless the string starts with $ |
| `Tokeniser.DropShare` | src/module/mqtt/topic_tok.c:100-116 | shifting drops $share and the share name |
| `Tokeniser.TopicTokenise` | src/module/mqtt/topic_tok.c:59-118 | the whole function: result codes, the path, every write inside the reserved slots, the share name |
| `Tokeniser.RebuildTokens` | src/module/mqtt/persist_write.c:206-251 | rebuilding a topic along its tokenised path gives it back, for every non-empty topic |
| `TopicTree.PutRefinesMap` | src/module/mqtt/retain.c:75-127 | a store changes the map from paths to values at its own path only |
| `TopicTree.PutWellFormed` | src/module/mqtt/retain.c:32-58 | siblings keep different levels |
| `TopicTree.VisitExact` | src/module/mqtt/retain.c:196-252 | the search processes exactly the nodes with a value whose path matches, each once, except the one missed case |
| `TopicTree.VisitBranchExact` | src/module/mqtt/retain.c:216-249 | the same for the walk below one child |
| `TopicTree.SubVisitExact` | src/module/mqtt/subs.c:470-539 | the order in which the subscription search meets filters holds exactly the stored filters that match the topic, each once |
| `TopicTree.SubSearchExact` | src/module/mqtt/subs.c:636-669 | the same for the forest of roots |
| `TopicTree.SubDeliverIs` | src/module/mqtt/subs.c:470-539 | the recursive search with its early returns processes that order one by one until a delivery fails |
| `TopicTree.InTurnMeans` | src/module/mqtt/subs.c:480-539 | so it processes all of them, or those up to and including the first that fails, and returns that failure; otherwise success exactly when some delivery succeeded |
| `TopicTree.RemoveRefinesMap` | src/module/mqtt/subs.c:395-467 | taking a subscriber off a node, and the node away when nobody is left, changes the map at its own path only |
| `TopicTree.RemoveKeeps` | src/module/mqtt/subs.c:395-467 | and keeps the tree well formed, with nothing below # |
| `TopicTree.PutForest` | src/module/mqtt/subs.c:569-608 | adding a valid filter keeps the subscription forest well formed |
| `RetainedMessages.TokensInjective` | src/module/mqtt/topic_tok.c:59-98 | different topics have different paths |
| `RetainedMessages.OnlyDollarMissed` | src/module/mqtt/retain.c:236-242 | the missed case cannot occur for a filter that does not start with $ |
| `RetainedMessages.DollarParentMissed` | src/module/mqtt/retain.c:236-242 | it does occur: a message on $x alone is not found by $x/# until something is stored below $x |
| `RetainedMessages.RetainTree.Store` | src/module/mqtt/retain.c:75-127 | the tree is a map from path to the last non-empty message; an empty payload clears its entry |
| `RetainedMessages.RetainTree.Search` | src/module/mqtt/retain.c:196-277 | for a valid filter the visited nodes are exactly the selected ones, each once; without $ they are exactly the matching retained topics |
| `RetainedMessages.RetainTree.Queue` | src/module/mqtt/retain.c:255-277 | delivers every matching, unexpired, readable message once and drops exactly the matching expired ones |
| `RetainedMessages.RetainTree.Process` | src/module/mqtt/retain.c:130-193 | what processing the visited nodes delivers and drops |
| `Subscriptions.WithLeafOnce` | src/module/mqtt/subs.c:157-187 | subscribing lists the client once, with the quality and identifier asked for, and leaves the others alone |
| `Subscriptions.WithoutClientGone` | src/module/mqtt/subs.c:362-392 | unsubscribing takes exactly the client off the list |
| `Subscriptions.SomebodyThere` | src/module/mqtt/subs.c:395-442 | a node is kept for its subscribers exactly when there is one, shared or not |
| `Subscriptions.ShareNamed` | src/module/mqtt/subs.c:202-214 | the share name of a filter is what stands between $share/ and the next slash, so every name makes a group of its own |
| `Subscriptions.ShareMeans` | src/module/mqtt/subs.c:202-214 | and only a filter that begins so has one |
| `Subscriptions.SubscriptionTree.Add` | src/module/mqtt/subs.c:569-608 | adds the client to the list of its filter and share name and changes no other list; the result tells a repeated subscription |
| `Subscriptions.SubscriptionTree.Remove` | src/module/mqtt/subs.c:610-633 | takes the client off the list of its filter and share name and changes no other list; the result says whether it was there |
| `Subscriptions.SubscriptionTree.Search` | src/module/mqtt/subs.c:636-657 | the processed filters are subscribed, match, and come once; without a failed delivery they are exactly those; a failed delivery ends the search with its result; a topic whose root is absent is a success without subscribers |
| `Timers.LaterMeans` | src/opbox/uloop.c:468-473 | what the truncating difference calls later, exactly |
| `Timers.LaterIsLater` | src/opbox/uloop.c:468-473 | what it calls later is later in true time |
| `Timers.LaterTransitive` | src/opbox/uloop.c:468-473 | that relation is transitive |
| `Timers.LaterAsymmetric` | src/opbox/uloop.c:468-473 | and asymmetric |
| `Timers.TiesNotTransitive` | src/opbox/uloop.c:468-473 | ties do not compose, so it is not a total preorder |
| `Timers.LaterRightIff` | src/opbox/uloop.c:468-473 | the truncated difference orders two times rightly if and only if it lands on the right side of zero; below 2^32 milliseconds that is exactly when it fits an int |
| `Timers.DelaysComparable` | src/opbox/uloop.c:468-473 | any times at most the largest int of milliseconds apart are comparable |
| `Timers.WrapMisorders` | src/opbox/uloop.c:468-473 | any two times more than 2^31 and less than 2^32 milliseconds apart are ordered the wrong way round |
| `Timers.FiresOne` | src/opbox/uloop.c:710-724 | a timer alone in the list fires exactly when it is not reported later; below 2^32 milliseconds that is the right decision if and only if the difference fits an int |
| `Timers.FiresEarly` | src/opbox/uloop.c:710-724 | every timer 2^31 to 2^32 milliseconds ahead fires at once |
| `Timers.Misplaces` | src/opbox/uloop.c:475-494 | and it is put in front of one that is due that much earlier |
| `Timers.InsertKeepsOrder` | src/opbox/uloop.c:475-494 | inserting before the first later timer keeps the list ordered although ties do not compose |
| `Timers.HeadDecides` | src/opbox/uloop.c:710-724 | if the head is later than now, the true time of every timer is in the future |
| `Timers.DueMeans` | src/opbox/uloop.c:710-724 | a timer that is not later than now is less than a millisecond away |
| `Timers.DueTimeExact` | src/opbox/uloop.c:505-523 | the set time is exactly the delay after the clock |
| `Timers.TimerList.Add` | src/opbox/uloop.c:475-494 | inserts once, before the first later timer, refuses a pending one; keeps the order among any comparable times |
| `Timers.TimerList.Cancel` | src/opbox/uloop.c:525-534 | removes exactly the timer, refuses one that is not pending |
| `Timers.TimerList.Set` | src/opbox/uloop.c:505-523 | the timer is pending afterwards at exactly its due time, and all others stay as they were |
| `Timers.TimerList.Process` | src/opbox/uloop.c:710-724 | what fired was not later than now, and the head left over is; among any comparable times no pending timer has come due and none fired a millisecond or more early, whatever the callbacks add or cancel |
| `AccessControl.ExpandLength` | src/module/mqtt/security_default.c:459-486 | the expansion has exactly tlen + ccount*(clen-2) + ucount*(ulen-2) characters |
| `AccessControl.ComputedIsTrue` | src/module/mqtt/security_default.c:459-465 | the unsigned computation gives this length for every client id and user name, also shorter than two characters |
| `AccessControl.CountPlaceholders` | src/module/mqtt/security_default.c:323-341 | the counting loops count the placeholders the expansion replaces |
| `AccessControl.ExpandInto` | src/module/mqtt/security_default.c:466-486 | the copy loop writes the expansion and its terminator, every write inside the buffer |
| `AccessControl.ExpandValid` | src/module/mqtt/security_default.c:451-486 | a valid pattern stays a valid filter when expanded with wildcard-free names |
| `AccessControl.LinkedDenyFirst` | src/module/mqtt/security_default.c:268-283 | adding an entry keeps deny entries in front and adds exactly that entry |
| `AccessControl.LinkedAllIs` | src/module/mqtt/security_default.c:349-363 | entries added one by one form a deny-first list of exactly those entries |
| `AccessControl.OrderIrrelevant` | src/module/mqtt/security_default.c:403-504 | the decision does not depend on the order in which entries were added |
| `AccessControl.ScanUser` | src/module/mqtt/security_default.c:403-424 | for every topic the first-match scan of a user list equals deny, else allow, else no decision |
| `AccessControl.ScanPatterns` | src/module/mqtt/security_default.c:451-504 | the same for the expanded patterns |
| `AccessControl.SecurityOptions.AddAcl` | src/module/mqtt/security_default.c:205-299 | adds the entry to that user's list only, deny entries in front |
| `AccessControl.SecurityOptions.AddAclPattern` | src/module/mqtt/security_default.c:301-366 | adds a pattern with its placeholder counts, deny entries in front |
| `AccessControl.SecurityOptions.FindAcls` | src/module/mqtt/security_default.c:704-740 | finds the list of a user name, or that there is none |
| `AccessControl.DecideByBits` | src/module/mqtt/security_default.c:403-504 | for a client that is no bridge under a configured list, reading is allowed if and only if no matching entry denies and one has the read bit, and writing if and only if one has the write bit, among the user's entries or else the patterns |
| `AccessControl.ReadIsNotWrite` | src/module/mqtt/security_default.c:418-421 | an entry for reading does not open writing, nor the other way round; one for both opens either |
| `AccessControl.SecurityOptions.Check` | src/module/mqtt/security_default.c:368-505 | user deny, else user allow, else pattern deny, else pattern allow, else denied; names with wildcards are denied; on the literal access bits for reading and writing |
| `Messages.DequeueKeeps` | src/module/mqtt/database.c:322-334 | dequeuing moves the boundary between inflight and queued, never an entry, and keeps the counters right |
| `Messages.RemoveKeeps` | src/module/mqtt/database.c:300-319 | removal takes exactly the entry's share off counters and holders |
| `Messages.StateChangeKeeps` | src/module/mqtt/database.c:576-591 | changing protocol states keeps messages, counters and holders |
| `Messages.AppendKeepsIff` | src/module/mqtt/database.c:513-531 | an insertion keeps the counters right if and only if the message has quality 0 or the client is not limited to quality 0 |
| `Messages.CountersDrift` | src/module/mqtt/database.c:513-531 | the other case is real: a message of quality above 0 for a client limited to quality 0 leaves a counter wrong |
| `Messages.AclDropIff` | src/module/mqtt/handle_connect.c:86-103 | the access check after a takeover keeps the counters right if and only if it drops nothing |
| `Messages.AclDrops` | src/module/mqtt/handle_connect.c:86-103 | the other case is real: one entry that is no longer allowed |
| `OutgoingWriter.StartMeans` | src/module/mqtt/database.c:1117-1133 | where the latest-write starts: everything behind is waiting to be published, the entry before is not |
| `OutgoingWriter.LatestIsAll` | src/module/mqtt/database.c:1083-1142 | the latest-write has the sends, result and final lists of the full write on every network if and only if no entry before its start has work to do |
| `OutgoingWriter.SuffixSuffices` | src/module/mqtt/database.c:1083-1142 | in particular when pending entries form a suffix and nothing before it is expired or awaits a PUBREL resend |
| `OutgoingWriter.NothingLeft` | src/module/mqtt/database.c:988-1142 | on a network that never fails, nothing from the starting entry on is left to be written |
| `OutgoingWriter.SuffixAppend` | src/module/mqtt/database.c:519-523 | appending a pending entry keeps the suffix shape |
| `OutgoingWriter.SuffixRemove` | src/module/mqtt/database.c:300-319 | removing any entry keeps it |
| `OutgoingWriter.SuffixLatest` | src/module/mqtt/database.c:1100-1142 | the latest-write keeps it, also when a send fails midway |
| `OutgoingWriter.SingleKeepsCounters` | src/module/mqtt/database.c:988-1080 | writing an entry keeps the counters right |
| `WriteLaws.SingleIs` | src/module/mqtt/database.c:988-1080 | one entry, for every result of the send: which packet, which result, what is left of the entry, and which quota; a PUBLISH too large is given up, any other failure leaves the entry as it was |
| `WriteLaws.WriteExact` | src/module/mqtt/database.c:1083-1097 | on a network that never fails a write sends exactly one packet for each unexpired entry with work to do, in list order, a PUBLISH with the entry's id, message, quality, retain and duplicate flag or a PUBREL; afterwards quality 0 is gone, quality 1 waits for PUBACK, quality 2 for PUBREC, a PUBREL for PUBCOMP |
| `WriteLaws.WriteAny` | src/module/mqtt/database.c:1083-1097 | on any network it sends what it owes up to some entry; it ends early only with a failed send, the log ends with that packet, and that entry and those behind it are as they were |
| `WriteLaws.LatestSends` | src/module/mqtt/database.c:1100-1142 | the latest-write of a list whose entries to be published stand at its end sends exactly these |
| `StoreList.WithoutStoreSums` | src/module/mqtt/database.c:238-255 | removing a message takes exactly one off the count and its payload off the bytes |
| `StoreList.RemoveUnheld` | src/module/mqtt/database.c:238-255 | a message with reference count 0 can leave the list: no client entry, retained node or temporary reference points to it |
| `StoreList.ClientKeeps` | src/module/mqtt/database.c:300-319 | a list change that is made up for by temporary references keeps every reference count equal to its holders |
| `StoreList.RetainKeeps` | src/module/mqtt/retain.c:117-120 | a retained node that takes over a temporary reference keeps them equal |
| `StoreList.UnretainKeeps` | src/module/mqtt/retain.c:110-112 | a retained node that gives its reference up keeps them equal |
| `SessionLists.PromoteKeeps` | src/module/mqtt/database.c:322-334 | giving the examined entry a state and dequeuing the first keeps order, messages and counters, even when they are different entries |
| `SessionLists.WriteQueued` | src/module/mqtt/database.c:1174-1201 | the release loop equals its specification |
| `SessionLists.ReleaseQueuedKeeps` | src/module/mqtt/database.c:1174-1201 | released entries keep their order and are to be published; the release stops only for want of quota |
| `SessionLists.ReleaseKeepsSuffix` | src/module/mqtt/database.c:1174-1201 | the release keeps pending entries a suffix |
| `SessionLists.WriteCounted` | src/module/mqtt/database.c:356-378 | the release of an acknowledgement equals its specification |
| `SessionLists.ReleaseCountedKeeps` | src/module/mqtt/database.c:356-378 | it moves, in order, exactly as many entries as its count leaves room for |
| `SessionLists.CountedKeepsSuffix` | src/module/mqtt/database.c:356-378 | it keeps pending entries a suffix |
| `SessionLists.AckedWithinMaximumIff` | src/module/mqtt/database.c:337-378 | an acknowledgement keeps the inflight list within inflight_maximum if and only if it is for the last entry or the queue fits the room left, because the release counts only the entries before the acknowledged one |
| `SessionLists.AckExceedsMaximum` | src/module/mqtt/database.c:337-378 | the other case is real: with two entries inflight, two allowed and two waiting, acknowledging the older one leaves three inflight |
| `SessionLists.AcknowledgeQueued` | src/module/mqtt/database.c:964-980 | the release of queued incoming entries equals its specification, packets included |
| `SessionLists.ReleaseInKeeps` | src/module/mqtt/database.c:964-980 | it keeps order, messages and counters |
| `SessionLists.ReleaseInExact` | src/module/mqtt/database.c:964-980 | it acknowledges exactly the entries of quality 2 that the count lets it look at, each once and in order; exactly these wait for their PUBREL, and as many entries go inflight |
| `SessionLists.WriteQueuedInto` | src/module/mqtt/database.c:1145-1171 | the loop over queued incoming entries equals its specification, packets and early stop included |
| `SessionLists.QueuedInKeeps` | src/module/mqtt/database.c:1145-1171 | it keeps order, messages and counters |
| `SessionLists.QueuedInExact` | src/module/mqtt/database.c:1145-1171 | it acknowledges the entries of quality 2 up to some point, each once and in order; they wait for their PUBREL except the last when sending failed, and it ends there only for that, for want of quota, or at the end |
| `SessionLists.FindMid` | src/module/mqtt/database.c:344-346 | the first entry with the message id |
| `SessionLists.StoreFind` | src/module/mqtt/database.c:739-761 | the first pending message with the sender's id, inflight before queued |
| `SessionLists.RestartOut` | src/module/mqtt/database.c:769-801 | the first loop of the outgoing reset: new states, counters of the inflight entries, quota left |
| `SessionLists.RestartIn` | src/module/mqtt/database.c:838-863 | the first loop of the incoming reset: only quality 2 stays, counters and quota accordingly |
| `SessionLists.RequeueAll` | src/module/mqtt/database.c:808-827 | the second loop of both resets equals its specification, with readiness judged on the counters so far |
| `SessionLists.ReflyCounts` | src/module/mqtt/database.c:808-827 | it ends with right counters and never reorders the entries |
| `SessionLists.ResetOutKeeps` | src/module/mqtt/database.c:765-830 | the outgoing reset conserves the entries in order; its recount is right and agrees with counters that were right before |
| `SessionLists.ResetAtWorkIff` | src/module/mqtt/database.c:765-830 | after the outgoing reset every inflight entry is to be published or resent if and only if no queued entry judged ready comes behind one that is not |
| `SessionLists.AckedReadyFirst` | src/module/mqtt/database.c:808-827 | in particular when everything queued has a quality above 0 |
| `SessionLists.ResetLeavesQueued` | src/module/mqtt/database.c:808-827 | the other case is real: a queued message of quality 0 behind one of quality 1 leaves the latter inflight in the queued state |
| `SessionLists.ResetInKeeps` | src/module/mqtt/database.c:834-893 | the incoming reset keeps the inflight entries of quality 2 and the queue, in order, with right counters |
| `ResumeLaws.ResetStates` | src/module/mqtt/database.c:765-830 | after the outgoing reset an inflight entry goes on with its PUBREL if and only if it has quality 2 and waited for its PUBCOMP; every other one is to be published again by its quality; a queued one stays or is to be published |
| `ResumeLaws.NoneAgain` | src/module/mqtt/database.c:786-800 | so a full write after a reset, on any network, publishes no message that has already arrived |
| `ResumeLaws.ResetInStates` | src/module/mqtt/database.c:834-893 | after the incoming reset the inflight entries of quality 2 stand exactly as they were |
| `ResumeLaws.ResetMoves` | src/module/mqtt/database.c:808-827 | with a queue above quality 0 the reset takes inflight exactly as many of it as fit the maximum beside the entries inflight, and leaves the quota for the rest |
| `ResumeLaws.ReleaseQueuedExact` | src/module/mqtt/database.c:1174-1201 | the release by quota moves exactly as many as the quota allows, the oldest first, to be published by their quality |
| `ResumeLaws.ReleaseCountedExact` | src/module/mqtt/database.c:356-378 | the release of an acknowledgement moves exactly as many as its count leaves room for |
| `ResumeLaws.NextPublished` | src/module/mqtt/database.c:337-383 | when an acknowledgement makes room, the next queued messages are published, oldest first and once each, and nothing else is sent |
| `ResumeLaws.AdoptedStates` | src/module/mqtt/handle_connect.c:132-156 | a session that is taken over goes on in the same way, under the limits of the new connection |
| `ResumeLaws.AdoptedIn` | src/module/mqtt/handle_connect.c:132-156 | its incoming entries of quality 2 stand as they were, under the new limits |
| `ResumeLaws.OnlyOnce` | src/module/mqtt/handle_connect.c:194-197 | a session is taken over once: afterwards the old connection is not active, and a second takeover moves nothing |
| `DbInvariant.EnterInv` | src/module/mqtt/database.c:690-737 | a newly stored message is unknown to every holder; the database invariant is kept |
| `DbInvariant.ReleaseInv` | src/module/mqtt/database.c:275-282 | dropping a reference keeps the invariant, and what is still held stays in the store list |
| `DbInvariant.OutInv` | src/module/mqtt/database.c:300-574 | any change of an outgoing list against temporary references keeps reference counts, counters and the inbound account |
| `DbInvariant.InInv` | src/module/mqtt/database.c:300-574 | the same for incoming lists, whose gains and losses are booked as accepted, forwarded or discarded |
| `DbInvariant.PinnedStays` | src/module/mqtt/subs.c:648-652 | a message with a temporary reference stays in the store list |
| `DbInvariant.HandOverInv` | src/module/mqtt/handle_connect.c:132-156 | moving a whole session keeps the invariant |
| `DbSteps.FindStart` | src/module/mqtt/database.c:1112-1133 | the backward search for the start of the latest-write |
| `DbSteps.RetainSafeIff` | src/module/mqtt/retain.c:110-118 | after the old retained message is dropped the new one is still stored if and only if it is another message or has a second holder |
| `DbSteps.RetainUnsafe` | src/module/mqtt/retain.c:110-118 | the unsafe case is real: a message held by its retained node alone and stored there again |
| `DbSteps.PinMakesRetainSafe` | src/module/mqtt/retain.c:110-118 | a caller's temporary reference suffices |
| `DbSteps.DeliverOnlyOut` | src/module/mqtt/subs.c:63-107 | deliveries touch nothing of a client but its outgoing lists and the dropping flag |
| `DbSteps.OneCopy` | src/module/mqtt/database.c:404-421 | without MQTT 5 and without allowed duplicates a client is given a message at most once over all deliveries of it: exactly once when it gets recorded now, not at all when it was before |
| `DbSteps.AdoptedKeeps` | src/module/mqtt/handle_connect.c:132-156 | the session taken over has the old outgoing messages in order and the old incoming ones of quality 2, with right counters |
| `DbSteps.InsertKeepsSuffix` | src/module/mqtt/database.c:385-574 | a whole insertion, with its write on any network, keeps pending entries a suffix of the inflight list |
| `DbSteps.AcknowledgeKeepsSuffix` | src/module/mqtt/database.c:337-383 | so does a whole acknowledgement: removal, release and latest-write, on any network |
| `DbSteps.BacklogBounded` | src/module/mqtt/database.c:100-138 | the messages of quality above 0 kept for a client that is away never exceed the configured number |
| `DbSteps.BacklogLengthIff` | src/module/mqtt/database.c:100-138 | the whole backlog is not: a full one takes one more if and only if some of it has quality 0, which the limit does not count, and neither the byte limit, the duplicate check nor the setting for quality 0 refuses the message, whatever its own quality |
| `DbSteps.BacklogWithoutQos0` | src/module/mqtt/database.c:100-138 | it always does while messages of quality 0 are not queued |
| `DbSteps.BacklogOverflows` | src/module/mqtt/database.c:100-138 | when they are, every full backlog with room for a counted message takes one more |
| `DbSteps.BacklogGrows` | src/module/mqtt/database.c:385-574 | an insertion for a client that is away adds one entry or none, and keeps the counters right |
| `InsertLaws.RoomIs` | src/module/mqtt/database.c:38-138 | when there is room inflight and in the queue, as conditions on limits, quota and counters |
| `InsertLaws.PlanIs` | src/module/mqtt/database.c:395-492 | where a message goes: inflight, to the queue, or nowhere, and with which state and result |
| `InsertLaws.InsertIs` | src/module/mqtt/database.c:385-536 | exactly when the lists gain an entry: the client has an id, the message is no suppressed duplicate, and there is room inflight, or above quality 0 in the queue; the entry is put last, with that message, id, capped quality, retain flag and state, and counters, quota and result follow |
| `InsertLaws.DeliveredAtOnce` | src/module/mqtt/database.c:385-574 | a connected and active client with room and nothing else to be written is sent exactly the one PUBLISH |
| `InsertLaws.NothingSent` | src/module/mqtt/database.c:1107-1110 | a client that is not both active and connected is sent nothing |
| `InsertLaws.QueueServed` | src/module/mqtt/database.c:566-571 | after an insertion that was written without failure an active client's queue is empty or its quota used up |
| `InsertLaws.AwayOrder` | src/module/mqtt/database.c:519-523 | the messages kept for a client that is away are those it had, followed by those that found room, in the order in which they came |
| `InsertLaws.AwayAll` | src/module/mqtt/database.c:519-523 | without limits on the queue that is all of them |
| `Inbound.DropMidIs` | src/module/mqtt/database.c:937-963 | a release leaves exactly the entries without the id, in order |
| `Inbound.NothingWithMid` | src/module/mqtt/database.c:926-986 | a PUBREL whose id no inflight entry has forwards nothing |
| `Inbound.ReleaseOrderly` | src/module/mqtt/database.c:926-986 | a release keeps pending ids distinct, and one that found its id leaves it nowhere in the lists |
| `Inbound.SecondPubrel` | src/module/mqtt/database.c:926-986 | after a PUBREL that found its id, a second one hands nothing on |
| `Inbound.PublishOrderly` | src/module/mqtt/handle_publish.c:287-358 | a PUBLISH keeps pending ids distinct if and only if it is not accepted under a reused id whose old message is not an inflight one of quality 2 |
| `Inbound.QuotaKeptIff` | src/module/mqtt/handle_publish.c:325-341 | a PUBLISH of quality 1 leaves the receive quota as it was if and only if there was some to take, when it is answered, and if and only if there was none, when it is not |
| `Inbound.ReuseDisorders` | src/module/mqtt/handle_publish.c:287-300 | the other case is real: a queued message whose id is reused with another payload |
| `Answers.RecognisedIs` | src/module/mqtt/handle_publish.c:287-299 | a PUBLISH is a retransmission if and only if the first pending message under its id has the same quality, topic and payload; it uses the id again if and only if that one differs |
| `Answers.CleanedIs` | src/module/mqtt/database.c:906-923 | an id that is used again is cleared: exactly the first inflight entry with it goes, if its message has quality 2 |
| `Answers.Publish2Sends` | src/module/mqtt/handle_publish.c:342-358 | the answer to a PUBLISH of quality 2: PUBREC with reason 0 for a retransmission or a message that is taken without being queued, none yet for one a connected client's queue takes, PUBREC with reason 151 and nothing else for want of room; only PUBRECs of queued entries follow |
| `Answers.RefusedQuota` | src/module/mqtt/handle_publish.c:360-376 | a refusal changes no list and credits the receive quota at MQTT 5 only |
| `Answers.Publish01Sends` | src/module/mqtt/handle_publish.c:325-341 | quality 1 is answered after its deliveries with PUBACK: reason 0, or 16 at MQTT 5 without subscribers, and not at all at MQTT 5 when it could not be handed on |
| `Answers.Published01Sends` | src/module/mqtt/handle_publish.c:287-376 | the same for the whole step, with reason 151 for want of room |
| `Answers.ReleaseRcIs` | src/module/mqtt/database.c:926-986 | a release succeeds when it finds the id and nothing is stuck, a message without subscribers being no failure; otherwise 6 for an unknown id, 2 for a wrong quality, 1 for a failed hand-over |
| `Answers.ReleasedMessage` | src/module/mqtt/database.c:937-963 | a release of a message that is pending once makes exactly its deliveries and, when it was sent to be retained, keeps it as the retained message of its topic or clears that when it is empty |
| `PendingIds.Publish2Free` | src/module/mqtt/handle_publish.c:287-358 | a PUBLISH of quality 2 makes no id pending but its own, and that only when it is accepted |
| `PendingIds.Publish2Ids` | src/module/mqtt/handle_publish.c:287-358 | over all clients: the same, and distinct pending ids stay distinct if and only if the message is not accepted under an id whose old message stays |
| `PendingIds.Published01Ids` | src/module/mqtt/handle_publish.c:287-358 | a PUBLISH of quality 0 or 1 makes no id pending and keeps pending ids distinct, with all deliveries |
| `PendingIds.ReleaseIds` | src/module/mqtt/database.c:926-986 | a PUBREL makes no id pending and keeps pending ids distinct, with all deliveries |
| `PendingIds.ReleaseOne` | src/module/mqtt/database.c:926-986 | with distinct ids a PUBREL that succeeds hands on exactly one message, with success, and frees the id |
| `PendingIds.ReleaseNone` | src/module/mqtt/database.c:926-986 | a PUBREL for a free id hands nothing on |
| `PendingIds.AdoptedIds` | src/module/mqtt/handle_connect.c:132-156 | a resumed session has no id pending that the old one had not, and distinct ids if that had |
| `PendingIds.TakeoverIds` | src/module/mqtt/handle_connect.c:132-175 | a takeover keeps pending ids distinct; the new client's ids are those of the session it resumes |
| `PendingIds.DeleteIds` | src/module/mqtt/database.c:608-633 | a deletion makes no id pending and keeps pending ids distinct |
| `ExactlyOnce.StartTally` | src/module/mqtt/handle_publish.c:287-358 | a new database can start the runs below, with distinct pending ids |
| `ExactlyOnce.OnceEach` | src/module/mqtt/database.c:926-986 | an accepted message was handed on with success once, or is pending, or was discarded: exactly one of these |
| `ExactlyOnce.SuccessesRefs` | src/module/mqtt/database.c:937-963 | the messages a release books as forwarded are those it handed on with success |
| `ExactlyOnce.TallyRelease` | src/module/mqtt/database.c:926-986 | a PUBREL keeps the log of hand-overs in agreement with the account of accepted messages |
| `ExactlyOnce.TallyPublish2` | src/module/mqtt/handle_publish.c:287-358 | a PUBLISH of quality 2 keeps that agreement |
| `ExactlyOnce.TallyPublish01` | src/module/mqtt/handle_publish.c:325-341 | a PUBLISH of quality 0 or 1 keeps it |
| `ExactlyOnce.NotDuplicate` | src/module/mqtt/handle_publish.c:287-301 | with only quality 2 pending, a PUBLISH of quality 1 is never taken for a retransmission |
| `ExactlyOnce.TallyTakeover` | src/module/mqtt/handle_connect.c:132-175 | a takeover of a session loses no pending message and keeps that agreement |
| `ExactlyOnce.HappenedTally` | src/module/mqtt/handle_publish.c:287-358 | every step, of a PUBLISH, a PUBREL, a takeover or a deletion, keeps that agreement, and gives a message up only when its id is reused or its session deleted |
| `ExactlyOnce.PublishIds` | src/module/mqtt/handle_publish.c:287-358 | a PUBLISH step keeps pending ids distinct if and only if it does not make its id pending twice, which needs reuse |
| `ExactlyOnce.PubrelIds` | src/module/mqtt/lib/handle_pubrel.c:82-91 | a PUBREL step: one message for success at distinct ids, none for a free id, no id made pending |
| `ExactlyOnce.PublishAnswered` | src/module/mqtt/handle_publish.c:73-376 | every PUBLISH step is answered so |
| `ExactlyOnce.WithoutSubscribers` | src/module/mqtt/lib/handle_pubrel.c:82-91 | a PUBREL for a message that nobody has subscribed to succeeds, frees the id and is answered with a PUBCOMP |
| `ExactlyOnce.RunOrderly` | src/module/mqtt/handle_publish.c:287-358 | from distinct ids on, the ids stay distinct along a whole run if and only if no step makes an id pending twice |
| `ExactlyOnce.ClosedIsFree` | src/module/mqtt/database.c:926-986 | after a PUBREL that succeeded, and until the session has a message accepted under the id again, the id is not pending, whatever other steps come between, reconnections included |
| `ExactlyOnce.PubrelsOnce` | src/module/mqtt/lib/handle_pubrel.c:82-91 | along such a run every PUBREL that succeeds hands on exactly one message; every repetition, also by a client that has resumed the session, hands nothing on and is answered with a PUBCOMP |
| `ExactlyOnce.RunWithoutReuse` | src/module/mqtt/database.c:926-986 | so it is for every run without reuse of pending ids |
| `ExactlyOnce.Take` | src/module/mqtt/handle_publish.c:287-358 | the database takes a step as the step relation says |
| `ExactlyOnce.Serve` | src/module/mqtt/handle_publish.c:287-358 | over any run of PUBLISH and PUBREL packets, session takeovers and deletions of any clients each accepted message is handed to its subscribers with success exactly once, unless still pending, or discarded by reuse of its id or deletion of its session; without reuse pending ids stay distinct, a PUBREL that succeeds hands on exactly one message, and a repeated one nothing; every PUBLISH is answered with the right packets and reasons |
| `MessageDb.Database.constructor` | src/module/mqtt/database.c:141-177 | an empty database satisfies the invariant |
| `MessageDb.Database.StoreMessage` | src/module/mqtt/database.c:690-737 | the message enters the list under a new id, with count and bytes |
| `MessageDb.Database.RefInc` | src/module/mqtt/database.c:270-273 | one more reference, accounted for as a temporary one |
| `MessageDb.Database.RefDec` | src/module/mqtt/database.c:275-282 | one reference less; the last one takes the message off the list; what is still held stays |
| `MessageDb.Database.StoreRemove` | src/module/mqtt/database.c:238-255 | exactly the message leaves the list, count and bytes follow |
| `MessageDb.Database.Compact` | src/module/mqtt/database.c:285-297 | exactly the messages nobody holds leave the list |
| `MessageDb.Database.RemoveOut` | src/module/mqtt/database.c:300-319 | the entry leaves the outgoing list and its reference is dropped |
| `MessageDb.Database.RemoveIn` | src/module/mqtt/database.c:300-319 | the entry leaves the incoming list, booked as forwarded or discarded |
| `MessageDb.Database.WriteSingle` | src/module/mqtt/database.c:988-1080 | exactly the specified write of one entry; otherwise only unheld messages leave the store list |
| `MessageDb.Database.WriteFrom` | src/module/mqtt/database.c:1089-1096 | the write loop equals its specification from any starting entry |
| `MessageDb.Database.WriteAllOut` | src/module/mqtt/database.c:1083-1097 | the full write equals its specification |
| `MessageDb.Database.WriteLatestOut` | src/module/mqtt/database.c:1100-1142 | the latest-write equals its specification |
| `MessageDb.Database.WriteQueuedOut` | src/module/mqtt/database.c:1174-1201 | queued entries go inflight for an active client |
| `MessageDb.Database.WriteQueuedIn` | src/module/mqtt/database.c:1145-1171 | queued incoming entries are acknowledged and go inflight for an active client |
| `MessageDb.Database.Insert` | src/module/mqtt/database.c:385-574 | the whole insertion for every plan: left out, listed, written; counters, references, duplicate record, result code |
| `MessageDb.Database.DeleteOutgoing` | src/module/mqtt/database.c:337-383 | refused with nothing changed, or the acknowledged entry goes, queued ones move up and the latest are written |
| `MessageDb.Database.UpdateOutgoing` | src/module/mqtt/database.c:576-591 | exactly the first entry with the id changes state, or the error says why not |
| `MessageDb.Database.MessagesDelete` | src/module/mqtt/database.c:594-633 | both lists are emptied, every reference dropped, and pending incoming messages count as discarded |
| `MessageDb.Database.ResetOutgoing` | src/module/mqtt/database.c:765-830 | the outgoing reset equals its specification and keeps the invariant |
| `MessageDb.Database.ResetIncoming` | src/module/mqtt/database.c:834-893 | the incoming reset equals its specification; what it drops counts as discarded |
| `MessageDb.Database.RetainStore` | src/module/mqtt/retain.c:110-124 | the retained map gets the message, or loses its entry for an empty payload; references follow; the caller must pin the message or store another one |
| `MessageDb.Database.RetainExpire` | src/module/mqtt/retain.c:138-145 | an expired retained message leaves its node and gives up its reference |
| `MessageDb.Database.Deliver` | src/module/mqtt/subs.c:470-539 | one insertion per subscriber, in order, with the message kept stored throughout |
| `MessageDb.Database.MessagesQueue` | src/module/mqtt/subs.c:636-669 | deliveries and retaining under a temporary reference; a message nobody holds afterwards is not left behind in the store list |
| `MessageDb.Database.RemoveIncoming` | src/module/mqtt/database.c:906-923 | removes the first inflight entry with the id if it has quality 2, which counts as discarded |
| `MessageDb.Database.ForwardAll` | src/module/mqtt/database.c:937-963 | the walk over the inflight list hands every entry with the id on once, in order, up to one that fails, with exactly the deliveries, packets and retained messages of these hand-overs |
| `MessageDb.Database.ReleaseIncoming` | src/module/mqtt/database.c:926-986 | the release for a PUBREL: hand-overs with everything subscribers receive, list, queue, PUBREC packets and result code |
| `MessageDb.Database.Recognise` | src/module/mqtt/handle_publish.c:287-300 | a retransmission is recognised, a reused id is cleared from the inflight list |
| `MessageDb.Database.Accept` | src/module/mqtt/handle_publish.c:302-344 | a new message is stored and becomes pending as the insertion plans it |
| `MessageDb.Database.PublishQos2` | src/module/mqtt/handle_publish.c:287-358 | a PUBLISH of quality 2: lists, receive quota, packets, result, and which message is accepted or discarded |
| `MessageDb.Database.PublishQos01` | src/module/mqtt/handle_publish.c:287-358 | a PUBLISH of quality 0 or 1: handed on once and answered, or refused for want of quota, with the receive quota taken and credited |
| `MessageDb.Database.Offer` | src/module/mqtt/handle_publish.c:302-358 | a new message of quality 2 is refused, or stored, made pending and acknowledged |
| `MessageDb.Database.HandlePublish` | src/module/mqtt/handle_publish.c:73-358 | both together for every quality of service, and the refusal of one above the client's maximum, which changes nothing |
| `MessageDb.Database.HandlePubrel` | src/module/mqtt/lib/handle_pubrel.c:82-91 | the release, then a PUBCOMP that credits the receive quota, also when nothing was found; a failed release is returned without one |
| `MessageDb.Database.Takeover` | src/module/mqtt/handle_connect.c:132-175 | the new session's inflight ++ queued equals the old one's as a sequence, nothing stays in the old session, incoming entries other than quality 2 are discarded, or nothing moves |

## Left out

- `src/base/hash_mem.c`: a copy of the hash table over another allocator; it would add the same members again.
- Hash table: hash values and counters are unbounded, usage statistics are left out, and allocation is taken to succeed.
- Hash chains, message lists and timer lists are sequences that the methods reassign, not linked nodes; aliasing of list links is not captured.
- Retained and subscription trees are values with an ordered list of children per node, not linked nodes; the order in which a hash walk meets siblings is that of insertion.
- Pool allocator: `op_realloc`, allocation failures and the integer widths of the statistics; a reclaimed chunk's memory is not modelled as returned, which the code does not do either.
- `$share` subscriptions: the round robin among shared subscribers when a message is delivered; their lists and tokenising them are modelled.
- Subscriptions: a subscriber is identified by its client id, the array of a client's own subscriptions is left out, and what delivering at a node returns is a parameter.
- Message database: bridges, websockets, properties, timestamps, persistence of entries, stored messages without a topic (denied messages of quality 2 that are only acknowledged), and `db__messages_easy_queue`.
- Reset and deletion of lists: references of dropped entries are released after the recount instead of during it.
- handle__publish before the search for a pending message: parsing, topic aliases, mount points and the access check, except the client's maximum quality; handle__pubrel before the release. The message id is taken as already checked there.
- connect__on_authorised beyond the session takeover: rewiring subscriptions, wills, the CONNACK and closing the old connection.
- The retained messages of `MessageDb` are a map from path to message; `RetainedMessages` proves that the tree is such a map.
- MessageDb.Database.Insert: an incoming insertion is for a message that was not accepted before, as the PUBLISH handler guarantees; restoring entries from disk is not modelled.
- ExactlyOnce.Serve: the clients are a fixed set of contexts; a takeover is taken only by one without messages, as a new connection is; outgoing acknowledgements and expiry, which do not touch incoming messages, are not steps of these runs.
- Timers.TimerList.Process: its ordering claims are for times any two of which differ by milliseconds that fit an int, because the code's comparison fails outside (`LaterRightIff`, `FiresEarly`).
- AccessControl.SecurityOptions.Check: for expansions that fit a size_t.
- Password checks, plugins, sockets, TLS, polling, signals, logging, configuration files, the command line and the terminal: I/O and foreign libraries.
