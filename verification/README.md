# NATS Streaming: stores, delivery and replication in Dafny

NATS Streaming is a log-based message broker. A channel is an append-only log of messages that is bounded by limits;
subscriptions, alone or in queue groups, read it under a limit of unacknowledged messages; and in a cluster a leader
replicates the log, the subscriptions and their progress to followers. This project models the parts of it where several
pieces of state have to agree, and proves that they do, over every run:

- a follower that refills its log from the leader over an exchange that loses responses (`Restore`);
- the sliced, indexed, buffered and cached file store against a plain bounded log (`MsgLog`, `MemoryStore`, `FileSlices`,
  `FileState`, `FileStore`), its message cache (`MsgCache`), the framing of its records (`Framing`), the log of
  subscriptions with its compaction (`SubLog`) and the manager of file descriptors (`FileManager`);
- the SQL rows of pending messages that are collected by reference counts (`SqlPending`, `SqlSubStore`);
- the trie of subjects with its front cache, and the limits that are inherited along its matches (`Subjects`,
  `SubjectNames`, `Sublist`, `SublistCache`, `SubjectList`, `Inheritance`, `Limits`, `StoreLimits`);
- delivery, acknowledgement and redelivery to plain subscriptions and to queue groups (`Delivery`, `PlainDelivery`,
  `QueueState`, `QueueDelivery`);
- the replication of sent and acknowledged messages by deltas (`Replication`, `SentAndAck`, `Registration`), and the
  snapshot of clients and subscriptions (`Snapshot`, `SnapshotOps`, `SnapshotServer`);
- the byte stream over messages that carries the Raft traffic (`ByteStream`).

Code that updates state step by step is modelled by classes and methods with loops, each proved against a function on
values; interleavings are modelled by a step relation over atomic sections. What the network, the clock and other
parties may do is left open: losses, timeouts, orders of map iteration and buffer sizes are nondeterministic or
parameters. `Basics` holds what several modules need.

## Model

| member | source | states |
|---|---|---|
| MsgLog.AppendValid | stores/filestore.go:2840-2877 | Appending, with a placeholder for every skipped sequence, gives a contiguous log that ends with the new sequence and leaves earlier lookups alone; a sequence that is not new changes nothing |
| MsgLog.TrimIsLeast | stores/filestore.go:2985-3012 | Limit enforcement removes the least number of oldest messages after which the limits hold, and never the last message |
| MsgLog.ExpireIsLongestPrefix | stores/filestore.go:2909-2981 | Expiry removes exactly the longest prefix of expired messages |
| MsgLog.StoreKeepsLast | stores/filestore.go:2638-2838 | Whatever the limits, a stored message is the last one and is found; what is left of the earlier messages is found as before |
| MemoryStore.MemoryMsgStore.Store | stores/memstore.go:91-130 | Stores the message and then removes sequences from the first on, holes included, exactly until the limits hold; without a gap this is what the bounded log does; a sequence that is not new changes nothing |
| MemoryStore.MemoryMsgStore.RemoveFirstMsg | stores/memstore.go:225-231 | Drops the first sequence, whether it has a message or is a hole, with exact totals where there is no hole |
| MemoryStore.MemoryMsgStore.Lookup | stores/memstore.go:133-138 | Answers from the map, which is the bounded log where there is no hole |
| MemoryStore.MemoryMsgStore.ExpireMsgs | stores/memstore.go:189-222 | Drops the longest expired prefix of the log |
| MemoryStore.MemoryMsgStore.Empty | stores/memstore.go:234-246 | Leaves the empty log |
| Restore.Leader.Serve | server/server.go:594-663 | The responses to a request are a batch: messages of the history in ascending order, jumps only to a first available message, nothing at all only from a leader that has none |
| Restore.Leader.Answer | server/server.go:595-640 | The response about one sequence is its message, or the first available one after it |
| Restore.Channel.FirstAndLastSeq | server/clustering.go:562-577 | The reported last sequence is at least every sequence that the channel reaches |
| Restore.Channel.HasLeaderSentFirstAvail | server/snapshot.go:666-687 | A positive answer means that the leader has nothing before the sequence that was got |
| Restore.Channel.Receive | server/snapshot.go:572-611 | One message: it is stored right after the store, or a confirmed jump empties the store and moves the floor; the store stays a run of the history |
| Restore.Channel.Step | server/snapshot.go:544-658 | One response of the current request, or its loss: the position, the store, the floor and the rest of the batch stay in step |
| Restore.Channel.FetchAll | server/snapshot.go:537-660 | The request loop, under any loss of responses: a return without an error leaves the store ending at the last sequence, or empty with the floor right after it |
| Restore.Channel.RestoreMsgs | server/snapshot.go:457-660 | Under any loss and any growth of the leader, an error-free return leaves a contiguous run of the history that reaches the last sequence, unless the leader answered that it has no message; without limits of its own the follower also has everything from its start, or from what the leader had first; from a leader whose log stays as it is, an error-free return reaches the last sequence if and only if that log has a message or at most one sequence was missing |
| Restore.EmptiedLeader | server/snapshot.go:612-630 | A leader that lost all its messages and a follower that misses two: without any loss and without an error the restore ends short of the last sequence |
| Restore.Channel.RestoreFromSnapshot | server/snapshot.go:378-428 | Up to ten attempts: success means that the snapshot is reached and the floor lies within it |
| Restore.Channel.ApplyPublish | server/clustering.go:594-628 | Applying a batch, after a restore of what is missing, leaves a run of the history that ends at or after the batch |
| Restore.Channel.Run | server/clustering.go:594-628 | Over every run of snapshots and published batches in log order, the store is a run of the history and reaches what the last entry covers |
| FileSlices.PositionFinds | stores/filestore.go:3031-3050 | The offset formula finds the index record, and through it the data record, of the requested message |
| FileSlices.HeldIsCount | stores/filestore.go:3090-3142 | The number of messages of the log is the sum over the slices of those written less those removed |
| FileSlices.HeldBytesIsTotal | stores/filestore.go:3090-3142 | The accounted bytes of the log are the sum over the slices of their sizes less those of the removed records |
| FileSlices.RemoveInSlice | stores/filestore.go:3090-3142 | Removing the first message inside its slice keeps the layout, for the log without that message |
| FileSlices.RemoveSlice | stores/filestore.go:3146-3210 | Removing the first slice with its last valid message keeps the layout, for the log without that message |
| FileSlices.NextSlice | stores/filestore.go:2667-2720 | A record in a new slice extends the layout by one message |
| FileSlices.LaidIsFilesOk | stores/filestore.go:3215-3233 | The layout told slice by slice is the one told of all pairs of slices at once |
| FileState.ReadFails | stores/filestore.go:3338-3392 | A message that is not buffered cannot be read from its slice if and only if its index record is in the file and its data still in the write buffer |
| FileState.IndexGetsAhead | stores/filestore.go:2196-2213 | Writing the index records alone brings every message whose data is in the buffer into that state |
| FileState.CountersAreSums | stores/filestore.go:2638-2838 | Count and bytes of the log are the sums over the slices with what is still buffered |
| FileStore.FileMsgStore.FlushData | stores/filestore.go:2171-2189 | Writing the data buffer out changes nothing that the store stands for |
| FileStore.FileMsgStore.ProcessBufferedMsgs | stores/filestore.go:2881-2903 | Writing the buffered index records, in order, changes nothing that the store stands for |
| FileStore.FileMsgStore.CloseIndex | stores/filestore.go:2196-2213 | Closing the index file keeps the log, and puts every message whose data is in the write buffer out of reach of the files |
| FileStore.FileMsgStore.Flush | stores/filestore.go:3807-3848 | Nothing is left in memory only, and the log is the same |
| FileStore.FileMsgStore.GetMsgIndex | stores/filestore.go:3020-3026 | The index record, buffered or from the file, has time stamp and size of the message in the log |
| FileStore.ReadMsgIndex | stores/filestore.go:3031-3075 | Reads the record at the computed place, or an earlier one of the same sequence |
| FileStore.FileMsgStore.RemoveFirstMsg | stores/filestore.go:3090-3142 | The store stands for the log without its first message |
| FileStore.FileMsgStore.RemoveFirstSlice | stores/filestore.go:3146-3210 | The first slice goes, and the next one that there is becomes the first |
| FileStore.FileMsgStore.EnforceLimits | stores/filestore.go:2985-3012 | The store stands for the trimmed log |
| FileStore.FileMsgStore.GetFileSliceForSeq | stores/filestore.go:3215-3233 | Finds a slice with the sequence if and only if there is one |
| FileStore.FileMsgStore.ExpireMsgs | stores/filestore.go:2909-2981 | The store stands for the log without its longest expired prefix; returns when the next message expires |
| FileStore.FileMsgStore.Roll | stores/filestore.go:2667-2720 | A new slice comes after the others, and an only one without a message goes |
| FileStore.FileMsgStore.FillGaps | stores/filestore.go:2840-2877 | The log gets one placeholder for each skipped sequence |
| FileStore.FileMsgStore.Store | stores/filestore.go:2638-2838 | The store stands for the bounded log with the message stored, whether it goes to the buffer, to the file or to a new slice |
| FileStore.FileMsgStore.Lookup | stores/filestore.go:3338-3392 | An answer is what the log has; reading fails if and only if the message is neither cached nor buffered and its index record is ahead of its data |
| FileStore.FileMsgStore.FirstMsg | stores/filestore.go:3552-3561 | The first message of the log |
| FileStore.FileMsgStore.LastMsg | stores/filestore.go:3564-3573 | The last message of the log |
| FileStore.FileMsgStore.Empty | stores/filestore.go:3863-3902 | The store stands for the empty log |
| FileStore.FileMsgStore.Partition | stores/filestore.go:3215-3233 | Every message of the log is in exactly one slice, nothing else is in any, and the slices are numbered without a hole |
| FileStore.FileMsgStore.Totals | stores/filestore.go:2638-2838 | The counters of the store are the sums over its slices |
| FileStore.Run | stores/memstore.go:91-138 | Over every run of the store, the answers are those of the bounded log under the same operations, every lookup answers if the index file is never closed by itself, the slices partition the log and the counters are the sums over them |
| FileStore.LookupAhead | stores/filestore.go:2196-2213 | From every state: storing into the buffer, closing the index file, losing the cache entry and looking the message up fails |
| SqlPending.AddedValid | stores/sqlstore.go:1977-1981 | Adding a new sequence keeps all places and counts exact |
| SqlPending.AckedValid | stores/sqlstore.go:1987-2042 | Acknowledging keeps all places and counts exact, through the release of the rows of a completed one |
| SqlPending.FlushedValid | stores/sqlstore.go:2190-2269 | Flushing into a new row keeps all places and counts exact |
| SqlPending.Recover | stores/sqlstore.go:2112-2180 | Recovery computes the pending set row by row, and the highest position |
| SqlPending.UnackedRowKept | stores/sqlstore.go:1987-2042 | The row of an unacknowledged message is in the database, and no row acknowledges it |
| SqlPending.RecoveryIsComplete | stores/sqlstore.go:2112-2180 | After a flush recovery returns every unacknowledged message, whatever the order of rows |
| SqlPending.AllAckedLeavesNothing | stores/sqlstore.go:2012-2036 | Once all messages are acknowledged, no row is left |
| SqlPending.RecoveryIs | stores/sqlstore.go:2112-2180 | With ascending rows a message is recovered if and only if its row is left and the row of its acknowledgement is not |
| SqlPending.ExcessIsFromCompleteRow | stores/sqlstore.go:2012-2036 | What is recovered in excess is from rows without an unacknowledged message, left for their acknowledgements |
| SqlPending.RecoveryExcess | stores/sqlstore.go:2012-2036 | Recovery returns exactly the unacknowledged messages if and only if every row left has an unacknowledged message or never had a message |
| SqlPending.EveryRun | stores/sqlstore.go:1952-2042 | The four guarantees above for every run from an empty cache |
| SqlPending.AckedMayComeBack | stores/sqlstore.go:2012-2036 | A run after which an acknowledged message is recovered |
| SqlPending.AddedAgainIff | stores/sqlstore.go:2190-2269 | A message that was acknowledged, sent again and flushed is recovered if and only if its acknowledgement was not waiting in memory |
| SqlPending.AddedAgainIsLost | stores/sqlstore.go:2190-2269 | A run in which it was, and the pending message is not recovered |
| SqlSubStore.SqlSubAcksPending.AddSeq | stores/sqlstore.go:1952-1981 | The object is in the state of the run with this addition; tells when a flush is due |
| SqlSubStore.SqlSubAcksPending.AckSeq | stores/sqlstore.go:1987-2042 | The object is in the state of the run with this acknowledgement; the loop over the messages of a completed row does what the release at once does |
| SqlSubStore.SqlSubAcksPending.ReleaseAcks | stores/sqlstore.go:2012-2036 | Going over the messages of a completed row releases all their acknowledgements and deletes the rows left unused |
| SqlSubStore.SqlSubAcksPending.Flush | stores/sqlstore.go:2190-2269 | The object is in the state of the run with this flush |
| Subjects.Tokenize | util/sublist.go:85-91 | The scanning loop cuts a subject at its separators |
| Subjects.PatternsAreMatches | util/sublist.go:203-228 | The search goes through exactly the patterns that match token by token |
| Subjects.WidestFirst | util/sublist.go:203-228 | No pattern of the search is followed by a wider one |
| Subjects.CoversIsWider | util/sublist.go:203-228 | Being wider token by token is having all subjects of the other |
| Subjects.MatchLiteral | util/sublist.go:390-420 | The loop over two indices decides the token match, on valid names |
| Subjects.ScanIsMatch | util/sublist.go:390-420 | The character scan and the token match agree |
| SubjectNames.IsChannelNameValid | util/util.go:162-191 | Exactly the names without a slash that are valid patterns pass, and without wildcards where these are not allowed |
| SubjectNames.NameRoundTrip | util/sublist.go:491-526 | Reading a valid name as a pattern and writing it out gives it back |
| SubjectNames.TextRoundTrip | util/sublist.go:491-526 | Writing a pattern out and reading it gives it back |
| Sublist.InsertedAt | util/sublist.go:81-135 | Inserting adds the element at the end of its pattern and changes no other |
| Sublist.RemovedAt | util/sublist.go:238-310 | Removing succeeds if and only if the element is there, takes one occurrence and changes no other pattern, in spite of the pruning |
| Sublist.MatchLevel | util/sublist.go:203-228 | The recursive descent appends the search result |
| Sublist.SearchIsGather | util/sublist.go:203-228 | A search returns the elements of exactly the matching patterns, from the widest to the narrowest |
| Sublist.InsertedFound | util/sublist.go:81-135 | After an insertion a search finds the element once more if and only if the pattern matches |
| Sublist.RemovedFound | util/sublist.go:238-310 | After a removal a search finds the element once less if the pattern matches, and the same otherwise |
| SublistCache.SublistObject.Insert | util/sublist.go:81-135 | Inserts, or refuses the subject and leaves every list alone; keeps the cache in agreement |
| SublistCache.SublistObject.AddToCache | util/sublist.go:139-148 | Appends the element to exactly the cached results that the scan matches |
| SublistCache.SublistObject.RemoveFromCache | util/sublist.go:152-161 | Drops exactly the cached results that the scan matches |
| SublistCache.SublistObject.Match | util/sublist.go:165-200 | A cached result, or a search whose result is cached; as multisets both are what a search gives now; the cache stays within its bound |
| SublistCache.SublistObject.Remove | util/sublist.go:238-296 | Removes one occurrence, or tells an invalid subject from an element that is not there, and keeps the cache in agreement |
| SublistCache.Run | util/sublist.go:81-296 | After every run of insertions, removals and matches on valid names, a search returns as a multiset what was inserted and not removed under the patterns that match, and so does every cached result |
| SublistCache.HeldIs | util/sublist.go:81-310 | After every run, the trie holds under each pattern what was inserted and not removed |
| SublistCache.MatchingIs | util/sublist.go:203-228 | After every run, a search finds what was inserted and not removed under the patterns that match |
| SubjectList.GetSubjects | util/sublist.go:491-526 | Lists exactly the patterns of the trie, none before one that is met earlier |
| SubjectList.OrderedIsWidestFirst | util/sublist.go:483-526 | In such a listing no pattern is followed by a wider one |
| Inheritance.SameChain | stores/limits.go:109-133 | Of two configured patterns in one search result, the later one has that very result as its own |
| Inheritance.LiteralWins | stores/limits.go:109-133 | A literal entry is the last match of its own name, whatever else is configured |
| Inheritance.LiteralAlone | stores/limits.go:117-120 | A result that begins with a literal has nothing else |
| Limits.InheritAlong | stores/limits.go:117-131 | Going along one search result completes every pattern from the one just before it |
| Limits.ApplyInheritance | stores/limits.go:109-133 | Every configured pattern ends with the limits resolved along the chain of its own matches, whatever the order in which the names are listed |
| StoreLimits.IsChannelNameLiteral | util/util.go:196-203 | True for exactly the names without a wildcard |
| StoreLimits.StoreLimits.Build | stores/limits.go:73-107 | Fails for exactly a negative limit, an invalid name or too many literal names, and changes nothing then; else every name has its own value if positive, zero if negative, and the resolved value of the pattern just before it, or the global one, otherwise |
| StoreLimits.EffectiveIsNarrowest | stores/common.go:138-149 | The pattern whose limits apply to a channel is not wider than any other one that matches |
| StoreLimits.ConfiguredChannel | stores/common.go:138-149 | A channel configured by its own literal name has the limits given there |
| StoreLimits.GenericStore.GetChannelLimits | stores/common.go:138-149 | The limits of the last match, cached or not, else the global ones |
| StoreLimits.GenericStore.constructor | stores/common.go:116-134 | The trie holds every configured name with its limits |
| Delivery.SendMsgToSub | server/server.go:4190-4285 | When a message is sent, when the subscription stalls and when more may follow, what becomes pending and of the position; MaxInFlight is kept without force |
| Delivery.GetNextMsg | server/server.go:5643-5690 | Finds the first stored message after the position, passes over nothing that is stored, and ends on a fixed store |
| PlainDelivery.PlainSub.SendAvailableMessages | server/server.go:5629-5641 | Ends with a stalled subscription or with everything stored sent, keeps order and account |
| PlainDelivery.PlainSub.ProcessAck | server/server.go:5484-5597 | The message is no longer pending, and an unstalled subscription gets more |
| PlainDelivery.PlainSub.RedeliverOne | server/server.go:3866-3881 | A pending message is sent again if and only if it is stored and the subscription accepts it; one that is no longer stored is dropped |
| PlainDelivery.PlainSub.PerformAckExpirationRedelivery | server/server.go:3719-3860 | Redelivery in any order keeps first deliveries, account and MaxInFlight |
| PlainDelivery.PlainSub.RedeliverAll | server/server.go:3664-3716 | Redelivery of all pending messages keeps first deliveries, account and MaxInFlight |
| PlainDelivery.PlainSub.Resume | server/server.go:5072-5117 | A durable that is taken over keeps its position and its pending messages, and new messages wait |
| PlainDelivery.PlainSub.Start | server/server.go:5436-5459 | After the redelivery of a durable what is stored is sent, until the subscription stalls |
| PlainDelivery.Run | server/server.go:5629-5690 | Over every run first deliveries strictly increase, no stored message is skipped, what was sent and is stored is acknowledged or pending, and pending messages stay within MaxInFlight unless it is lowered |
| QueueState.SomeNotStalled | server/server.go:5600-5626 | The count of stalled members is below the number of members if and only if some member is not stalled |
| QueueState.ConservedNext | server/server.go:4190-4285 | Delivering the next message keeps the account of the group |
| QueueState.ConservedAcked | server/server.go:5484-5597 | An acknowledgement takes the message from the one member that has it, and it is pending nowhere |
| QueueState.ConservedWithout | server/server.go:3834-3840 | An implicit acknowledgement keeps the account, since the message is pending elsewhere or gone |
| QueueState.Transferred | server/server.go:1214-1252 | Handing on one message of a member that left keeps the account and the single owner |
| QueueState.ConservedJoined | server/server.go:5044-5056 | The pending messages of the shadow are those of the member that it becomes |
| QueueDelivery.QueueGroup.FindBestQueueSub | server/server.go:3524-3556 | Picks a candidate with the fewest pending messages, or the first member if no one can take a message, and keeps the list of members |
| QueueDelivery.QueueGroup.SendMsgToQueueGroup | server/server.go:3560-3578 | Sends to the picked member and keeps the count of stalled members and the position of the group |
| QueueDelivery.QueueGroup.SendAvailableMessagesToQueue | server/server.go:5600-5626 | Ends when the group is on hold, all members are stalled, everything is sent or a member cannot take more |
| QueueDelivery.QueueGroup.ProcessAck | server/server.go:5484-5597 | The message is acknowledged on whichever member has it, and the group goes on |
| QueueDelivery.QueueGroup.RedeliverOne | server/server.go:3785-3849 | A stored pending message is afterwards pending on the member that it went to, or still on the first one if it went nowhere; on startup it goes to the same member if and only if that accepts it; the account is kept |
| QueueDelivery.QueueGroup.Resend | server/server.go:3841-3849 | The member gets its message again if and only if it accepts redeliveries |
| QueueDelivery.QueueGroup.Reassign | server/server.go:3821-3840 | The message goes to the best member and is pending there, the first one is relieved of it only then, and keeps it if the best one refuses |
| QueueDelivery.QueueGroup.Transfer | server/server.go:1206-1252 | All pending messages of the member that left are pending on others |
| QueueDelivery.QueueGroup.Remove | server/server.go:1162-1280 | A member leaves: the others take over, or the last one of a durable group stays as shadow, or the group goes |
| QueueDelivery.QueueGroup.Join | server/server.go:5044-5117 | A new member, or the shadow come back with its pending messages, which hold new ones back |
| QueueDelivery.Run | server/server.go:1162-1263 | Over every run, a message delivered to the group and still stored is pending on a member or the shadow if and only if no client acknowledged it; first deliveries strictly increase and skip nothing; the stalled count is exact |
| Replication.CollectCovers | server/server.go:3913-3959 | Whatever is sent or acknowledged, the window and the follower together cover what the leader has pending |
| Replication.FlushExact | server/server.go:4148-4183 | For a plain subscription the applied window gives exactly the pending set of the leader |
| Replication.FateIs | server/server.go:3913-3959 | What a window holds of a message is decided by the last event about it |
| Replication.StaleIff | server/server.go:3928-3946 | For any follower: a queue member keeps a message that the leader has not pending if and only if it had it, and either nothing happened to it and the leader had it not pending already, or it was sent again and acknowledged within the window and is not the highest one sent |
| Replication.StaleRun | server/server.go:3928-3946 | Over every run of windows, a follower has a message in excess of the leader if and only if an acknowledgement of it was lost in the last window that concerns it |
| Replication.SameIff | server/server.go:4148-4183 | Over every run of windows, a queue member of a follower has exactly what the leader has pending if and only if no acknowledgement is lost |
| Replication.LostStays | server/server.go:3928-3946 | A lost acknowledgement stays lost until a window concerns the message again |
| Replication.ResentAckIsLost | server/server.go:3928-3946 | A window that loses an acknowledgement |
| Replication.ResentAckIsLostFromStart | server/server.go:3928-3946 | A run of two windows after which the follower has a message more than the leader |
| SentAndAck.LeaderSub.CollectSentOrAck | server/server.go:3913-3959 | The window after one more event |
| SentAndAck.LeaderSub.CreateSubSentAndAckProto | server/server.go:3995-4022 | The two lists carry the window, which starts anew |
| SentAndAck.FillSentOrAckSeqs | server/server.go:4027-4037 | The list has the sequences of the map, and the highest acknowledged one if there is one |
| SentAndAck.FollowerSub.ProcessReplicatedSendAndAck | server/server.go:4148-4183 | Pending set, positions and stall flag of the follower after the lists |
| SentAndAck.Flush | server/server.go:3995-4183 | After a flush the follower has all that the leader has pending, exactly that for a plain subscription, and its position is at least every sequence ever sent |
| SentAndAck.Run | server/server.go:3913-4183 | The same over every run that ends with a flush |
| Registration.FirstRegisters | server/server.go:3947-3957 | The first event of a window brings the count to one, so that it is registered |
| Registration.NeverForgotten | server/server.go:3947-3991 | Over every interleaving, also with tokens of other subscriptions in the shared channel, what is left to replicate is registered, about to be, or in the hands of the replicator, and a registered one is not slept over |
| Registration.FromTheStart | server/server.go:4100-4142 | The same from the start |
| Registration.AtRest | server/server.go:4100-4142 | With both sides at rest, the window is empty or waits for the next tick |
| Snapshot.QueuesOfGroups | server/snapshot.go:220-240 | Restored in any order, the groups have their members, shadow and position |
| Snapshot.RestoredSubs | server/server.go:2591-2675 | Online, closed and queue subscriptions come back with state and pending sets |
| Snapshot.DurablesFrom | server/server.go:1053-1059 | A restored key belongs to the last entry that has it |
| Snapshot.OwnKeysSame | server/server.go:2591-2602 | Durables under their own keys are found under the same keys after a restore |
| Snapshot.SameKeysOwn | server/server.go:2591-2602 | If the keys are the same after a restore, the durables were under their own keys |
| Snapshot.RoundTrip | server/snapshot.go:146-248 | For every well-formed server: a restore into an empty one gives the same clients, subscriptions, durables, groups and next ID if and only if every durable is kept under its own key |
| SnapshotOps.SubscribedGood | server/server.go:5013-5186 | A subscription request keeps the server well formed, also when it finds the durable of another client |
| SnapshotOps.ResumedFit | server/server.go:5057-5117 | Taking over a durable keeps all durables under their own keys if and only if it is the one that was asked for |
| SnapshotOps.ClosedPlainGood | server/server.go:1098-1326 | Closing or unsubscribing a plain subscription keeps the server well formed |
| SnapshotOps.LeftGroupGood | server/server.go:1162-1280 | Leaving a group, on the leader with the pending messages handed on or on a follower without, keeps the server well formed |
| SnapshotOps.DeliveredGood | server/server.go:4148-4183 | Deliveries and acknowledgements keep the server well formed |
| SnapshotOps.ClientClosed | server/server.go:3323-3350 | Closing all subscriptions of a client and unregistering it leaves no subscription of an unknown client |
| SnapshotOps.ReachableRoundTrip | server/snapshot.go:146-248 | For every run from the start: the restored snapshot is the same if and only if every durable is kept under its own key |
| SnapshotOps.KeysStayOwn | server/server.go:5057-5071 | This is so in every run in which each request for a durable finds the one that it names |
| SnapshotOps.CollidingRun | server/server.go:4908-4913 | A run of five operations after which no restore gives the same state |
| SnapshotServer.StanServer.SnapshotSubs | server/snapshot.go:175-240 | The loops save online, closed and queue subscriptions, each once |
| SnapshotServer.StanServer.Register | server/client.go:76-101 | Registers a client that is not there, and changes nothing otherwise |
| SnapshotServer.StanServer.UpdateState | server/server.go:993-1061 | Where a subscription is added |
| SnapshotServer.StanServer.RecoverOneSub | server/server.go:2591-2675 | What restoring one subscription changes, by its kind |
| SnapshotServer.StanServer.Restore | server/snapshot.go:339-443 | The server that the loops build is the one that the list of entries stands for |
| SnapshotServer.SaveAndRestore | server/snapshot.go:146-248 | Saving and restoring with the actual loops: the same state if and only if every durable is kept under its own key |
| SubLog.RecoverSubscriptions | stores/filestore.go:4031-4150 | Recovery replays the records |
| SubLog.RewrittenSame | stores/filestore.go:4295-4357 | A rewritten subscription is the same if and only if no message is pending beyond its position |
| SubLog.FileSubStore.CreateSub | stores/filestore.go:4154-4172 | A new ID, or a refusal that changes nothing; file and memory stay in agreement |
| SubLog.FileSubStore.UpdateSub | stores/filestore.go:4175-4193 | The state is replaced, the pending messages stay; file and memory stay in agreement |
| SubLog.FileSubStore.DeleteSub | stores/filestore.go:4196-4216 | The subscription goes; file and memory stay in agreement, after a compaction but for positions below a pending message |
| SubLog.FileSubStore.AddSeqPending | stores/filestore.go:4248-4265 | The message is pending and the position not below it; file and memory stay in agreement |
| SubLog.FileSubStore.AckSeqPending | stores/filestore.go:4269-4288 | The message is no longer pending; file and memory stay in agreement, after a compaction but for positions below a pending message |
| SubLog.FileSubStore.Compact | stores/filestore.go:4295-4357 | Replaying the rewritten file gives the same subscriptions and pending messages with no lower position, and what is in memory if and only if no message is pending beyond the position of its subscription |
| SubLog.CompactionRaises | stores/filestore.go:4295-4357 | An update after which compaction brings an old position back |
| SubLog.Run | stores/filestore.go:4031-4357 | Over every run with compaction at any point, recovery gives the subscriptions and pending messages that were in memory, with no lower position; and exactly what was in memory if no update moves a position below a pending message |
| SubLog.AppliedAtLeast | stores/filestore.go:4031-4150 | Replaying any record keeps two states the same but for higher positions |
| FileManager.StepKeeps | stores/filestore.go:945-1164 | Every compare-and-swap and every locked section keeps what the state words say about the handles |
| FileManager.EveryInterleaving | stores/filestore.go:945-1164 | Over every interleaving no panic is reached, the count of descriptors is that of the managed open files, and a file locked by its owner is open and not being closed |
| Framing.RecordRoundTrip | stores/filestore.go:749-837 | Every record that fits its header is read back, whatever follows it, except for one without type and payload whose checksum is zero, which reads as a request to rewind |
| Framing.CutRecord | stores/filestore.go:800-837 | A record that is cut off is not read, and which error it gives |
| Framing.Recover | stores/filestore.go:800-837 | The recovery loop reads as the recursive definition does |
| Framing.PrefixRead | stores/filestore.go:749-837 | Any prefix of a file gives exactly the records that are complete in it, in order, and stops where they end |
| Framing.ZeroTail | stores/filestore.go:815-820 | A file followed by at least eight zeros stops with a rewind where its records end |
| ByteStream.Chunks | server/raft_transport.go:209-231 | What is written is cut into messages of a bounded size, none empty |
| ByteStream.Link.OnMsg | server/raft_transport.go:100-122 | The message is queued, and the first one to be queued brings the token |
| ByteStream.Link.Wake | server/raft_transport.go:145-169 | A token leads to a buffer or back to waiting; a closed channel ends the read only with nothing queued |
| ByteStream.Link.Copy | server/raft_transport.go:171-182 | A read gives the next bytes, or comes to the end of the stream at an empty buffer, when all that was written has been read |
| ByteStream.Link.Release | server/raft_transport.go:183-207 | What was copied is dropped from the queue, and no more |
| ByteStream.Run | server/raft_transport.go:100-231 | Over every run the bytes read are a prefix of those written, all once nothing is under way or once a read came to the end of the stream, and a reader that waits while a buffer is queued has its token |
| MsgCache.MsgsCache.Get | stores/filestore.go:3703-3731 | Finds the entry of the map and makes it the last; list and map keep the same entries; the order of expirations is kept if and only if the entry was not last behind one that lies ahead of the time |
| MsgCache.MsgsCache.Add | stores/filestore.go:3666-3699 | One entry more, at the end of the list, or the one that is there is used; with a clock that does not go back and time stamps not ahead of it the order of expirations is always kept |
| MsgCache.MsgsCache.Evict | stores/filestore.go:3735-3756 | Removes everything if the last entry has expired, else the longest expired beginning: in order, exactly the expired entries; a cache that is not empty keeps its evict flag |
| MsgCache.FutureMessages | stores/filestore.go:3703-3731 | Two messages with time stamps ahead of the clock, after which a use of the second breaks the order |
| MsgCache.MsgsCache.Empty | stores/filestore.go:3759-3763 | Nothing is left in list and map |
| MsgCache.Survivors | stores/filestore.go:3735-3756 | Behind the first entry that has not expired, none has |

## Findings

Properties that one might expect and that the code does not have. Each has an input that shows it, and a condition
under which the property holds that is exact.

| property | where it fails | shown by | holds if and only if |
|---|---|---|---|
| A follower's queue member has exactly what the leader has pending after a flush | server/server.go:3928-3946: a message sent again and acknowledged within one window loses its acknowledgement | `Replication.ResentAckIsLostFromStart` | `Replication.SameIff`: no message was, in the last window that concerns it, sent again and then acknowledged without being the highest one sent, after it was pending or lost before |
| SQL recovery returns only unacknowledged messages | stores/sqlstore.go:2012-2036: a complete row that is left for its acknowledgements has dropped those of its own messages | `SqlPending.AckedMayComeBack` | `SqlPending.RecoveryExcess`: every row left has an unacknowledged message or never had a message |
| A sequence added again is recovered | stores/sqlstore.go:2190-2269: the new row carries the message and its old acknowledgement | `SqlPending.AddedAgainIsLost` | `SqlPending.AddedAgainIff`: its acknowledgement is not waiting in memory |
| A lookup answers for every stored message | stores/filestore.go:2196-2213: closing the index file writes index records whose data is still buffered, and forgets the messages | `FileStore.LookupAhead` | `FileStore.FileMsgStore.Lookup`: the message is cached, or buffered, or its index record is not ahead of its data |
| A restored snapshot is the state that was saved | server/server.go:4912: durable keys of different clients can be spelled the same | `SnapshotOps.CollidingRun` | `SnapshotOps.ReachableRoundTrip`: every durable is kept under the key of its own client and name; of online durables with one key the last counts |
| Compaction keeps every subscription | stores/filestore.go:4295-4357: replaying a pending message raises the position to it | `SubLog.CompactionRaises` | `SubLog.FileSubStore.Compact`: no message is pending beyond the position of its subscription |
| An error-free restore reaches the last sequence | server/snapshot.go:623-629: a leader without any message ends the restore right after the next sequence | `Restore.EmptiedLeader` | `Restore.Channel.RestoreMsgs`, for a leader whose log stays as it is: the log has a message, or at most one sequence is missing |
| A prefix of a file that ends inside a record is reported as cut | stores/filestore.go:800-837: a cut right after a header reads as the end of the file | `Framing.CutRecord` | `Framing.PrefixRead`: it does not end right after a record or a header |
| Expirations in the message cache go up along its list | stores/filestore.go:3703-3731: using the last entry sets its expiration without regard to the one in front of it | `MsgCache.FutureMessages` | `MsgCache.MsgsCache.Get`: the entry is not the last one, or the one in front of it does not expire later than an entry used now |

## Left out

- hashicorp/raft, bolt, NATS connections, SQL drivers and buffered I/O: a committed log, maps, an in-order channel and append-only files stand for them.
- I/O and SQL failures, crashes in the middle of a write, and recovery of the message files from disk.
- Integer widths: sequences, sizes and times are unbounded.
- Timers and clocks: redelivery, expiry and ticks may come at any time; expiration times of pending messages and their order are not kept.
- Configuration, monitoring, logging, process control, and the encoding of protocol messages.
- stores/cryptostore.go, the checksum polynomial (any function stands for it), server/ft.go and the lock of the SQL store.
- GetSequenceFromTimestamp and the start position of a subscription, which is a parameter.
- Restore from a leader older than 0.14.2, with its binary search.
- Redelivery counts, and errors of the store or of the connection during a delivery.
- Read-ahead of the file store, sync, growing and shrinking of buffers, archive scripts; the slices are values in a map and the write slice is the last one.
- The loop of the file store that looks further back for an index record is modelled, and not reached while gaps are filled.
- Closing the file manager, and truncating a file through it.
- maxSubID after a compaction of the subscription log, which forgets it, and the counters that decide when to compact: compaction may come at any point.
- One channel stands for all in the snapshot; the flags of a subscription that a restore recomputes (stalled, on hold) and inbox maps are not kept; a queue member comes back with the position of its group.
- A subscription request of a client that was unregistered meanwhile has no effect in the snapshot model; the source also replaces the options of the durable that it finds before it fails.
- Restoring over a server that is not empty.
