# Verified models of the Vanadium reference services

This project models the parts of the Vanadium Go repository that carry the most state, and proves what they
promise. `dafny verify dfyconfig.toml` checks all of it. Dafny 4.11.

| Part of the repository | Files |
|---|---|
| Raft: elections, replication, commitment, as a state machine over a whole cluster | `RaftLog`, `RaftQuorum`, `RaftServer`, `RaftCluster`, `RaftInvariant`, `RaftHistory`, `RaftSteps`, `RaftIndices`, `RaftSafety`, `RaftLimits`, `RaftLosses`, `RaftEffects`, `RaftOrigins` |
| Raft: one member and its storage, as objects updated in place | `RaftPersist`, `RaftMember`, `RaftObjects`, `RaftRepair` |
| Raft: the sync loop and its tickets | `RaftSync` |
| `reflectutil.DeepEqual` on cyclic values with sharing; the order on values | `DeepEqual`, `DeepEqualLaws`, `DeepEqualReturns`, `DeepEqualObject`, `Compare` |
| The mounttable publisher | `Publisher`, `PublisherObject` |
| The discovery scan loop and the discovery encodings | `Scan`, `ScanObject`, `Encoding`, `EncodingBuffer` |
| The hex stream splitter of `vom dump` | `HexStream` |

## How the models are built

**Raft.** `RaftServer` has one pure function for each critical section of a member; `RaftCluster` runs any number of
members over a set of messages that are never removed, so that a message may be delayed, repeated or lost. A crash
may come between any two steps and between any two durable writes of one: a new term without the vote that was to
follow it, or a batch of which only some entries were dealt with. The member restarts from its term, vote and log.
`RaftMember` and `RaftPersist` are the same member as objects with fields and loops, over a map of log entries and a
file of records; every method is tied to the function it implements, and `RaftObjects` ties counting a list of
replies, sending and receiving to the steps of the cluster. `RaftEffects` says what each step does in terms of the
cluster before and after it, and not of the functions that compute it; `RaftOrigins` follows commit indices, terms
and leaders' names back through a run to where they came from.

Elections, votes, log matching, append-only leaders and apply order are proved for `CodeRun`: every run under the
code's own guards, of an odd number of members. What a leader believes of the others, and with it commitment, is
proved for `Run`, the runs in which a success that moves a match index is handled in the leadership that sent the
request. The code looks only at the role when an answer arrives. Both restrictions are exact: elections are safe for
exactly the odd sizes (`RaftLimits`), and over all runs of the code completeness holds for no odd size but one
(`RaftLosses.CompleteIffAlone`). Leader completeness is stated for entries of the leader's own term, because the
commit rule counts replicas without looking at the entry's term; for entries of any term it holds, even with timely
answers, for no odd size but one (`RaftLosses.AnyTermCompleteIffAlone`).

**DeepEqual.** Values are trees with addresses into a finite heap, which holds the targets of pointers and the elements
of slices, so they may be cyclic and may share. The algorithm carries the two lists of pointers seen so far. Its
specification does not mention them: two values are isomorphic when some one-to-one pairing of addresses makes them,
and all paired objects, look alike. The code does not look for sharing through slices, so a slice that contains itself
makes it recurse without end; `DeepEqualReturns` shows that it returns exactly on the heaps where every cycle passes
through a pointer.

**Comparing.** Values are trees; a value of an unordered kind (interface, map, channel, function) has an identity that
comparing does not see. Types are numbered and may be recursive.

**Publisher.** API calls and the phases of `publish` interleave in any order; the lock is dropped between phases, and
every RPC may succeed or fail. `mounted` is what the successful RPCs have left in the mount table. The unset
`LastState` of a new entry is taken to be the unmounted one.

**Scan.** Each event carries what the session table, decryption and the matcher say about it, so they are arbitrary.
A cancelled context is a bound on how many updates can still be sent.

**Hex stream.** The specification is an automaton that takes one character at a time. The splitter works on a
1024-byte buffer and shifts a slice in place; reads may be of any size.

**Encoding.** Integers are 64 bits wide with wrap-around to and from unsigned. `flate` appears as a pair of functions,
the second inverting the first.

Where documentation and code differ, the model follows the code:

* Raft recovery rebuilds log entries without their type, so a restarted member hands raft's own entries to the client
  as commands (`RaftMember.RestartDeliversSameIff`).
* The scan loop's comment says a loss is sent only when all plugins that found the advertisement have lost it. That
  holds from one found update to the next, but an advertisement whose directory addresses change forgets the other
  plugins (`Scanning.LostIffUnseen`, `Scanning.MovedLosesSources`).
* `CompareValues` is said to give 0 if the values are equal; it also gives 0 on any two values of an unordered kind
  (`Comparing.UnorderedCompareEqual`, with the exact condition in `Comparing.ZeroMeansEqualIff`).
* A name added again with other attributes keeps its old ones in the mount table until the next refresh
  (`Publishing.ChangedAttributesWait`).
* The publisher's comments say the last mount time is put after the last unmount time; it can be equal to it
  (`Publishing.MountResult`).
* A name removed and added again while its unmount is under way stays unmounted until the next refresh
  (`Publishing.ReaddedStaysUnmounted`, with the exact condition in `Publishing.ConvergesIff`).
* `CompareValues` is no order on floats with NaN among them (`Comparing.FloatsOrderedIff`).

## Model

| member | source | states |
|---|---|---|
| RaftSafety.ElectionSafety | lib/raft/raft.go:368-445 | in every run of the code with an odd number of members, crashes between any two writes included, two leaders of the same term, at any two moments, are the same member |
| RaftSafety.OneVotePerTerm | lib/raft/service.go:85-121 | whatever granted votes of a member for a term are under way, they are for one candidate, even after a lost election raised the term and left an older vote |
| RaftSafety.CandidateKeepsVote | lib/raft/raft.go:368-395 | a member that stood in a term grants its vote in that term to nobody else |
| RaftSafety.StillCandidate | lib/raft/raft.go:428-445 | a member that is still candidate when it counts its votes is still in the term it asked for, which the code does not look at |
| RaftSafety.LogMatching | lib/raft/fspersistence.go:157-187 | two logs, of any members at any moments of a run of the code, that have an entry with the same index and term are identical up to it |
| RaftSafety.LeaderAppendOnly | lib/raft/service.go:163-191 | while a member leads a term its log is only ever extended |
| RaftSafety.LeaderCompleteness | lib/raft/raft.go:540-546 | once a leader commits an index whose entry is of its own term, every leader of a later term has the same log up to that index |
| RaftSafety.CompletenessInHistory | lib/raft/service.go:109-120 | whatever a quorum acknowledged in a term is in the log that every later leader is elected with, by the voting restriction |
| RaftSafety.CommitsAgree | lib/raft/raft.go:528-550 | two commits of entries of their leaders' own terms agree on everything up to the shorter |
| RaftSafety.CommitWithinLog | lib/raft/raft.go:528-550 | a leader commits only within its log, and only what a quorum of match indices reaches |
| RaftSafety.MatchIndexAcknowledged | lib/raft/raft.go:663-669 | a leader's match index for a member is a length of its own log that the member did hold, in that term, at some earlier moment |
| RaftSafety.ApplyStep | lib/raft/raft.go:448-472 | short of a restart, a step never lowers the commit index and moves the applied index by what one apply step takes: the next entry, if it is committed and present |
| RaftSafety.ApplyBounds | lib/raft/raft.go:551-567 | in every run of the code the applied index never passes the commit index |
| RaftSafety.ApplyOrder | lib/raft/raft.go:448-472 | between restarts the commit index and the applied index only grow, and the entries consumed are those above the old applied index up to the new one, each once and in order |
| RaftSteps.StepKeeps | lib/raft/raft.go:506-571 | every step of the code keeps the cluster invariant behind the theorems, and what is on record only grows |
| RaftIndices.StepIndices | lib/raft/raft.go:636-674 | a step whose answer is timely keeps a leader from believing more of a member than it acknowledged, and its next indices within reach |
| RaftCluster.OnlyActor | lib/raft/raft.go:56-120 | a step changes one member at most |
| RaftLimits.EvenClusterElectsTwo | lib/raft/raft.go:430 | for every even size there is a run with two leaders of one term |
| RaftLimits.ElectionSafeIffOdd | lib/raft/raft.go:204-218 | elections are safe for exactly the odd sizes |
| RaftLosses.StaleReplyLosesCommit | lib/raft/raft.go:636-640 | for every odd size from three on, a run of the code in which answers are handled in a later leadership and an entry committed in its own term is missing from a later leader |
| RaftLosses.OldTermCommitLost | lib/raft/raft.go:540-546 | for every odd size from three on, a run with every answer timely in which a committed entry of an earlier term is missing from a later leader |
| RaftLosses.CompleteIffAlone | lib/raft/raft.go:636-669 | over all runs of the code, completeness for commits of the own term holds for exactly one odd size, one |
| RaftLosses.AnyTermCompleteIffAlone | lib/raft/raft.go:540-546 | over the runs with timely answers, completeness for commits of any term holds for exactly one odd size, one |
| RaftEffects.ElectionBegins | lib/raft/raft.go:368-395 | a member that stands enters the next term as a candidate, votes for itself, forgets its leader and asks with its last log position |
| RaftEffects.VoteAnswered | lib/raft/service.go:85-121 | a vote is granted exactly when the voter is not ahead, has no other vote in that term and has no newer log; the answer has the greater of the two terms; the log stays, and the vote is the candidate's if granted, none if refused in a new term, else as it was |
| RaftEffects.ElectionWonIff | lib/raft/raft.go:428-430 | in every run of the code, a candidate that counts leads afterwards exactly when it still was a candidate and it and those that granted are at least half of the members, which is more than half of the others |
| RaftEffects.ElectionLost | lib/raft/raft.go:430-438 | after any such step that leaves the member not leading, its term is the greatest of its own and those answered, it is a follower if that is a later one and as it was if not, and vote and log stay |
| RaftEffects.ElectionWon | lib/raft/raft.go:439-445 | if it leads afterwards, term and vote stay, the log gets one empty entry of the term, and every other member is tried from the old end of the log on, with nothing taken as matched |
| RaftEffects.BatchSent | lib/raft/raft.go:573-596 | a call carries the leader's term, name and commit index, the position and term before the next index, and the entries from there on, ten or fewer up to the end of the log |
| RaftEffects.AppendAnswered | lib/raft/service.go:124-160 | a call of an earlier term is refused and changes nothing; any other makes the receiver follow its sender, by name, in the call's term, and is taken exactly when its predecessor is there |
| RaftEffects.AnswerHandled | lib/raft/raft.go:636-674 | at a leader a success moves next and match index past what was sent and a refusal takes the next index one back if an entry is there; elsewhere nothing moves |
| RaftEffects.FailureHandled | lib/raft/raft.go:636-674 | a call that fails moves no index |
| RaftEffects.CommandTaken | lib/raft/service.go:163-191 | a leader logs a client's command as one entry of its term and counts itself; others take nothing |
| RaftEffects.CommitMoved | lib/raft/raft.go:528-550 | a leader's commit index becomes the greatest index that it had or that a quorum of match indices reaches; another's stays |
| RaftEffects.CommitLearned | lib/raft/raft.go:551-567 | a follower ends with the greater of its commit index and the one its leader sent; another's stays |
| RaftEffects.Restarted | lib/raft/raft.go:138-194 | after a crash term, vote and log are there, and everything else starts over |
| RaftOrigins.LearnRaises | lib/raft/raft.go:551-567 | in every run of the code of any size, a commit index raised on word from a leader becomes the very one that leader had when it sent the call, at an earlier moment; a follower ends no lower than that |
| RaftOrigins.CommitOrigin | lib/raft/raft.go:528-567 | every commit index, of any member at any moment, is 0 or one that some leader's commitment set before |
| RaftOrigins.ReplySent | lib/raft/raft.go:611-633 | every answer is to a call that a leader of its term sent, with its commit index of that moment |
| RaftOrigins.TermReported | lib/raft/service.go:94-96 | the term a voter answers is the one it was in when it answered, is not below the one asked for, and is that one if the vote is granted |
| RaftOrigins.LeaderNamed | lib/raft/service.go:141 | whomever a member takes for its leader has led before, in a term not after the member's own |
| RaftQuorum.CommitSelection | lib/raft/raft.go:540-546 | the element the code picks after sorting is the greatest index that at least a quorum of members reaches |
| RaftLog.MergeSlice | lib/raft/fspersistence.go:157-187 | merging a slice of a leader's log where the logs agree leaves the leader's log up to the slice's end, and drops an entry only if it differed |
| RaftLog.MergeAgrees | lib/raft/fspersistence.go:172-183 | once merged, every entry of the batch is in the log with its term |
| RaftLog.MergeIdempotent | lib/raft/fspersistence.go:172-183 | a repeated batch changes nothing |
| RaftLog.OwnAppend | lib/raft/raft.go:334-347 | a leader's own append passes the sequence check and extends the log |
| RaftPersist.PutAllIsMerge | lib/raft/fspersistence.go:470-486 | the entry-by-entry loop gives the declarative rule: the log unchanged if all entries match by term, else the log up to the first mismatch and the rest of the batch |
| RaftPersist.RepeatChangesNothing | lib/raft/fspersistence.go:172-183 | a batch delivered again changes neither the log nor the file |
| RaftPersist.ForgetsNothingIff | lib/raft/fspersistence.go:433-468 | replay loses nothing of a log exactly when it has no entry of raft's own |
| RaftPersist.FsPersist.AppendToLog | lib/raft/fspersistence.go:157-187 | accepts exactly the batches whose predecessor is there with its term; the map then holds the merged log, contiguous and recoverable, and the file grew by the new entries only; a refusal changes nothing |
| RaftPersist.FsPersist.AddToLogTail | lib/raft/fspersistence.go:470-486 | puts an entry, dropping what follows a replaced one; last index and term stay exact |
| RaftPersist.FsPersist.LookupPrevious | lib/raft/fspersistence.go:409-421 | the index and term before an index, for exactly the indices up to one past the last |
| RaftPersist.FsPersist.SetVotedFor | lib/raft/fspersistence.go:103-111 | the vote is durable, and written only if it changes |
| RaftPersist.FsPersist.SetCurrentTermAndVotedFor | lib/raft/fspersistence.go:114-120 | term and vote become durable in one record |
| RaftPersist.FsPersist.SetCurrentTerm | lib/raft/fspersistence.go:87-92 | the term is durable, the vote and the log are kept |
| RaftPersist.FsPersist.IncCurrentTerm | lib/raft/fspersistence.go:95-100 | the term is one higher and durable |
| RaftPersist.FsPersist.constructor | lib/raft/fspersistence.go:490-513 | opening replays the records found, gaps skipped, to their term, vote and log |
| RaftPersist.FsPersist.ReadLog | lib/raft/fspersistence.go:441-468 | the loop over the records computes the replay, skipping what leaves a gap |
| RaftPersist.Reopen | lib/raft/fspersistence.go:441-513 | a member opened on the file of a running one has its term, vote, last index, last term and every term and command; the same log if and only if it has client entries alone |
| RaftMember.Member.RequestVote | lib/raft/service.go:85-121 | the handler refines the vote step |
| RaftMember.Member.AppendToLog | lib/raft/service.go:124-160 | the handler refines the append step |
| RaftMember.Member.Append | lib/raft/service.go:163-191 | a leader logs the command and answers its term and index; others refuse |
| RaftMember.Member.AppendOwn | lib/raft/raft.go:334-347 | the leader's own append never fails and adds one entry |
| RaftMember.Member.BecomeLeader | lib/raft/raft.go:294-326 | a new leader resets every next and match index |
| RaftMember.Member.StartElection | lib/raft/raft.go:368-395 | a new term, a vote for itself, and a request with the last log position |
| RaftMember.Member.CountVotes | lib/raft/raft.go:397-445 | the loop over the replies and the decision refine the step that ends an election |
| RaftMember.Member.MakeAppend | lib/raft/raft.go:573-596 | the message built is the one of the model: the log from the next index on, ten entries at most |
| RaftMember.Member.SendAppend | lib/raft/raft.go:611-633 | the call that goes out is the message built, and it is the one in flight |
| RaftMember.Member.HandleReply | lib/raft/raft.go:636-674 | next and match index move as in the model |
| RaftMember.Member.AdvanceCommit | lib/raft/raft.go:528-550 | the commit index moves to the selected index and never back |
| RaftMember.Member.LearnCommit | lib/raft/raft.go:551-567 | a follower's commit index follows the leader's and never goes back |
| RaftMember.Member.ApplyCommits | lib/raft/raft.go:448-472 | entries are consumed one by one up to the commit index or the end of the log, and the client gets the client entries among them, in order, each with its index |
| RaftMember.DeliveryAt | lib/raft/raft.go:456-468 | wherever it stands in the log, a client's entry is handed over once, with its own command and index, between what comes before and after it; an entry of raft's own is not |
| RaftMember.RestartDeliversSameIff | lib/raft/fspersistence.go:441-468 | after a restart the client is handed the same commands if and only if the log has no entry of raft's own |
| RaftObjects.TallyIsCount | lib/raft/raft.go:397-426 | counting the replies, failed calls included, counts the granted votes, and the highest term reported is the one the step asks for |
| RaftObjects.CountReplies | lib/raft/raft.go:415-445 | an object that plays a member of the cluster plays it still after counting its votes as a step of the cluster |
| RaftObjects.SendCall | lib/raft/raft.go:611-633 | the same for sending: there is a call exactly when the step is enabled, and it is on the network |
| RaftObjects.ReceiveAnswer | lib/raft/raft.go:636-674 | the same for an answer that is on the network |
| RaftRepair.UpdateFollower | lib/raft/raft.go:600-676 | the loop ends; if no call fails, the follower holds the leader's whole log, and its log is that log or was left alone; if one fails, before or after it is handled, a later loop can take up |
| RaftRepair.Exchange | lib/raft/raft.go:606-674 | one round either lowers the next index by one or brings the follower up to it and raises it |
| RaftRepair.RunRepairs | lib/raft/raft.go:600-610 | in every run with timely answers a leader and any member not ahead of its term are as updateFollower needs them |
| RaftSync.ReadyIff | lib/raft/raft.go:927-976 | in every interleaving a caller may return exactly when a sync that began after it took its ticket has succeeded |
| RaftSync.SyncReturns | lib/raft/raft.go:958-976 | Sync succeeds only if some sync with the leader began and succeeded during the call |
| RaftSync.AllServed | lib/raft/raft.go:941-953 | one successful sync lets every caller go that was waiting when it began |
| DeepEquality.EqualIffIsomorphic | internal/reflectutil/deepequal.go:60-156 | on any heap whose cycles pass through pointers the algorithm says true exactly when the reachable pointers pair off one to one so that all pointees agree |
| DeepEquality.Sound | internal/reflectutil/deepequal.go:74-83 | true means the values match under the recorded pairs, and every pair recorded on the way matches too, given the earlier ones |
| DeepEquality.Complete | internal/reflectutil/deepequal.go:74-83 | values that match under a consistent one-to-one pairing are found equal, recording only pairs of it |
| DeepEquality.PrimEqualIff | internal/reflectutil/deepequal.go:139-152 | primitive values are found equal exactly when they are the same, kind included, and no NaN |
| DeepObject.ShareIffOneToOne | internal/reflectutil/deepequal.go:48-58 | a pair of pointers is accepted exactly when the pairing stays one to one with it |
| DeepLaws.Symmetric | internal/reflectutil/deepequal.go:17-19 | DeepEqual is symmetric |
| DeepLaws.Transitive | internal/reflectutil/deepequal.go:17-19 | DeepEqual is transitive |
| DeepLaws.ReflexiveIff | internal/reflectutil/deepequal.go:145-148 | a value is equal to itself exactly when no NaN is reachable from it |
| DeepLaws.FlatEqualIff | internal/reflectutil/deepequal.go:84-152 | values that hold no pointers and no slices are equal exactly when they are identical and free of NaN |
| DeepObject.LookupPtr | internal/reflectutil/deepequal.go:37-44 | the first position of the pointer, and whether it is there |
| DeepObject.OrderInfo.SharingEqual | internal/reflectutil/deepequal.go:48-58 | the lists grow by a new pair only, and the answer is whether the pairing stays one to one |
| DeepObject.OrderInfo.Compare | internal/reflectutil/deepequal.go:60-156 | the recursive method over the shared lists refines the pure algorithm; it terminates on values that are cyclic through pointers |
| DeepObject.OrderInfo.CompareAll | internal/reflectutil/deepequal.go:84-132 | the element loops of arrays and structs |
| DeepObject.OrderInfo.CompareCells | internal/reflectutil/deepequal.go:100-108 | the element loop of slices |
| DeepObject.DeepEqual | internal/reflectutil/deepequal.go:17-19 | the result is isomorphism |
| DeepReturns.Returns | internal/reflectutil/deepequal.go:60-156 | where every cycle passes through a pointer, some depth of recursion is enough for any two values, and gives what the algorithm gives |
| DeepReturns.ReturnsIffGrounded | internal/reflectutil/deepequal.go:74-108 | on a heap without NaN, comparing every object with itself returns exactly when every cycle passes through a pointer |
| DeepReturns.SelfSliceNeverReturns | internal/reflectutil/deepequal.go:94-108 | a slice that is its own first element: no depth of recursion is enough |
| Comparing.CompareSigns | internal/reflectutil/sort.go:109-231 | on any two values the result is -1, 0 or 1, swapping negates it, and LessValues is true exactly when it is -1 |
| Comparing.CompareChain | internal/reflectutil/sort.go:164-231 | on three values of one type without NaN, `not greater` is transitive, and strict if either step is |
| Comparing.TotalPreorder | internal/reflectutil/sort.go:159-194 | CompareValues is a total preorder on the NaN-free values of a type, recursive types included |
| Comparing.ZeroIffErased | internal/reflectutil/sort.go:164-231 | NaN-free values of any type compare equal exactly when they agree but for what unordered kinds hold |
| Comparing.ZeroMeansEqualIff | internal/reflectutil/sort.go:187-193 | comparing equal to a value means being equal to it exactly when it holds nothing of an unordered kind |
| Comparing.UnorderedCompareEqual | internal/reflectutil/sort.go:137-138 | two structs that differ in a field of an unordered kind compare equal |
| Comparing.ComparableIffOrdered | internal/reflectutil/sort.go:24-65 | areComparable accepts a type with itself exactly when no unordered kind is reachable from it, recursive types included |
| Comparing.ZeroIffEqual | internal/reflectutil/sort.go:159-194 | on the types that areComparable accepts with themselves, NaN-free values compare equal exactly when they are equal |
| Comparing.FloatsOrderedIff | internal/reflectutil/sort.go:122-123 | a set of floats is ordered exactly when it has no NaN or at most one number |
| Comparing.OnlyWithinKind | internal/reflectutil/sort.go:109-112 | values of different kinds, widths included, and values of an unordered kind compare equal to anything |
| Comparing.LeavesInOrder | internal/reflectutil/sort.go:114-123 | of two integers, unsigned integers or floats of one kind the smaller number comes first, false before true, and NaN compares equal to every float |
| Comparing.ComplexInOrder | internal/reflectutil/sort.go:124-125 | complex numbers come by their real parts, then by their imaginary parts, and NaN makes either compare equal |
| Comparing.TextInOrder | internal/reflectutil/sort.go:116-117 | a string comes first exactly when it is a proper start of the other or has the smaller byte where they first differ |
| Comparing.SlicesInOrder | internal/reflectutil/sort.go:206-221 | slices come by the first place where they differ, and if there is none the shorter first |
| Comparing.CompositesInOrder | internal/reflectutil/sort.go:126-136 | arrays and structs come by the first place where they differ, nil before any other pointer, and pointers by what they lead to |
| Comparing.LessValues | internal/reflectutil/sort.go:109-140 | on any two values the method computes LessValues, which is CompareValues giving -1, or panics exactly when it indexes past the second value |
| Comparing.CompareValues | internal/reflectutil/sort.go:164-194 | on any two values the method refines the order, or panics exactly when it indexes past the second value |
| Comparing.CompareElements | internal/reflectutil/sort.go:196-204 | the loop over elements, or over fields, gives the first difference |
| Comparing.CompareSlice | internal/reflectutil/sort.go:206-221 | the loop and the length check give the lexicographic order |
| Comparing.TypedNeverPanics | internal/reflectutil/sort.go:196-231 | two values of one type never make it panic |
| Publishing.IntentHolds | lib/publisher/publisher.go:89-174 | until stop, in every interleaving, the entries desired mounted are exactly the current names times the current servers |
| Publishing.NeverForgets | lib/publisher/publisher.go:245-293 | until stop, a pair whose last successful RPC was a mount has an entry, and between publishes the entries marked mounted are exactly those pairs |
| Publishing.StepKeeps | lib/publisher/publisher.go:228-293 | every API call, RPC and phase keeps intent, entries for all jobs, and the record of what is mounted |
| Publishing.ConvergesIff | lib/publisher/publisher.go:245-264 | a publish that nothing disturbs and whose RPCs succeed leaves exactly the names times the servers mounted, each with its name's attributes, if and only if it passes over no key that the mount table has otherwise |
| Publishing.RefreshConverges | lib/publisher/publisher.go:228-264 | such a refresh leaves the wanted pairs mounted, no others, each with its name's current attributes |
| Publishing.RefreshForgets | lib/publisher/publisher.go:245-293 | after such a refresh the entries are exactly those of the wanted pairs |
| Publishing.NewPairMounted | lib/publisher/publisher.go:89-153 | a pair that an API call makes wanted, and that had no entry, is mounted with its name's attributes by the next quiet publish, refresh or not |
| Publishing.ReaddedStaysUnmounted | lib/publisher/publisher.go:245-293 | a run in which a name added again during its unmount stays unmounted through a later publish |
| Publishing.ChangedAttributesWait | lib/publisher/publisher.go:95-108 | a run in which a name added again with other attributes stays mounted with the old ones through a later publish |
| Publishing.StopUnmountsAll | lib/publisher/publisher.go:295-307 | after any run, a stop whose unmounts succeed leaves nothing mounted |
| Publishing.MountResult | lib/publisher/publisher.go:327-352 | after a mount the mount time is that of the clock exactly unless that is before the unmount time, is never before it, and after it exactly unless the clock shows that very time; the error says whether the mount failed, the state is mounted if it did not, and nothing else changes |
| Publishing.UnmountResult | lib/publisher/publisher.go:361-381 | the same for an unmount, with the two times the other way round |
| PublisherObject.Publisher.AddName | lib/publisher/publisher.go:89-109 | the loop over servers marks or creates exactly the name's entries; an unchanged name changes nothing |
| PublisherObject.Publisher.RemoveName | lib/publisher/publisher.go:112-130 | the loop over servers marks exactly the name's entries |
| PublisherObject.Publisher.AddServer | lib/publisher/publisher.go:133-153 | the loop over names marks or creates exactly the server's entries |
| PublisherObject.Publisher.RemoveServer | lib/publisher/publisher.go:156-174 | the loop over names marks exactly the server's entries |
| PublisherObject.Publisher.EntriesToPublish | lib/publisher/publisher.go:245-264 | the loop deletes the settled entries and lists, once each, exactly the mounts and unmounts that are due |
| PublisherObject.Publisher.UpdateEntries | lib/publisher/publisher.go:266-293 | the loops store every result under the desired state of the moment and delete what was unmounted as desired |
| PublisherObject.Publisher.Publish | lib/publisher/publisher.go:228-243 | the three phases run by the object are steps of the model, and a quiet publish of it if every RPC succeeds |
| PublisherObject.MountAll | lib/publisher/publisher.go:234-236 | the loop makes one mount RPC for each job and gives their results, as a run of the model |
| PublisherObject.UnmountAll | lib/publisher/publisher.go:237-239 | the loop makes one unmount RPC for each job and gives their results, as a run of the model |
| Scanning.StreamAlternates | lib/discovery/scan.go:75-188 | for any events and any advertisement, found and lost alternate, and each loss repeats in full what was last found |
| Scanning.FoundIff | lib/discovery/scan.go:120-185 | after any events, one that is no loss adds a found update exactly when it is not of the session, ready or partial with addresses, readable and matching, and nothing is known of its id, or what the stream made known is no newer and differs in hash or, not being ready, in addresses; what is known is then lost first, and the update holds the event's fields, the decrypted body and, unless ready, the addresses |
| Scanning.ReplacedByNewer | lib/discovery/scan.go:171-183 | whatever the events, one event adds two updates at most, and two only as the loss of what is replaced and a found update of the same id that is not older |
| Scanning.NeverOlder | lib/discovery/scan.go:171-185 | over any events in which no plugin loses an advertisement, what is known of it is never replaced by something older |
| Scanning.LostIffEmptied | lib/discovery/scan.go:104-119 | after any events, a loss is sent exactly when it takes away the last source |
| Scanning.LostIffUnseen | lib/discovery/scan.go:104-128 | from a found update on, a loss is sent exactly when it leaves no plugin whose latest word is that it sees that version |
| Scanning.SourcesSee | lib/discovery/scan.go:59-73 | while an advertisement stays, its sources are exactly the plugins that still see it |
| Scanning.Independent | lib/discovery/scan.go:75-188 | the updates about one advertisement are those of a scan that sees the events about it alone |
| Scanning.MovedLosesSources | lib/discovery/scan.go:176-185 | a partial advertisement whose directory moves is sent as lost while another plugin still sees it |
| ScanObject.ZeroIffEmpty | lib/discovery/scan.go:69-73 | the bitmap is zero exactly when the set of plugins it stands for is empty |
| ScanObject.SetBit | lib/discovery/scan.go:64-67 | setting a plugin's bit adds that plugin alone |
| ScanObject.Scanner.Unset | lib/discovery/scan.go:69-73 | the bitmap loses that plugin alone, and the answer is whether none is left |
| ScanObject.Scanner.Set | lib/discovery/scan.go:64-67 | the bitmap of the entry gains the plugin |
| ScanObject.Scanner.HandleEvent | lib/discovery/scan.go:100-186 | one turn of the loop over the map of bitmaps refines the step over sets of plugins, and sends as much as can be sent |
| ScanObject.DoScan | lib/discovery/scan.go:75-188 | the loop sends exactly the stream of its events, cut off where the context is done, and what it sends alternates |
| Encoding.VarintRoundTrip | lib/discovery/encoding.go:43-53 | a value that fits in 64 bits is read back, with what follows it left |
| Encoding.VarintShortest | lib/discovery/encoding.go:43-53 | no other bytes that read as a value are fewer than those written for it |
| Encoding.IntRoundTrip | lib/discovery/encoding.go:43-53 | every 64-bit integer comes back, negative ones included |
| Encoding.IntBytes | lib/discovery/encoding.go:43-47 | an integer is written as at most ten 7-bit groups, low ones first, all but the last with the top bit set, that sum to it, or to it plus two to the 64th if it is negative |
| Encoding.IntReads | lib/discovery/encoding.go:50-53 | any groups that fit in 64 bits are read as that sum, with what follows left; others, and data that ends within them, are refused |
| Encoding.BytesRoundTrip | lib/discovery/encoding.go:56-75 | a byte string comes back, with what follows it left |
| Encoding.ListRoundTrip | lib/discovery/encoding.go:155-174 | a list comes back |
| Encoding.ListShortest | lib/discovery/encoding.go:155-174 | any data that decodes to a list is at least as long as the list's encoding |
| Encoding.AddressesRoundTrip | lib/discovery/encoding.go:117-153 | any address list comes back, compressed or not, if inflating inverts deflating |
| Encoding.PackedFormat | lib/discovery/encoding.go:117-131 | the last byte is 1 and the rest the compressed list just when that is shorter, and else it is 0 and the rest the plain list |
| Encoding.UnpackedFormat | lib/discovery/encoding.go:134-153 | a last byte of 0 is followed as plain, 1 as compressed, and any other is read as no addresses |
| Encoding.KeysRoundTrip | lib/discovery/encoding.go:177-202 | an algorithm and its keys come back |
| Encoding.ToInt32 | lib/discovery/encoding.go:187-202 | an algorithm's number is read as its low 32 bits |
| Encoding.CiphertextRoundTrip | lib/discovery/encoding.go:205-235 | a ciphertext comes back, whatever the order in which its map was gone through |
| Encoding.TimestampRoundTrip | lib/discovery/encoding.go:238-250 | every 64-bit timestamp comes back |
| Encoding.TimestampReverse | lib/discovery/encoding.go:245-250 | exactly the eight-byte strings decode, and encoding gives them back |
| Encoding.TimestampBytes | lib/discovery/encoding.go:238-242 | a timestamp is eight bytes, low ones first, that sum to it, or to it plus two to the 64th if it is negative |
| EncodingObject.EncodingBuffer.ReadInt | lib/discovery/encoding.go:50-53 | reads what the varint says; the varint is taken from the buffer whether or not it can be read |
| EncodingObject.EncodingBuffer.ReadBytes | lib/discovery/encoding.go:62-75 | reads a length and that many bytes, refusing negative lengths and short data; a refusal leaves what follows the length, or nothing |
| EncodingObject.EncodingBuffer.WriteBytes | lib/discovery/encoding.go:56-59 | appends the encoding of a byte string |
| EncodingObject.EncodingBuffer.Read | lib/discovery/encoding.go:31-40 | the next bytes, if there are enough |
| EncodingObject.ReadAll | lib/discovery/encoding.go:163-174 | the loop decodes the list to the end of the buffer, on any bytes |
| EncodingObject.WriteAll | lib/discovery/encoding.go:155-161 | the loop appends the list's encoding |
| EncodingObject.Pack | lib/discovery/encoding.go:117-131 | packs with the shorter of the two forms and its format byte |
| EncodingObject.Unpack | lib/discovery/encoding.go:134-153 | unpacks by the format byte, on any bytes |
| EncodingObject.PackEncryptionKeys | lib/discovery/encoding.go:177-184 | the algorithm and the keys one after the other |
| EncodingObject.UnpackEncryptionKeys | lib/discovery/encoding.go:187-202 | decodes or refuses any bytes |
| EncodingObject.EncodeWireCiphertext | lib/discovery/encoding.go:205-213 | the loop over the map, in an order not determined, writes what decodes to the ciphertext |
| EncodingObject.DecodeWireCiphertext | lib/discovery/encoding.go:216-235 | the loop decodes or refuses any bytes |
| HexStream.RunDumpHexStream | cmd/vom/vom.go:167-231 | however the input is split into reads, the bytes and commands put out are those of the automaton, in its order; there is an error in the same cases, and what was put out before it is a part of what the automaton puts out |
| HexStream.Drain | cmd/vom/vom.go:187-228 | the inner loop on one buffer does what the automaton does, leaving its pending character |
| HexStream.Round | cmd/vom/vom.go:188-228 | one turn, shifting the slice in place, changes nothing in what the automaton makes of the rest |
| HexStream.CloseUp | cmd/vom/vom.go:221-227 | the two copies take out the command and the pairs before it |
| HexStream.FeedComputes | cmd/vom/vom.go:154-166 | the bytes are the digits paired up and decoded, whatever stands between them; the commands come in order; an odd digit stays pending |
| HexStream.CommandAt | cmd/vom/vom.go:212-219 | wherever it stands, a dot asks for the status once, a semicolon flushes once, and nothing else gives a command |
| HexStream.DigitAt | cmd/vom/vom.go:187-202 | wherever it stands, a character that is no command and no white space counts as a digit, and no other does |
| HexStream.SwapCommand | cmd/vom/vom.go:161-163 | a command between the halves of a byte goes first |
| HexStream.HexRoundTrip | cmd/vom/vom.go:204-210 | bytes written in hex, each digit in either case, come back |

## Left out

- Raft snapshots and log trimming: the base index is 0 throughout, so `trimLog`, `takeSnapshot`, `SnapshotFromLeader` and `InstallSnapshot` are not modelled.
- Raft file names, directory scans, gob and fsync: storage is one durable sequence of records, and a write is durable when it returns.
- Raft timers, back-off and election liveness: elections start at any moment.
- Raft's debugging `StartElection` running beside the event loop: elections of one member are serialised.
- Agreement of what different members apply: a follower does not cap the leader's commit index at the entries it has verified, so it is not claimed.
- RaftSafety.LeaderCompleteness: stated for commits of entries of the leader's own term and for successes handled in the leadership that asked; without either it is false for every odd size from three on, as `RaftLosses` shows.
- RaftPersist.FsPersist.AppendToLog: batches are numbered consecutively from the entry before them, as makeAppendMsg builds them; the code does not look at the numbers.
- RaftMember.Member.AppendToLog: the same.
- RaftPersist.FsPersist.AddToLogTail: the entry continues or overwrites the log, which both of its callers see to.
- RaftPersist.FsPersist.constructor: the first log record has index 1, since there are no snapshots.
- RaftRepair.UpdateFollower: the leader's log stands still during the loop; the transfer of a snapshot is left out.
- RaftSync: the tickets do not wrap around at 64 bits, and what syncWithLeader does in between is one action that succeeds or fails.
- DeepEquality: maps, and kinds that make the code panic, are left out; the closed heap stands for memory safety. Infinite floats and signed zeros are not told apart from real numbers.
- DeepReturns.ReturnsIffGrounded: heaps that hold a NaN are left out of the equivalence, since a comparison may then stop at the NaN before it reaches a cycle; `DeepReturns.Returns` covers them.
- Comparing: values are acyclic, as the code demands; a nil slice is an empty slice; areComparable is modelled on a type and itself; sorting itself (`TrySortValues`) is left to the library.
- PublisherObject.Publisher.Publish: no API call comes between its phases; the interleavings are those of `Publishing`.
- Publishing: expiry of mounts, `Status`, `String`, logging and the notification channel are left out.
- Scanning: starting and stopping plugins, fetching from a directory server (its answer is another event), and plugins that change an advertisement after handing it over are left out.
- HexStream: input is ASCII; the dumper's own errors and the other data representations are left out.
- Commands, services, security, cryptography, queries, statistics and generated code: not modelled.
