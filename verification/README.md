# Verification of the message relay

A Dafny model of an end-to-end encrypted message relay: the server stores and forwards ciphertext it
cannot read, so what it must get right is bookkeeping. The model covers the group half of its store
with the HTTP handlers that drive it, the in-memory session manager, the replay caches, the background
reclaimer, direct messages with their offline queue, contacts and presence, and resumable downloads.

Verify everything with `dafny verify dfyconfig.toml`.

## How the model is built

**Groups.** A group's rows in all tables are one value (`GroupModel.Group`). Each store transaction is a
total function from the rows before it to the rows after it and a reply; a refused transaction returns
the rows it was given. `GroupStore.Store` holds the tables of all groups as a field that its methods
update in place, with the queries written as loops (`MIN` over a left join, `MAX`, `COUNT`, `ORDER BY`
with `LIMIT` and `OFFSET`, prefix deletes, a rollback after an insert), each proved to do what the
function says. `GroupApi.Api` holds the endpoints: loads, checks, one transaction.

**Two grains.** One database connection makes a transaction a single step, but a handler reads roles and
epochs in earlier transactions. `GroupRuns.Served` runs handlers atomically. `GroupRuns.Settled` runs
only the transactions, in any interleaving whatever of the handlers that issued them
(`GroupRuns.Interleaving` keeps what each check had seen at some earlier moment). A result about
`Interleaving` or about every list of transactions holds even when check and act are apart. Eight results
are about `Served` and their rows say "with atomic handlers"; none of them carries over as it stands. For
each, the transactions that break it are named, the result is proved for every interleaving if and only if
none of them occurs, and a run shows one (see below). A page of messages is two reads, the floor and later
the rows, and a join request is up to four; results about them allow anything in between. The laws of
`Authority` speak of one served request met by any group: which request changes which column, and why one
is refused.

**Everything else** follows the same pattern: a state as a value, steps, runs as sequences of steps, and
where the program updates something in place a class whose methods are proved to take exactly those
steps.

| file | what it holds |
|---|---|
| `Ordered.dfy` | finite sets in ascending order: least, greatest, the newest n |
| `GroupModel.dfy`, `GroupRequests.dfy`, `GroupRuns.dfy` | rows and transactions; endpoints; runs |
| `GroupStore.dfy`, `GroupApi.dfy`, `GroupPush.dfy` | the store class; the endpoint class; live group messages |
| `CommitLog.dfy` | the MLS log and the commit chain |
| `MessageQueue.dfy`, `Numbering.dfy`, `Retention.dfy`, `Resends.dfy` | the message queue: seqs, passes, message ids |
| `Cursors.dfy`, `Paging.dfy`, `Reader.dfy` | what members have acknowledged and receive |
| `Ownership.dfy`, `HandOvers.dfy`, `Membership.dfy` | owners; hand-over rows; members, removals, dissolution |
| `Authority.dfy` | who can change what, and what a refusal tells |
| `CleanupSweep.dfy` | the background reclaimer |
| `Session.dfy`, `SessionManager.dfy` | online sessions and their channels |
| `SeenCache.dfy`, `SeenTable.dfy`, `SignedRequests.dfy` | nonces, message ids, signed requests |
| `DirectMessages.dfy`, `DirectRouting.dfy` | direct messages: where each one ends, and why there |
| `DirectDelivery.dfy`, `DirectRetry.dfy` | their handler and offline table; retries |
| `Contacts.dfy` | contacts and presence |
| `RangeHeader.dfy`, `ResumableDownload.dfy` | resumable downloads |

## What does not hold without a condition

The code is modelled as it is. Some properties a reader might expect hold only under a condition; each
has the condition, proved in both directions, and a run that breaks it.

- **Rising sequence numbers.** `AppendGroupMessage` numbers from the rows still retained, so a message
  appended after a pass emptied the queue gets seq 1 again, below `min_seq`. Numbers rise, and the
  oldest message is `min_seq + 1`, if and only if no message is appended to an emptied queue
  (`Numbering.NumberingIffNoRestart`). Such a message is accepted, and no page asked for from then on
  shows it (`Paging.RestartedMessageIsNeverListed`, `Numbering.RestartLosesAMessage`). Numbering above
  the floor as well repairs it (`Numbering.RepairedAppendKeepsNumbering`).
- **One owner.** There is never more than one owner if and only if nobody accepts the newest pending
  transfer while somebody else than its sender owns the group (`Ownership.OneOwnerIffNobodyUsurps`).
  With atomic handlers this cannot happen as long as no owner leaves while a transfer is pending, which
  `LeaveGroup` does not prevent (`Ownership.SoleOwnerThroughoutIffNeverLeavesTwice`,
  `Ownership.LeavingTwiceMakesTwoOwners`).
- **Catching up.** `createCommit` stores the client's `kind`. A member catches up along the whole chain
  if and only if no later commit is labelled `welcome` (`CommitLog.CatchUpIffNoWelcomeLabel`,
  `CommitLog.CommitLabelledWelcomeIsInvisible`).
- **A signed request is accepted once.** As long as its nonce is not evicted, it can be accepted again
  one window later if and only if its stamp is not before its first acceptance, less the wait between
  the two checks of the second handling (`SignedRequests.AcceptedTwiceWasStampedAhead`,
  `SignedRequests.StampedAheadIsAcceptedAgain`, `SignedRequests.TwoRequestsAcceptedTwice`). An eviction
  needs a thousand checks of the same user within one window
  (`SeenCache.EvictionNeedsAThousandRecentChecks`,
  `SignedRequests.UnhurriedAcceptedTwiceWasStampedAhead`); a thousand are enough
  (`SignedRequests.HurriedRequestAcceptedTwiceAtOnce`). Below that rate, and without delay between the two
  checks, three acceptances are the most (`SignedRequests.AcceptedThreeTimesAtMost`,
  `SignedRequests.AcceptedThreeTimes`).
- **A group message is queued once.** The queue recognises a message id only while its row is there: a
  send is refused as a duplicate if and only if no pass has taken the message since
  (`Resends.DuplicateIffAppendedSince`, `Resends.SameSendAcceptedTwice`).
- **A direct message that was refused can be sent again.** Its id is recorded before it is placed, so the
  retry gets through if and only if the cache has forgotten the id, whatever became of the message
  (`DirectRetry.RetryPassesIffForgotten`, `DirectRetry.RefusedThenDuplicate`).
- **A file goes once the client has it.** It goes once it has been *written*, or when it expires. The
  client then lacks part of it if and only if the deleting attempt was not received in full, or the file
  expired first (`ResumableDownload.LostIffExpiredOrUnreceived`,
  `ResumableDownload.DeletedBeforeReceived`, `ResumableDownload.ExpiredBeforeWhole`).
- **`min_seq` covers what a page leaves out.** It does if and only if the floor did not rise beyond the
  start of the page between the two reads (`Paging.ReportedFloorCoversIff`, `Paging.StaleFloorHidesAGap`).

With check and act apart, the results that hold of atomic handlers (in parentheses) need a condition; each
line names it, with the equivalence over whole interleavings and the run.

- An active group is governed (`Ownership.ActiveGroupIsGoverned`): no late kick of the only owner
  (`Ownership.GovernedIffNobodyUnseated`, `Ownership.SplitKickLeavesNobody`).
- An accepted join request finds an owner (`Ownership.AcceptedJoinRequestFindsOwner`): up to any moment
  after the read that let it through, the last owner does not leave and is not removed
  (`Ownership.AcceptedJoinRequestSawOwner`, `Ownership.JoinRequestOutlivesOwner`).
- Pending transfers are the owner's (`Ownership.SoleOwnerThroughoutIffNeverLeavesTwice`): no leave during
  a pending transfer and no overtaken offer (`Ownership.SoleOwnerIffNothingMuddled`,
  `Ownership.SplitTransferMakesTwoOwners`). The condition for one owner is the same at both grains
  (`Ownership.ServedOneOwnerIffNobodyUsurps`, `Ownership.OneOwnerIffNobodyUsurps`).
- Only members have cursors (`Cursors.CursorsBelongToMembers`): no acknowledgement recorded after its
  member has gone (`Cursors.CursorsBelongIffNoLateAck`).
- Cursors move forward and start at 0 (`Cursors.CursorMonotoneWithinMembership`): no positive one
  recorded then (`Cursors.CursorsMoveForwardIffNoStrayAck`).
- A cursor is the highest acknowledgement of the present membership (`Cursors.CursorIsHighestAck`): nobody
  joins to find a cursor waiting (`Cursors.CursorIsHighestAckIffNobodyInherits`). One run breaks all three:
  `Cursors.SplitAckOutlivesMembership`.
- Epochs never decrease along seq (`MessageQueue.EpochsNeverDecreaseAlongSeq`): no late send behind the
  newest message (`MessageQueue.EpochsInOrderIffNoSendBehind`, `MessageQueue.SplitSendBreaksEpochOrder`).
- Dissolution is final (`Membership.DissolutionIsFinal`): nothing but hand-overs reaches the dissolved
  group late and has an effect (`Membership.FrozenIffNothingStirs`,
  `Membership.SplitSendReachesDissolvedGroup`).

Where code and comment differ the code is followed: the comment on `kickMember` says owner or admin and
that the owner cannot be kicked, while the code lets only the owner kick and protects the *creator*,
owner or not. No endpoint ever makes anyone an admin (`Membership.MembersAreVouched`).

## Model

| member | source | states |
|---|---|---|
| Numbering.NumberingIffNoRestart | src/store/group.go:974-1020 | In every interleaving: issued seqs rise strictly, and at every moment the oldest retained seq is min_seq + 1, exactly when no message is appended while the queue stands emptied (both directions) |
| Numbering.NumberingWithoutRestart | src/store/group.go:991-999 | Under that condition the retained seqs are one interval ending at the last seq issued, the floor is just below it, and no cursor is beyond it |
| Numbering.NeverEmptiedNeverRestarts | src/store/group.go:1125-1136 | If no reclaim ever empties a non-empty queue, no append meets an emptied queue and the numbering holds throughout |
| Numbering.RestartLosesAMessage | src/store/group.go:991-999 | A concrete run of served requests: all acknowledge, reclaim, append; the message is accepted as seq 1 at the floor and the next pass drops it unread |
| Paging.RestartedMessageIsNeverListed | src/handler/http_groups.go:1163-1185 | Any message appended to an emptied queue is accepted as seq 1 and is in no page, from any position with any limit, whose two reads lie at any later moments of any run |
| Paging.RestartedMessageListedIff | src/handler/http_groups.go:1177-1185 | A page that reads the rows just after such an append shows it exactly when its floor was read as 0 and it asks from the start |
| Paging.NothingUnderTheFloorIsListed | src/handler/http_groups.go:1177-1185 | From the moment the floor has reached k no page whose floor is read from then on shows k, whatever rows it finds |
| Numbering.RepairedAppendKeepsNumbering | src/store/group.go:991-999 | Numbering above max(highest retained, min_seq) always issues the successor of the last seq and keeps the interval, with no side condition |
| MessageQueue.QueueIsWellFormed | src/handler/http_groups.go:1101-1125 | In every interleaving, commits between a send's check and its append included: retained seqs are one interval, msg ids are unique, no message is from beyond current_epoch |
| MessageQueue.EpochsNeverDecreaseAlongSeq | src/handler/http_groups.go:1106-1125 | With atomic handlers epochs never decrease along seq |
| MessageQueue.EpochsInOrderIffNoSendBehind | src/handler/http_groups.go:1106-1125 | Over any transactions in any order: epochs never decrease along seq at every moment exactly when no message is appended with an epoch behind the newest retained one's |
| MessageQueue.SplitSendBreaksEpochOrder | src/handler/http_groups.go:1106-1125 | A send overtaken by a commit and another send, between its check and its append, breaks the order |
| MessageQueue.DroppedStayBelowFloor | src/store/group.go:1165-1171 | Every seq ever dropped, in any run from any state, is at or below the floor clients are told, and the floor never goes back |
| Retention.ReclaimKeepsTheNewestUnacked | src/store/group.go:1096-1178 | What a pass leaves is the newest min(10000, n) of the n rows not acknowledged by all, nothing else has that property, and no other row or column changes |
| Retention.SurvivesPassIff | src/store/group.go:1114-1163 | A message survives a pass exactly when somebody has not acknowledged it (or nobody is left) and fewer than 10000 unacknowledged messages are above it |
| Retention.CursorPhaseWaitsForEveryMember | src/store/group.go:1114-1136 | The cursor phase removes a row exactly when there are members and each one's cursor, 0 if missing, has reached it |
| Retention.FloorIsTight | src/store/group.go:1133-1171 | Every removed row is at or below the new floor, every kept row above the old floor is above the new one, and the floor is the old one, the acknowledged seq, or the highest row the cap removed |
| Retention.ReclaimCountsRows | src/store/group.go:1114-1178 | The reported counts are those of the rows removed, acknowledged ones first and then what exceeds 10000, and add up; the reported floor is the new one |
| Retention.ReclaimIsIdempotent | src/store/group.go:1096-1178 | A second pass changes nothing and reports zero deletions |
| Retention.UnackedMessageSurvives | src/store/group.go:1114-1163 | In every interleaving from any state a queued message stays unchanged while some member has not acknowledged it and at most 10000 are unacknowledged |
| Resends.DuplicateIffAppendedSince | src/store/group.go:981-989 | Over any transactions in any order: a send is refused as a duplicate exactly when a message with its id was appended before and no pass has taken it since; an id is appended twice only with such a pass in between |
| Resends.SameSendAcceptedTwice | src/handler/ws.go:757-863 | A served run: a message acknowledged and dropped by a pass is sent again in the same epoch under the same id and accepted again, as message 3 behind message 2 |
| Cursors.CursorsBelongToMembers | src/store/group.go:571-593 | With atomic handlers only current members have cursors |
| Cursors.CursorsBelongIffNoLateAck | src/handler/http_groups.go:1233-1257 | Over any transactions in any order: only members have cursors at every moment exactly when no acknowledgement is recorded for a non-member |
| Cursors.NoStrayIffNoStrayAck | src/handler/http_groups.go:1233-1257 | In every interleaving: whoever is not a member stands at 0, at every moment, exactly when no positive acknowledgement is recorded for a non-member |
| Cursors.CursorsMoveForwardIffNoStrayAck | src/store/group.go:1076-1089 | In every interleaving: at every step every cursor moves forward within a membership and is 0 outside one and on joining, exactly when no positive acknowledgement is recorded for a non-member |
| Cursors.CursorMonotoneWithinMembership | src/store/group.go:1076-1089 | With atomic handlers the cursor never moves back during a membership and is 0 after leaving, removal and rejoining |
| Cursors.CursorIsHighestAckIffNobodyInherits | src/handler/http_groups.go:1233-1257 | In every interleaving: each member's cursor is the highest seq acknowledged during the present membership, 0 without one, at every moment, exactly when nobody joins to find a cursor waiting |
| Cursors.CursorIsHighestAck | src/handler/http_groups.go:1233-1257 | With atomic handlers it always is |
| Cursors.RecordedAckIsNotLost | src/handler/http_groups.go:1252-1264 | The cursor read back after recording an acknowledgement is at least that, whatever transactions come between, unless the membership ended |
| Cursors.SplitAckOutlivesMembership | src/handler/http_groups.go:1233-1257 | A run: the ack of seq 1 passes its check, its member leaves, the cursor is written, the member is welcomed back to cursor 1, and a pass drops message 1 although nothing was acknowledged in the present membership |
| Reader.CarefulReaderMissesNothing | src/handler/http_groups.go:1163-1208 | In every interleaving without an append to an emptied queue, a member who stays, acknowledges only what it read, and meets no pass with over 10000 unacknowledged messages, receives since+1, since+2, ... with no gap or repetition, the transactions of others falling anywhere between its pages and between the two reads of a page; an undisturbed page is empty exactly when it has everything issued |
| Reader.MayStartAnywhere | src/store/group.go:974-1178 | The start of that is available at every moment of every such interleaving, from any position that is at most the last seq and at least the floor and the member's own cursor |
| Paging.ListedSplits | src/store/group.go:1023-1046 | LIMIT n takes the least n rows above since, misses none on the way, and the rest of the listing starts where they end |
| Paging.DrainingReceivesEverythingOnce | src/handler/http_groups.go:1169-1208 | On a fixed queue paging ends for any limits asked and yields every message above max(since, min_seq) once, in order |
| Paging.PagesStayAscending | src/handler/http_groups.go:1163-1208 | Whatever happens between pages and between the two reads of a page, the seqs received rise strictly |
| Paging.PagingAcrossARun | src/handler/http_groups.go:1163-1208 | In an interleaving without a restart, with floors and rows of the pages read at any moments, a seq passed over was at or below the min_seq of a moment at which rows were read |
| Paging.ReportedFloorCoversIff | src/handler/http_groups.go:1176-1207 | The min_seq sent with a page covers everything the page passes over exactly when the floor has not risen past the start of the page before the rows are read |
| Paging.StaleFloorHidesAGap | src/handler/http_groups.go:1163-1207 | A run in which a pass between the two reads makes a page show seq 2 only while reporting min_seq 0 |
| CommitLog.LogIsWellFormed | src/store/group.go:778-855 | In every run the i-th log row has seq i, welcomes included; commits are in strictly increasing epoch order and none is beyond current_epoch |
| CommitLog.LogOnlyGrows | src/store/group.go:792-920 | Rows once logged stay in place and the epoch never goes back |
| CommitLog.AcceptedIffExtendsCurrent | src/store/group.go:800-847 | A commit is accepted exactly when parent = current and epoch > current; the fork pre-check decides only the error code, and the new row clashes with neither key |
| CommitLog.ListingIsLogOrder | src/store/group.go:924-946 | Sorting by epoch and seq gives the visible rows in log order |
| CommitLog.ChainIsUnbroken | src/store/group.go:822-847 | In every interleaving the accepted commits form one chain from epoch 0 to current_epoch and the log shows those not labelled welcome |
| CommitLog.OneCommitPerParent | src/store/group.go:822-834 | In every interleaving at most one accepted commit names a given parent epoch |
| CommitLog.CatchUpIffNoWelcomeLabel | src/store/group.go:924-946 | Listing since an epoch of the chain returns exactly the rest of the chain if and only if none of it is labelled welcome; otherwise it is shorter |
| CommitLog.CommitLabelledWelcomeIsInvisible | src/handler/http_groups.go:863-870 | A run of one commit of kind welcome: the epoch is 1 and a member at epoch 0 lists nothing |
| Ownership.ActiveGroupIsGoverned | src/store/group.go:436-539 | With atomic handlers an active group always has an owner or a pending transfer |
| Ownership.GovernedStep | src/store/group.go:574-593 | One transaction, however old its check, leaves a governed group governed exactly when it is not the kick of an active group's only owner with nothing pending |
| Ownership.GovernedIffNobodyUnseated | src/handler/http_groups.go:1612-1631 | In every interleaving an active group has an owner or a pending transfer at every moment exactly when no such kick occurs |
| Ownership.AcceptedJoinRequestFindsOwner | src/handler/http_groups.go:601-622 | With atomic handlers a join request that is not refused finds an owner present |
| Ownership.JoinReadsTogether | src/handler/http_groups.go:601-632 | Reads of a join request that fall on one moment decide exactly as the atomic handler |
| Ownership.LastOwnerStep | src/store/group.go:436-593 | One transaction, however old its check, takes a group's last owner away exactly when it is the accepted leave or the kick of its only owner |
| Ownership.AcceptedJoinRequestSawOwner | src/handler/http_groups.go:601-632 | With the four reads of a join request anywhere in an interleaving without an unseating kick: the read that let it through found an owner unless the group was dissolved since the first read, and there is one up to any later moment exactly when the last owner is not lost on the way |
| Ownership.JoinRequestOutlivesOwner | src/handler/http_groups.go:607-632 | A run: the only owner leaves between the reads, and the request is accepted into a group without an owner |
| Ownership.OneDecisionSettlesVacancy | src/store/group.go:1296-1373 | In any governed active group without an owner the newest designee's answer installs an owner or dissolves the group (or is refused if no longer a member), and nobody else's answer has any effect; governed is what GovernedIffNobodyUnseated establishes |
| Ownership.OneOwnerStep | src/store/group.go:1318-1344 | One transaction, however old its check, makes a second owner exactly when it is the accepted decision of the newest designee while somebody else than that transfer's sender owns the group |
| Ownership.OneOwnerIffNobodyUsurps | src/store/group.go:1296-1373 | In every interleaving: at most one owner at every moment exactly when no such decision occurs |
| Ownership.ServedOneOwnerIffNobodyUsurps | src/handler/http_groups.go:1517-1557 | The same for atomic handlers |
| Ownership.SoleOwnerStep | src/store/group.go:504-509 | One transaction keeps the stronger invariant (at most one owner, one pending transfer, and that transfer the owner's) exactly when it is neither an owner's leave during a pending transfer nor an offer recorded for somebody who is not the owner |
| Ownership.SoleOwnerIffNothingMuddled | src/store/group.go:1208-1246 | In every run of transactions the stronger invariant holds at every moment exactly when neither occurs, and then nobody usurps |
| Ownership.SoleOwnerThroughoutIffNeverLeavesTwice | src/store/group.go:504-509 | With atomic handlers the stronger invariant holds at every moment exactly when no owner leaves during a pending transfer, and then nobody usurps, so there is one owner at most |
| Ownership.TrioIsReachable | src/store/group.go:168-209 | The three-member group of the witness runs is reachable by two welcomes |
| Ownership.LeavingTwiceMakesTwoOwners | src/store/group.go:1334-1344 | Transfer to A, leave to B, B accepts, A accepts: two owners |
| Ownership.SplitKickLeavesNobody | src/handler/http_groups.go:1612-1631 | A kick carried out after a hand-over overtook its check leaves an active group with nobody in charge |
| Ownership.SplitTransferMakesTwoOwners | src/handler/http_groups.go:1443-1452 | A transfer carried out after a hand-over overtook its check ends with two owners |
| HandOvers.DecisionSettlesNewest | src/store/group.go:1296-1373 | An answer takes effect exactly when it is the newest designee's and, to accept, a member's; then the newest pending row is accepted or declined and no other row changes; otherwise it is refused and nothing changes |
| HandOvers.PendingAfterDecision | src/store/group.go:1321-1365 | After a decision a row is pending exactly when it was before and is not the newest pending one |
| HandOvers.DecidedOnce | src/store/group.go:1208-1373 | When the only pending row has been decided, the same designee's next answer finds no hand-over and the owner's next offer to another member is recorded |
| HandOvers.DecisionsAreFinal | src/store/group.go:1208-1373 | Over any transactions in any order no hand-over row is lost or changes its parties, and what was accepted or declined stays so |
| Membership.MembersAreVouched | src/store/group.go:168-209 | In every interleaving: at most 1000 members, each with the creation row or a logged welcome addressed to them whose epoch is their joined epoch |
| Membership.MembershipIsStable | src/store/group.go:859-920 | During one membership, over any transactions in any order, the joined epoch never changes, and without a decided hand-over neither does the role, being welcomed again included |
| Membership.LeaveAnswerIsTrue | src/store/group.go:436-539 | The answer to a leave, read against the rows before and after: pending removal exactly when the leaver is gone from a group that goes on, dissolved exactly when the group ended with it, a successor exactly when the owner left it to one |
| Membership.PendingRemovalsAreTheDeparted | src/store/group.go:523-569 | Over any transactions in any order the pending removals are exactly those whose leave took them out of a group that went on, since the list was last cleared |
| Membership.DissolutionIsFinal | src/handler/http_groups.go:1742-1755 | With atomic handlers state, epoch, log, queue, floor, cursors, removals and membership never change again after dissolution; only roles and transfer rows can |
| Membership.FrozenIffNothingStirs | src/handler/http_groups.go:1742-1755 | Whatever transactions still reach a dissolved group, everything but roles and transfer rows stays as it is exactly when none of them passes the store's own checks and finds something to change, hand-overs apart |
| Membership.SplitSendReachesDissolvedGroup | src/handler/http_groups.go:1101-1125 | A send whose check preceded the dissolution still changes the dissolved group |
| Authority.EpochMovesIff | src/handler/http_groups.go:847-890 | A served request moves the epoch exactly when it is a complete commit by an owner or admin of an active group that extends the current epoch, and then to its epoch |
| Authority.LogGrowsIff | src/handler/http_groups.go:847-1010 | A row is logged exactly for such a commit or for a complete welcome by an owner or admin for which there is room, one row with its sender, epoch and data |
| Authority.JoinsIff | src/handler/http_groups.go:972-1010 | Somebody becomes a member exactly by such a welcome, as a plain member joining at its epoch |
| Authority.GoesIff | src/handler/http_groups.go:1599-1631 | Somebody ceases to be a member exactly by leaving (an owner with others around only to a successor among them) or by being removed by an owner who is somebody else, and the creator never by removal |
| Authority.RoleChangesIff | src/store/group.go:1334-1344 | A role changes exactly when the newest designee, still a member, accepts: that member becomes owner and the sender of the transfer ceases to be |
| Authority.QueueGrowsIff | src/handler/http_groups.go:1101-1125 | A message is queued exactly when a member sends it, complete, in the current epoch, that epoch not before the one it joined at, under an id not queued: one row above all others, as sent |
| Authority.QueueShrinksOnlyByCleanup | src/store/group.go:278-302 | Rows go and the floor moves only in a clean-up of an active group |
| Authority.CursorRisesIff | src/handler/http_groups.go:1233-1255 | A cursor rises exactly when its member acknowledges a seq above it that is not above every queued one, and to that seq |
| Authority.EndStep | src/store/group.go:332-339 | One transaction, however old its check, ends a group exactly when it dissolves it, is the leave of the owner as last member, or the decline of the newest designee while nobody owns it; none brings a group back |
| Authority.ServedEndIff | src/handler/http_groups.go:1662-1670 | Served, an active group stops being active exactly so, and to dissolve it the request has to be its owner's |
| Authority.DissolvedIffEnded | src/store/group.go:332-539 | Over any transactions in any order a group is dissolved exactly when one of them met it active and ended it |
| Authority.HandOverRecordedIff | src/handler/http_groups.go:1443-1460 | A hand-over is recorded exactly when the owner offers the group to another member while nothing is pending, or leaves it to one: one pending row from the owner to the one named |
| Authority.RemovalsClearedIff | src/handler/http_groups.go:1403-1412 | The list of pending removals loses somebody exactly when the owner of an active group clears it |
| Authority.RefusedForFirstReason | src/handler/http_groups.go:820-1683 | A served request is refused exactly when one of the listed reasons is there, the first of them is the error answered, and nothing changes |
| Authority.SeqAnsweredIff | src/store/group.go:836-1019 | A seq is answered exactly when a commit, a welcome or a message was recorded, and it is that row's |
| Authority.CursorAnswered | src/handler/http_groups.go:1252-1264 | The cursor answered to an acknowledgement is the member's own as it then stands, at least the one acknowledged |
| GroupRuns.ServedIsAnInterleaving | src/store/store.go:41-42 | Serving handlers one at a time is one of the interleavings, so results about interleavings apply to it |
| GroupStore.SelectSafeSeq | src/store/group.go:1115-1123 | The scan yields the least cursor of the current members, 0 for a missing one |
| GroupStore.NextMLSSeq | src/store/group.go:778-788 | MAX(seq) + 1 over the log |
| GroupStore.SelectNewestPending | src/store/group.go:1249-1265 | The pending row that ORDER BY created_at DESC, id DESC puts first |
| GroupStore.SelectSeqAt | src/store/group.go:1145-1149 | LIMIT 1 OFFSET k is the element at position k in ascending order |
| GroupStore.SelectMessages | src/store/group.go:1023-1046 | The rows above since, ascending, at most limit of them |
| GroupStore.SelectLogSince | src/store/group.go:924-946 | The non-welcome rows above the epoch as a sorted permutation |
| GroupStore.DeleteAcked | src/store/group.go:1114-1136 | Phase 1 leaves the unacknowledged rows and counts the others |
| GroupStore.DeleteOverflow | src/store/group.go:1138-1163 | Phase 2 with its OFFSET arithmetic leaves the newest 10000 and deletes exactly the rest |
| GroupStore.Store.CreateGroup | src/store/group.go:168-209 | A new id gets a group with its creator as owner; a known id changes nothing |
| GroupStore.Store.AppendGroupCommit | src/store/group.go:792-855 | Tables and reply are those of the commit transaction; a refusal changes nothing |
| GroupStore.Store.AppendWelcome | src/store/group.go:859-920 | Tables and reply are those of the welcome transaction; the row inserted before a full group refuses is rolled back |
| GroupStore.Store.AppendGroupMessage | src/store/group.go:974-1020 | Tables and reply are those of the append transaction |
| GroupStore.Store.ListGroupMessages | src/store/group.go:1023-1046 | The listed seqs with their stored rows, nothing changed |
| GroupStore.Store.ListMLSLogSince | src/store/group.go:924-946 | A listing of the log since an epoch |
| GroupStore.Store.UpsertGroupCursor | src/store/group.go:1076-1089 | The cursor becomes the greater of stored and acknowledged, nothing else changes |
| GroupStore.Store.GetGroupCursor | src/store/group.go:1062-1073 | The stored cursor, 0 when there is none |
| GroupStore.Store.LeaveGroup | src/store/group.go:436-539 | Tables and reply are those of the leave transaction, in all five of its outcomes |
| GroupStore.Store.RemoveGroupMember | src/store/group.go:574-593 | The member row and the cursor go together |
| GroupStore.Store.CreateOwnerTransfer | src/store/group.go:1208-1246 | Tables and reply are those of the transfer transaction |
| GroupStore.Store.DecideOwnerTransfer | src/store/group.go:1296-1373 | Tables and reply are those of the decision: demote before promote, dissolve when nobody owns the group |
| GroupStore.Store.DissolveGroup | src/store/group.go:332-339 | Only the state column of that group changes |
| GroupStore.Store.ClearPendingRemovals | src/store/group.go:562-569 | Only that group's removal list changes |
| GroupStore.Store.ReclaimGroupMessages | src/store/group.go:1096-1178 | The two loops-and-deletes phases together are the retention pass that the Retention lemmas describe, counts included |
| GroupStore.Store.ListActiveGroupIDsPage | src/store/group.go:278-302 | The page of active group ids in ascending order |
| GroupApi.Api.LoadActiveGroup | src/handler/http_groups.go:1742-1755 | Missing and dissolved groups are refused, in that order |
| GroupApi.Api.LoadActiveGroupMember | src/handler/http_groups.go:1758-1772 | Non-members are refused after that |
| GroupApi.MissingAnswersLikeDissolved | src/handler/http_groups.go:1742-1755 | A missing group answers each endpoint as a dissolved one without hand-overs does, but for the name of that error |
| GroupApi.OnlyMembersRead | src/handler/http_groups.go:1163-1166 | Messages and commits are read by members of active groups and nobody else, others being told the first reason |
| GroupApi.Api.CreateCommit | src/handler/http_groups.go:820-892 | The endpoint changes the tables and answers as the atomic handler, for present and missing groups alike |
| GroupApi.Api.CreateWelcome | src/handler/http_groups.go:944-1023 | The same for welcomes |
| GroupApi.Api.SendMessage | src/handler/http_groups.go:1075-1139 | The same for sends, with both epoch checks |
| GroupApi.Api.StartListing | src/handler/http_groups.go:1163-1182 | The first reads fix the clamped limit, the start (the later of position and floor), the floor and the caller's role, or refuse |
| GroupApi.Api.FinishListing | src/handler/http_groups.go:1184-1208 | The rows from that start as they are when this runs, with the floor read before |
| GroupApi.Api.ListMessages | src/handler/http_groups.go:1142-1209 | With nothing in between the two make exactly the page of Paging |
| GroupApi.Api.ListCommits | src/handler/http_groups.go:895-940 | A listing since the epoch, for members of an active group only |
| GroupApi.Api.RecordAck | src/handler/http_groups.go:1233-1255 | The checks in order and the upsert: tables and refusals as the atomic handler |
| GroupApi.Api.AnswerAck | src/handler/http_groups.go:1258-1264 | The answer is the cursor as it stands when it is read back |
| GroupApi.Api.AckMessages | src/handler/http_groups.go:1212-1265 | With nothing in between the two are the atomic handler, answer included |
| GroupApi.Api.LeaveGroup | src/handler/http_groups.go:1268-1334 | As the atomic handler |
| GroupApi.Api.KickMember | src/handler/http_groups.go:1574-1639 | As the atomic handler, order of refusals included |
| GroupApi.Api.StartOwnerTransfer | src/handler/http_groups.go:1423-1467 | As the atomic handler |
| GroupApi.Api.DecideOwnerTransfer | src/handler/http_groups.go:1517-1557 | As the atomic handler, with no state or membership check first |
| GroupApi.Api.DissolveGroup | src/handler/http_groups.go:1642-1683 | As the atomic handler |
| GroupApi.Api.ClearPendingRemovals | src/handler/http_groups.go:1381-1418 | As the atomic handler |
| GroupApi.Api.CheckJoinRequest | src/handler/http_groups.go:601-632 | The group checks of a join request, as the atomic handler |
| GroupPush.AppendLive | src/handler/ws.go:794-863 | The checks and the append answer and change the tables as the send endpoint does |
| GroupPush.PushTo | src/handler/ws.go:875-887 | One push is one enqueue step of the sessions, none for the sender |
| GroupPush.PushReachesAtMostOnce | src/handler/ws.go:871-887 | With any session steps between the pushes each member gets the message at most once over all its sessions, and exactly when its channel has room at the moment of its push |
| GroupPush.HandleGroupMessage | src/handler/ws.go:757-892 | With nothing in between: refused exactly as the send endpoint refuses with nothing pushed, or queued and fanned out to the members then in the group |
| GroupPush.FanOutReachesOthersOnce | src/handler/ws.go:871-887 | Of that fan-out each other member online with room gets the message exactly once, the sender and everybody else nothing |
| CleanupSweep.Cleaner.Tick | src/handler/group_cleanup.go:28-43 | A tick reclaims exactly the groups of its page and advances or resets the offset |
| CleanupSweep.Cleaner.CleanPage | src/handler/group_cleanup.go:48-72 | Each listed group is reclaimed once, every other group is unchanged |
| CleanupSweep.PageServesCleanups | src/handler/group_cleanup.go:48-72 | A page does to each group what a served clean-up request does to it, or nothing, and nothing at all to a dissolved one |
| CleanupSweep.FixedSweepVisitsEachOnce | src/handler/group_cleanup.go:28-43 | For n fixed active groups a sweep is exactly n/100 + 1 ticks, which together visit each group once in order |
| CleanupSweep.UndisturbedIsVisited | src/handler/group_cleanup.go:26-43 | A completed sweep visits every group active throughout below which no group goes away |
| CleanupSweep.GrowingSweepSkipsNobody | src/handler/group_cleanup.go:26-43 | If groups are only added mid-sweep, none present at the start is skipped |
| CleanupSweep.DissolutionSkipsTheNext | src/store/group.go:278-302 | After any first page, dissolving one of its groups hides the group next in line from every later page of the sweep |
| CleanupSweep.MissedIffNeverOnPage | src/handler/group_cleanup.go:26-43 | For any changes during a sweep a group active throughout is missed exactly when the number of groups before it never puts it on a tick's page, and then groups before it went away and pulled it behind the offset |
| Session.NeverPanics | src/session/session.go:37-65 | In every interleaving no channel is closed twice or sent on after closing; open channels are exactly those of the users online, each holding at most 256 |
| Session.CurrentIffLive | src/session/session.go:37-65 | A user's current generation is g exactly when the run issued g to them and nothing since replaced or ended it |
| Session.ClosedIffReplacedOrEnded | src/session/session.go:37-65 | A channel is closed exactly when a later step is a connect of its user or the disconnect of that generation |
| Session.OfflineIffLive | src/session/session.go:53-65 | SetOffline reports true exactly for a live generation and otherwise changes nothing |
| Session.OfflineAtMostOnce | src/session/session.go:53-65 | No generation is reported offline twice |
| Session.DeliveredInOrder | src/session/session.go:104-119 | Per generation, accepted messages are those received followed by those buffered, in order, at most 256 buffered |
| Session.NothingSentAfterClosing | src/session/session.go:101-119 | A closed channel accepts nothing more and is never reopened |
| Session.AcceptedIffLiveWithRoom | src/session/session.go:101-119 | A message is accepted exactly when its user has a live session of which fewer than 256 accepted messages are still to be received |
| Session.ReceivesNextUntilEmpty | src/handler/ws.go:217-232 | A writer gets the first accepted message not yet received, closed channel or not, and learns of the closing exactly when it has received all |
| SessionManager.Manager.SetOnline | src/session/session.go:37-51 | The map, the counter and the channels take the connect step; closing needs, and has, an open channel |
| SessionManager.Manager.SetOffline | src/session/session.go:53-65 | They take the disconnect step and the answer is whether the generation was current |
| SessionManager.Manager.EnqueueMessage | src/session/session.go:101-119 | They take the enqueue step; sending needs, and has, an open channel |
| SessionManager.Manager.ReceiveFrom | src/handler/ws.go:217-232 | The writer of a generation takes the oldest buffered message, also after closing |
| SessionManager.Manager.OnlineIDs | src/session/session.go:75-87 | The candidates that are online |
| SessionManager.Manager.OnlineSet | src/session/session.go:89-99 | All users online |
| SeenCache.NonceRejectedIffRecentlyUsed | src/auth/signed_request.go:46-89 | With a clock that does not go back, CheckNonce reports a nonce exactly when the unbounded history shows it used less than a window ago and not evicted since |
| SeenCache.RejectedWasUsed | src/handler/ws.go:104-147 | Neither cache ever reports an identifier that was not used before, whatever the clock does |
| SeenCache.RecentUseIsRejected | src/handler/ws.go:104-147 | Within a window of a use that was not evicted, both caches report it |
| SeenCache.MessageIdRejectedIffKept | src/handler/ws.go:104-147 | Whatever the clock does, isReplay reports a message id exactly when it was used and neither swept nor evicted since, however long ago |
| SeenCache.EachUserBounded | src/auth/signed_request.go:68-83 | No user ever has more than 1000 entries and no user is listed without any |
| SeenCache.EvictionNeedsAThousandRecentChecks | src/auth/signed_request.go:68-83 | An entry is dropped for want of room only when its user has made at least 1000 checks within the last window, whatever other users and the clock did |
| SeenCache.ThousandChecksReopenTheFirst | src/auth/signed_request.go:68-89 | A run that meets that bound: the next check drops the first identifier, which either cache accepts again at the same moment |
| SeenCache.OnlyNoncesExpire | src/handler/ws.go:142-146 | In any history, once all earlier checks of a pair are a window old the nonce is accepted, while a message id still kept is reported |
| SeenTable.Table.CheckUsed | src/auth/signed_request.go:46-89 | The sweeps, the eviction and the lookup over the maps are one step of that cache, for some choice of victim |
| SignedRequests.AcceptedTwiceWasStampedAhead | src/auth/signed_request.go:12-26 | Without an eviction of its nonce a signed request is accepted twice only a whole window apart and only if its stamp is not before the first acceptance, less the wait between the second handling's two checks |
| SignedRequests.UnhurriedAcceptedTwiceWasStampedAhead | src/auth/signed_request.go:12-26 | The same, with the absence of evictions replaced by a rate: no check of the user has 1000 of its own within the window before it |
| SignedRequests.HurriedRequestAcceptedTwiceAtOnce | src/auth/signed_request.go:76-89 | At that rate: a run in which one signed request is accepted twice at one moment |
| SignedRequests.StampedAheadIsAcceptedAgain | src/handler/signed.go:29-36 | Conversely such a request is accepted again when its nonce is checked exactly one window later, whatever came before |
| SignedRequests.TwoRequestsAcceptedTwice | src/auth/signed_request.go:12-26 | A run of two requests: one signed request accepted twice with no eviction |
| SignedRequests.FarStampIsNeverAccepted | src/auth/signed_request.go:20-26 | Stamped more than five minutes before or after the clock a request is never accepted, whatever came before |
| SignedRequests.FarStampLeavesNoTrace | src/handler/signed.go:29-36 | Such a request changes nothing for any other, its nonce included |
| SignedRequests.FreshNonceIsAccepted | src/handler/signed.go:29-36 | Stamped within five minutes a request is accepted when its user has not used its nonce within the last window |
| SignedRequests.AcceptancesLieWithinTenMinutes | src/auth/signed_request.go:20-26 | Any two acceptances of one signed request lie within ten minutes, evictions or not |
| SignedRequests.AcceptedThreeTimesAtMost | src/auth/signed_request.go:12-26 | Of a user below the eviction rate, without delay between its checks, one signed request is accepted three times at most |
| SignedRequests.AcceptedThreeTimes | src/auth/signed_request.go:12-26 | A run of three requests meets that bound |
| DirectMessages.EachSendEndsInOnePlace | src/handler/ws.go:668-733 | Whatever happens between its steps, a send ends in exactly one of live channel, offline queue, or full-queue refusal, and ends after at most three steps of its own |
| DirectRouting.SentAtOnce | src/handler/ws.go:668-733 | With nothing in between a message goes live exactly when the recipient is online with fewer than 256 messages waiting, as the newest there with the offline queue untouched; otherwise it is stored exactly when fewer than 1000 wait, and refused otherwise, the sessions untouched |
| DirectRouting.EndsWhereItsTurnsSay | src/handler/ws.go:668-716 | Whatever happens between its turns, a send goes live exactly when it found the recipient online at its first turn and with room at its second, and is refused only when it then found a thousand messages queued |
| DirectMessages.DeliveredIsInChannel | src/handler/ws.go:668-688 | A send acknowledged as delivered was taken by the writer of the generation then online or is still in its buffer |
| DirectMessages.StoredIsFetchedOrQueued | src/store/store.go:463-537 | Per recipient, stored messages are those fetched followed by those queued, in order, at most 1000 queued |
| DirectMessages.ClearedQueues | src/store/store.go:527-530 | Fetching empties one recipient's queue and no other |
| DirectDelivery.OfflineStore.PushOfflineMsg | src/store/store.go:463-494 | Refused exactly at 1000 messages for that recipient; otherwise one row is appended |
| DirectDelivery.OfflineStore.FetchAndClearOfflineMsgs | src/store/store.go:497-537 | Returns the recipient's rows in id order and leaves the others |
| DirectDelivery.TurnIsItsOwn | src/handler/ws.go:668-733 | A turn of one send is the same among any other sends and leaves them as they are |
| DirectDelivery.Look | src/handler/ws.go:668 | The online check is the first turn of a send; DirectRouting says where that takes it |
| DirectDelivery.TryChannel | src/handler/ws.go:669-688 | The enqueue is its second turn |
| DirectDelivery.StoreOffline | src/handler/ws.go:692-726 | The offline queue is its last turn |
| DirectDelivery.DeliverMessage | src/handler/ws.go:668-733 | The three turns one after another, answering delivered exactly for the channel; DirectRouting.SentAtOnce says when that is |
| DirectRetry.RunsAreDirectRuns | src/handler/ws.go:649-733 | With the replay check in front every run is one of the direct-message model, with one send for each submission that passed |
| DirectRetry.RetryPassesIffForgotten | src/handler/ws.go:104-147 | Whatever became of a message, the next submission under its id gets through exactly when a sweep or an eviction has taken the id since, its own check included |
| DirectRetry.RefusedThenDuplicate | src/handler/ws.go:649-716 | A run: a message refused for a full offline queue is refused as a duplicate when sent again, although the queue has been emptied |
| Contacts.IsMutualContact | src/store/store.go:417-427 | COUNT = 2 means both directions exist and the two differ |
| Contacts.MutualContactIDs | src/store/store.go:432-454 | The join yields the mutual contacts |
| Contacts.BatchAgreesWithPair | src/store/store.go:417-454 | The batch and pair queries disagree exactly on a user with a row to itself |
| Contacts.IncomingIsMutualOrPending | src/store/store.go:394-414 | Whoever has a user as contact is a mutual contact or a pending request, never both |
| Contacts.FilterMutual | src/handler/ws.go:395-411 | Exactly the mutual candidates, in their order |
| Contacts.Snapshot | src/handler/ws.go:496-504 | Every contact is listed, true exactly when online and mutual |
| Contacts.BroadcastAgreesWithSnapshot | src/handler/ws.go:415-504 | A user's presence is broadcast to w exactly when w's snapshot may show that user online |
| RangeHeader.ResumesFromIffSpelled | src/handler/http_download_file.go:126-151 | For every header and size, byte k is the start exactly when the header has the one accepted spelling with number k inside the file; what follows the dash is ignored |
| RangeHeader.OpenRangeRoundTrip | src/handler/http_download_file.go:126-151 | The header "bytes=k-" is accepted with k exactly when k < size |
| ResumableDownload.StoredFile.Download | src/handler/http_download_file.go:75-122 | The copied bytes start at the parsed position; the file goes exactly after its last byte was written without an error |
| ResumableDownload.Resume | src/handler/http_download_file.go:75-122 | A client resuming against that method takes one attempt of the run model |
| ResumableDownload.StoredFile.CleanIfExpired | src/handler/cleanup.go:24-44 | The clean-up removes what was created before its limit, whatever was fetched, and nothing else |
| ResumableDownload.HeldIsGrowingPrefix | src/handler/http_download_file.go:75-115 | Over any attempts and expiries what the client holds only grows and is always a prefix of the file |
| ResumableDownload.AttemptAdvances | src/handler/http_download_file.go:75-122 | An attempt brings exactly as many further bytes as are carried and received, and the file is deleted exactly when its last byte was written without an error |
| ResumableDownload.EnoughAttemptsFinish | src/handler/http_download_file.go:75-122 | As many attempts as the file has bytes are enough if each carries one byte |
| ResumableDownload.RemovedWholeIffGotAll | src/handler/http_download_file.go:104-121 | Once a step has removed the file the client holds all of it exactly when it received all that the deleting attempt wrote or, at an expiry, held it all by then |
| ResumableDownload.LostIffExpiredOrUnreceived | src/handler/cleanup.go:20-44 | The file is gone and the client lacks part of it exactly when some step removed it as an expiry before the client held it all, or as an attempt not received in full |
| ResumableDownload.DeletedBeforeReceived | src/handler/http_download_file.go:104-121 | One attempt in which everything is written and nothing arrives deletes the file |
| ResumableDownload.ExpiredBeforeWhole | src/handler/cleanup.go:20-44 | A run: an interrupted attempt, every written byte received, then the expiry; the file is gone and the client holds a proper prefix |
| ResumableDownload.DeletedOnlyWhenWhole | src/handler/http_download_file.go:104-121 | If the file does not expire and what is written is always received, it is deleted only once the client has all of it |
| ResumableDownload.WholeClientCannotRelease | src/handler/http_download_file.go:76-84 | A client holding a file that the server kept after a late error is refused with an unsatisfiable range from then on, and only the expiry removes the file |

## Left out

- The orphan sweep of the file clean-up (files without a metadata row), failures of os.Remove, and overlapping attempts on one file: attempts and expiries are steps one after another, and an expiry takes file and metadata together.
- Transport, JSON decoding, configuration, TLS, logging and file watching: input and output only.
- Signatures, PEM, Base64, blob hashes and size limits: a modelled request has passed these checks, and its text fields are trimmed.
- SQLite itself: tables are maps and sequences with their keys; a database failure has no effect and ends the request, and is modelled only as a page the reclaimer cannot list.
- The 64-bit width of seqs, epochs and timestamps: numbers are unbounded, except in ParseInt.
- SignedRequests.InTime: subtracts without the 64-bit wrap-around, which matters only for a stamp 2^63 ms before the clock.
- Numbering.AppendAboveFloor: a proposed change, not code of the repository.
- Reader.CarefulReaderMissesNothing: assumes no pass finds more than 10000 unacknowledged messages, since the cap drops messages by design.
- The number of users in the nonce and replay maps: the sweep from 1000 users on removes stale entries only, so it bounds nothing and nothing is claimed.
- A victim is an arbitrary entry: which one Go's map iteration picks is a parameter of each check.
- The remaining tables (key packages, join-request rows and decisions, users, login challenges, tokens, file metadata): one-row lookups and upserts.
- listPendingRemovals, listWelcomes, groupInfo, searchGroups, getOwnerTransfer: plain reads.
- Notifications (notifyGroup, notifyGroupRoles, notifyUser) and the presence ticker's schedule: best-effort, nothing is guaranteed.
- pushPresenceSnapshots: each user's snapshot is modelled; the loop that queues one for every online user is not.
- Orderings that carry no meaning: contact lists are sets, rows of a map are scanned in any order.
- What the blobs mean: the server never parses MLS, so neither does the model.
