# Verification of the mail server's stateful core

Dafny models of the parts of the mail server that keep state under concurrency or against a
misbehaving counterpart, and proofs of what they keep:

- **IMAP synchronisation**: the update queue of a session, the hub that fans updates out, STORE, COPY, MOVE, EXPUNGE
  and APPEND on the id-ordered message table, what a client makes of the numbers it is sent, the wake-up of IDLE,
  and the folder catalogue with its UIDVALIDITY rows.
- **Outbound delivery**: the queue table, the dispatcher, the bounded channel, the worker pool with its semaphores,
  administrators, bounces, the backoff and the rate limiter.
- **The ban ladder**: the staged bans an address earns, and the increment that can interleave with itself.
- **POP3**: the dot-stuffing printer against the receiver of RFC 1939, and the session with its snapshot numbering
  and delete-at-QUIT.

Objects the program updates in place are classes whose methods are proved against specification functions. Protocols
are machines: a `State`, an `Event`, a total `Next` in which an event that is not enabled changes nothing, and a `Run` of
any events in any order. The message table is a sequence of rows in primary-key order, other tables are maps or
sequences of rows; each SQL statement is one atomic step, and store errors are parameters (`failing`, `errs`, `ok`).
Times are nanoseconds. Clocks, name lookups, passwords, random draws and the network's answers are parameters.

| file | content |
|---|---|
| `Wrappers`, `Clock`, `Tally` | shared definitions and counting |
| `MailTable` | the message table |
| `ImapQueue` | session queue, hub, IDLE wake-up |
| `ExpungeReplay` | what replayed EXPUNGE numbers do, in any order |
| `ImapView`, `ImapPending` | convergence of client views; removals by a session with updates pending |
| `ImapCommands`, `ImapArrivals` | number sets, STORE, EXPUNGE, MOVE; COPY, APPEND, delivery, UIDNEXT |
| `MailboxNames`, `Catalogue`, `CatalogueRules` | mailbox names, the catalogue service, its invariant, and when each operation succeeds |
| `RateLimit`, `RateVerdict`, `Backoff`, `Mailer` | sending limits, what the verdicts mean, retry delay, the walk over mail exchangers |
| `OutboundQueue`, `OutboundManager` | the queue table and the manager's operations on it |
| `OutboundMachine`, `OutboundPool`, `OutboundDomains`, `OutboundOwnership`, `OutboundLife`, `OutboundOrder` | the queue at work, and what it keeps |
| `BanStore`, `BanSchedule`, `BanIncrement`, `BanSaves` | the ban ladder, its schedule, the interleaved increment and the interleaved write-back |
| `Pop3Wire`, `Pop3Session`, `Pop3Replies`, `Pop3Push` | the response body, the session, what each command answers, what QUIT tells IMAP |

## Where the code falls short of its comments or of a standard

For each of these the exact condition is proved under which the code does meet the property, or, where it says so, an example
or a bound that is attained.

- EXPUNGE and MOVE emit the numbers of before the deletion in ascending order. RFC 3501 section 7.4.1 has a client apply
  them one by one, which gives the server's list exactly when at most one message goes
  (`ExpungeReplay.AscendingReplayIff`, `ImapView.RemovalConvergesIff`). Of all orders only the descending one is always
  right (`ExpungeReplay.AnyOrderReplayIff`).
- QUIT of a POP3 session pushes its numbers in the order of a map: right for IMAP clients exactly in descending order,
  so in every order exactly for at most one message, and with a stale snapshot only if the message still stands there
  (`Pop3Push.PushedOrderIff`, `Pop3Push.EveryOrderIff`, `Pop3Push.StaleNumberIff`).
- A session that expunges one message with updates still queued ends in step exactly if no EXISTS is queued, the queued
  EXPUNGEs took the messages from its own number on, and the queued FETCHes are about messages in front of it
  (`ImapPending.PendingActorConvergesIff`).
- A range written the wrong way round, a range that starts above the mailbox, and one with "*" in front, are not always read
  as RFC 3501 reads them (`ImapCommands.RangeFollowsRfcIff`, `ImapCommands.LoneStarFollowsRfcIff`).
- UIDNEXT falls exactly when the newest message of a mailbox is removed (`ImapArrivals.RemovalKeepsUidNextIff`).
- The flags a STORE reports are the stored ones exactly if no statement with work to do failed; on a failure it answers
  NO and reports the flags it asked for all the same (`ImapCommands.ReportsAreStoredIff`, `ImapCommands.Store`).
- The server-side move files messages under the name as given, not the resolved one
  (`Catalogue.ServiceMoveSoundIff`); its callers pass stored names.
- The semaphore meant to limit connections per domain is keyed by the recipient address: connections to a domain stay
  within the limit exactly if there are no more workers than that (`OutboundDomains.DomainsLimitedIff`).
- Retry and Cancel do not look whether a row is being sent; doing so is exactly what breaks the single ownership
  (`OutboundOwnership.AdminOwnedIff`, `OutboundOwnership.RetryHandsOutTwice`).
- A row whose update is lost stays as being sent for good unless an administrator steps in
  (`OutboundOwnership.RestingIff`, `OutboundOwnership.AtRestStaysAtRest`).
- The backoff is shifted in 64 bits before it is capped: for a base that fits, all delays up to an attempt are the intended
  ones exactly if it can be shifted that far; the first that is not is negative (`Backoff.DelaysIntendedIff`,
  `Backoff.FirstOverflowIsNegative`).
- Fixed windows let through up to three, and two, times the limits, which is attained (`RateLimit.MinuteBoundAttained`,
  `RateLimit.DayBoundAttained`). The minute limit holds in every minute exactly if twice the day limit, less one, is within it
  (`RateLimit.MinuteLimitHoldsIff`).
- Overlapping first failures of an address can be counted as any smaller number (`BanIncrement.CountReachableIff`), and
  overlapping triggers as fewer, exactly if one writes back a row that another had replaced (`BanSaves.TriggersCountedIff`).
- The size POP3 announces counts the stuffed dots (`Pop3Wire.AnnouncedSize`), and TOP of a whole message differs from RETR
  where there is no blank line, nothing in front of it, or, in CR LF, a newline in front of it
  (`Pop3Wire.TopAgreesWithRetrIff`).

## Model

| member | source | states |
|---|---|---|
| ImapQueue.TakenIsLongest | internal/imap_server/session.go:136-161 | what a poll takes and leaves make up the queue; with EXPUNGE barred it takes none of them and stops only in front of one |
| ImapQueue.NothingIsLost | internal/imap_server/session.go:126-161 | over any pushes and polls, what was written followed by what is queued is what was pushed, in order |
| ImapQueue.ImapSession.PushUpdate | internal/imap_server/session.go:125-134 | the update goes to the end of the queue and the wake-up is set |
| ImapQueue.ImapSession.TakeUpdates | internal/imap_server/session.go:136-161 | the loop takes and leaves what Taken and Left say |
| ImapQueue.ImapSession.Select | internal/imap_server/session.go:388-407 | the session joins the hub of the new mailbox, made if need be, and leaves its former one; no other session, no other hub and no queue changes |
| ImapQueue.ImapSession.Unselect | internal/imap_server/session.go:412-425 | the session leaves its hub and drops its queue |
| ImapQueue.MailboxHub.Enqueue | internal/imap_server/session.go:67-80 | every session but the source gets the update, once, at the end of its queue |
| ImapQueue.HubIndex.HubForOrCreate | internal/imap_server/server.go:82-93 | the hub there was, or a new empty one entered under the key |
| ImapIdle.NoLostWakeup | internal/imap_server/session.go:125-134 | an IDLE blocked with updates queued has the wake-up in the channel or a pusher about to send it; nothing is lost |
| ImapIdle.BlockedIdleDrains | internal/imap_server/session.go:1122-1134 | such an IDLE gets everything out without a further push |
| ExpungeReplay.SurvivorsAre | internal/store/mail_store.go:159-165 | after the DELETE exactly the messages at the other positions remain |
| ExpungeReplay.DescendingReplay | internal/imap_server/session.go:994-1005 | replayed highest number first, EXPUNGE always gives the server's list |
| ExpungeReplay.AscendingReplayIff | internal/imap_server/session.go:994-1005 | replayed in the order emitted, it does exactly for at most one number |
| ExpungeReplay.SecondIsMissed | internal/imap_server/session.go:994-1005 | with two or more numbers the message meant by the second is still in the client's view |
| ExpungeReplay.AnyOrderReplayIff | internal/imap_server/server.go:138-150 | distinct numbers replayed in any order leave exactly the other messages if and only if the order is descending |
| ImapView.StepConverges | internal/imap_server/session.go:67-161 | every tame command keeps each session's remaining queue leading to the server's list |
| ImapView.ViewsConverge | internal/imap_server/session.go:67-161 | in every reachable state each session that reads its remaining queue ends with exactly the id-ordered list, each number naming the right message on the way |
| ImapView.RemovalConvergesIff | internal/imap_server/session.go:956-1007 | from a reachable state with a session listening, a removal keeps that exactly when it takes at most one message |
| ImapView.ManyRemovedDiverges | internal/imap_server/session.go:933-942 | a removal of several messages puts every session out of step, the acting one too |
| ImapView.ListStaysOrdered | internal/store/mail_store.go:183-197 | the listing is in strict id order in every reachable state |
| ImapView.ViewsStaySorted | internal/imap_server/session.go:136-182 | in every reachable state each session's view is in strict id order and holds nothing beyond the arrivals it knows of |
| ImapView.PollShowsTheList | internal/imap_server/session.go:136-182 | in every state a tame run reaches, a poll that allows EXPUNGE leaves the client with exactly the server's list and nothing pending |
| ImapView.BarredPollShowsAPart | internal/imap_server/session.go:136-182 | one that does not gives the client what stands before the first EXPUNGE, and keeps the rest in order |
| ImapView.ListIs | internal/store/mail_store.go:159-197 | arrivals stand at the end of the list, a removal takes exactly the messages at its positions, and nothing else changes the list |
| ImapPending.ExistsQueueFails | internal/imap_server/session.go:994-999 | a session with an EXISTS queued, whatever else is, never ends in step after removing one message itself |
| ImapPending.ReadIff | internal/imap_server/session.go:163-182 | a queue without EXISTS is read to the end exactly if its numbers can be replayed and each FETCH names its message |
| ImapPending.AheadIff | internal/imap_server/session.go:994-1005 | a number applied ahead of others does what it would behind them exactly if they take the messages that stand from it on |
| ImapPending.PendingActorConvergesIff | internal/imap_server/session.go:966-1005 | from any reachable state and for any queue: a session that removes one message itself ends in step exactly if no EXISTS is queued, the queued EXPUNGEs took the messages from its number on, and the queued FETCHes are in front of it |
| ImapCommands.RangeFollowsRfcIff | internal/imap_server/session.go:438-463 | a sequence or UID set of one range picks the messages of RFC 3501 section 9 exactly if: star in front, at most one message and not above the end; number to star, the number not above the mailbox; number to number, not turned round or with no message between |
| ImapCommands.LoneStarFollowsRfcIff | internal/imap_server/session.go:438-463 | a lone star, of sequence numbers or UIDs, is read rightly exactly in a mailbox of at most one message |
| ImapCommands.RangesFollowRfc | internal/imap_server/session.go:438-463 | a set whose ranges are each read rightly is |
| ImapCommands.ToggledAre | internal/imap_server/session.go:735-761 | a statement's id list holds a message exactly if STORE matches it and is to change that column to that value |
| ImapCommands.SixUpdatesArePointwise | internal/imap_server/session.go:735-776 | the six batched updates give every matched message the flags of RFC 3501 section 6.4.6, save those of failed statements, and change nothing else |
| ImapCommands.FailureShows | internal/imap_server/session.go:762-776 | a statement with work to do failed exactly when the table falls short of what was asked |
| ImapCommands.Classify | internal/imap_server/session.go:735-761 | the loop sorts the ids into the six lists |
| ImapCommands.MakeChange | internal/imap_server/session.go:707-731 | set, add and remove ask of each flag what they should, flags taken in any order |
| ImapCommands.Store | internal/imap_server/session.go:670-808 | STORE stores the pointwise result, answers NO exactly if it fell short, and sends the same reports to this session unless silent and to all others |
| ImapCommands.ReportsAreStoredIff | internal/imap_server/session.go:762-806 | the flags reported are those stored for the message at the reported place, for every report, exactly if no statement with work to do failed |
| ImapCommands.ReportsTellColumns | internal/imap_server/session.go:779-806 | where no statement with work to do fails, each report names a matched message and its number, and has \Seen, \Flagged and \Deleted exactly as the columns of that message then stand, and no other flag |
| ImapCommands.FlagsAreTold | internal/imap_server/session.go:1181-1193 | the flags listed for a message are exactly those its columns hold, each once |
| ImapCommands.ReportsCover | internal/imap_server/session.go:695-806 | the reports are of exactly the matched messages, each once, in the order of the listing, whether or not a flag changes |
| ImapCommands.StoreColumns | internal/imap_server/session.go:707-776 | column by column: set gives a matched message exactly the flags named, add and remove change only those named; a column whose statement failed stays, as do all other messages, and content, owner and folder of every row |
| ImapCommands.SurvivesEitherWay | internal/imap_server/session.go:966-985 | a message survives the deletion of picked ids exactly if its number is not among the picked numbers |
| ImapCommands.RemovalLeavesSurvivors | internal/imap_server/session.go:956-993 | the new listing is what deleting the emitted numbers from the old one leaves |
| ImapCommands.EmittedNumbersReplayIff | internal/imap_server/session.go:956-1005 | a client in step that replays the emitted numbers gets the new listing exactly for at most one |
| ImapCommands.DoomedGo | internal/imap_server/session.go:966-993 | exactly the messages of that user and folder go that are marked \Deleted and, if there is a UID set, are in it |
| ImapCommands.Expunge | internal/imap_server/session.go:953-1007 | a row goes exactly if it is of this user and mailbox, marked \Deleted and in the UID set if there is one; told, ascending, are exactly the numbers of those rows, here and to the others; nothing happens read-only or on a failed DELETE |
| ImapCommands.Move | internal/imap_server/session.go:879-951 | exactly the matched messages whose update succeeds change folder; COPYUID has their UIDs on both sides; numbers to the source mailbox, a count to the destination; nothing read-only or without a destination |
| ImapCommands.MoveLeavesOrStays | internal/imap_server/session.go:901-918 | the source listing loses exactly the moved messages, unless moved into itself |
| ImapCommands.MoveTakes | internal/imap_server/session.go:895-918 | row by row, a matched message of the listing whose update succeeds has the new folder and is otherwise the same; every other row is unchanged |
| ImapCommands.MoveNumbers | internal/imap_server/session.go:895-942 | the numbers told are exactly those of the messages moved, ascending |
| ImapArrivals.PickedAre | internal/imap_server/session.go:828-857 | the copied messages are exactly those at the matched places |
| ImapArrivals.CopyTakes | internal/imap_server/session.go:829-857 | copied are exactly the listed messages in the set whose insert goes through |
| ImapArrivals.CopiesKeep | internal/imap_server/session.go:836-850 | copy by copy: content, \Seen and \Flagged of its source, \Deleted off, owner and destination as asked, ids counting up |
| ImapArrivals.Copy | internal/imap_server/session.go:811-876 | one new row per matched message whose insert succeeds, in order, with its content, \Seen and \Flagged, not \Deleted, filed in the destination; former rows stay; COPYUID has the UIDVALIDITY and the two UID sets; a count to every session of the destination |
| ImapArrivals.CopyUidPairs | internal/imap_server/session.go:829-875 | RFC 4315 section 3: in ascending order the two sets have equal length, and beside each source UID stands the UID of a row with the content, \Seen and \Flagged of that very message, not \Deleted, for any failing inserts |
| ImapArrivals.CopiesArrive | internal/imap_server/session.go:836-857 | copies stand in order at the end of the destination's listing, no other listing changes |
| ImapArrivals.Append | internal/imap_server/session.go:1010-1115 | one row with the next UID and the flags given, APPENDUID, and the new count pushed; nothing on an unknown mailbox, a message that does not parse or a failed insert |
| ImapArrivals.SeqOf | internal/imap_server/session.go:1195-1207 | the place of the message in the listing, 0 exactly if it is not there |
| ImapArrivals.PushNewMessage | internal/imap_server/server.go:101-116 | every session gets the new count |
| ImapArrivals.PushFlagsChanged | internal/imap_server/server.go:118-136 | every session gets the message's number with \Seen, \Flagged and \Deleted exactly as its columns stand, or nothing if the mailbox does not hold it |
| ImapArrivals.PushExpunged | internal/imap_server/server.go:138-150 | every session gets one EXPUNGE per number, in order |
| ImapArrivals.UidNextIsAhead | internal/imap_server/service.go:99-121 | the announced UIDNEXT is above every UID of the mailbox and not above the next one assigned |
| ImapArrivals.RemovalKeepsUidNextIff | internal/store/mail_store.go:210-220 | a removal keeps UIDNEXT exactly if it spares the newest message |
| MailTable.FilterKeeps | internal/store/mail_store.go:183-197 | a listing holds exactly the rows of user and folder, in id order |
| MailTable.ListingWithout | internal/store/mail_store.go:159-165 | deleting rows and listing commute |
| MailTable.ListingMapped | internal/store/mail_store.go:117-146 | updating flags and listing commute |
| MailTable.MailStore.Create | internal/store/mail_store.go:64-74 | a row is added at the end under the next id |
| MailTable.MailStore.SetColumn | internal/store/mail_store.go:117-146 | exactly the rows in the list get the value |
| MailTable.MailStore.DeleteMany | internal/store/mail_store.go:159-165 | exactly the rows in the list go |
| MailboxNames.TrimIffBare | internal/imap_server/service.go:74-78 | a name is left alone by trimming exactly when it has no space at its ends; trimming twice is trimming once |
| CatalogueRules.TrimIsTheMiddle | internal/imap_server/service.go:74-78 | trimming takes the white space off both ends of a name and nothing else |
| CatalogueRules.FoldsIff | internal/imap_server/service.go:83-85 | a name is taken for INBOX exactly if each of its five letters is the right one, small or capital |
| CatalogueRules.ByteLengthIsUtf8 | internal/imap_server/service.go:180-183 | the length limited is that of the UTF-8 form |
| CatalogueRules.ValidIff | internal/imap_server/service.go:179-193 | a name is valid exactly if its UTF-8 form has 1 to 64 bytes, it has no slash and no control character, and is no dot name |
| Catalogue.MailboxService.EnsureSystem | internal/store/mailbox_store.go:56-82 | the loops add exactly the missing system mailboxes |
| Catalogue.WithSystemHas | internal/store/mailbox_store.go:56-82 | afterwards the user has the system mailboxes and what there was, each once |
| Catalogue.SystemOnce | internal/store/mailbox_store.go:56-82 | where the system mailboxes are there nothing is added |
| CatalogueRules.SystemRows | internal/store/mailbox_store.go:56-82 | what is added are rows of this user for the system names not there yet, subscribed, each but INBOX with its special use; the rows there were stay as they are |
| CatalogueRules.CanonicalIff | internal/imap_server/service.go:72-91 | a trimmed name resolves to INBOX in whatever case, else exactly to a system mailbox or one of the user's of that very name |
| Catalogue.CanonicalIsStored | internal/imap_server/service.go:72-91 | a resolved name is an existing mailbox of the user, spelled as stored, and resolves to itself |
| Catalogue.StoredIsCanonical | internal/imap_server/service.go:72-91 | a stored or system name resolves to itself |
| Catalogue.MailboxService.Create | internal/imap_server/service.go:195-215 | Create does what CreateStep says, error by error |
| Catalogue.MailboxService.Delete | internal/imap_server/service.go:217-227 | Delete does what DeleteStep says, error by error |
| Catalogue.MailboxService.Rename | internal/imap_server/service.go:229-249 | Rename does what RenameStep says, error by error |
| Catalogue.MailboxService.Move | internal/imap_server/service.go:260-279 | the loop moves the user's own messages up to the first failure, and succeeds exactly if there is none and the name resolves |
| Catalogue.MailboxService.UidValidity | internal/store/mailbox_state_store.go:26-56 | the stored value, or a drawn one, never zero, now stored |
| CatalogueRules.CreateSucceedsIff | internal/imap_server/service.go:195-215 | creating succeeds exactly for a valid name that is not INBOX in any case and no mailbox of the user has; an invalid name has its own error and changes nothing |
| CatalogueRules.CreateAddsOne | internal/imap_server/service.go:207-214 | it adds one subscribed mailbox of the trimmed name without a special use, beside missing system ones, and nothing else |
| CatalogueRules.DeleteSucceedsIff | internal/imap_server/service.go:217-227 | deleting succeeds exactly on an existing mailbox that is not a system one and holds no message; unknown, system and not empty each have their error exactly then, and nothing goes |
| CatalogueRules.DeleteTakesOne | internal/store/mailbox_store.go:123-142 | it takes away that mailbox row and its UIDVALIDITY row, and nothing else |
| CatalogueRules.RenameSucceedsIff | internal/imap_server/service.go:229-249 | renaming succeeds exactly from an existing mailbox that is not a system one to a valid name that is not INBOX and not taken; each error exactly in its case, and nothing changes |
| CatalogueRules.RenameChangesNames | internal/store/mailbox_store.go:144-162 | row by row: that mailbox and the messages in it get the new name, its UIDVALIDITY goes, everything else stays |
| CatalogueRules.MovedIff | internal/imap_server/service.go:266-277 | the service moves exactly the listed messages of the user up to the first failed update |
| CatalogueRules.MoveRefiles | internal/imap_server/service.go:260-279 | row by row: those get the folder as the caller spelt it if the name resolves, everything else stays |
| CatalogueRules.UidValidityAnswers | internal/store/mailbox_state_store.go:30-56 | the answer is the stored value, or if none or zero is stored the draw, one for a zero draw; it is then stored under that key, and no other key changes |
| Catalogue.CreateSound | internal/imap_server/service.go:195-215 | creating a mailbox keeps names unique and clean |
| Catalogue.DeleteSound | internal/store/mailbox_store.go:123-142 | deleting a mailbox leaves no message and no UIDVALIDITY behind without it |
| Catalogue.RenameSound | internal/store/mailbox_store.go:144-162 | renaming keeps names unique, messages housed and UIDVALIDITY rows with their mailboxes |
| Catalogue.ServiceMoveSoundIff | internal/imap_server/service.go:260-279 | the service move keeps the catalogue sound exactly if the destination is given as stored, or resolves to nothing, or nothing moves |
| Catalogue.StepSoundIff | internal/imap_server/service.go:195-279 | any operation keeps the catalogue sound exactly if it is not such a move |
| Catalogue.CatalogueStaysSound | internal/imap_server/service.go:72-91 | in every reachable state names are unique per user, only INBOX folds to INBOX, every message has an existing folder, and UIDVALIDITY rows are non-zero and only for existing mailboxes |
| Catalogue.ValidityStepIff | internal/store/mailbox_state_store.go:26-56 | one operation leaves a UIDVALIDITY as it is exactly if it does not delete or rename that mailbox, and else removes it |
| Catalogue.ValidityIsConstant | internal/store/mailbox_state_store.go:26-56 | over any run that does not retire the mailbox, every answer is the value first stored |
| Catalogue.RenameCarriesMail | internal/store/mailbox_store.go:144-162 | a rename carries exactly the mailbox's messages, in order, and touches no other mailbox |
| Catalogue.DeleteUndoesCreate | internal/imap_server/service.go:195-227 | deleting a mailbox just created gives back the tables |
| Catalogue.RenameBackRestores | internal/store/mailbox_store.go:144-162 | renaming back restores every row but the UIDVALIDITY |
| RateLimit.Limiter.CheckRateLimit | internal/outbound/manager.go:258-285 | verdict and windows are those of the specification, no two users sharing a window |
| RateVerdict.WindowCounts | internal/outbound/manager.go:258-285 | after any history a user's two counters are exactly the messages let through since the two windows began; refused calls do not count |
| RateVerdict.VerdictIff | internal/outbound/manager.go:274-284 | a call is let through exactly if, since two moments of the last minute and the last day, fewer than the limits were, a limit of zero or less aside; the minute's refusal comes first |
| RateVerdict.RefusedOnlyAtTheLimit | internal/outbound/manager.go:274-281 | nobody is refused who had not a limit's worth of messages let through within the last minute, or the last day |
| RateVerdict.UsersAreIndependent | internal/outbound/manager.go:263-267 | verdicts and windows of a user are those of the user's own calls alone |
| RateLimit.MinuteBound | internal/outbound/manager.go:258-285 | for calls of any users at non-decreasing times, a user gets at most 3 * MaxPerMin - 1 through in any half-open 60 s |
| RateLimit.DayBound | internal/outbound/manager.go:258-285 | and at most 2 * MaxPerDay - 1 in any half-open 24 h |
| RateLimit.MinuteBoundAttained | internal/outbound/manager.go:266-273 | for every positive minute limit, the day limit leaving room, some history reaches the minute bound |
| RateLimit.DayBoundAttained | internal/outbound/manager.go:266-273 | for every positive day limit some history reaches the day bound, spread over minutes where there is a minute limit, as long as the minutes fit into a day |
| RateLimit.ShippedDayBoundAttained | config/config.go:251-252 | the shipped limits let 999 messages through in 24 hours |
| RateLimit.MinuteLimitHoldsIff | internal/outbound/manager.go:258-285 | the minute limit holds in every half-open minute of every history exactly if the day limit is positive and twice it, less one, is within the minute limit |
| RateLimit.DayLimitHoldsIff | internal/outbound/manager.go:258-285 | where the minutes fit into a day, the day limit holds in every half-open day exactly if it is one |
| RateLimit.BurstAccepted | internal/outbound/manager.go:275-284 | a burst that fits into both windows is accepted in full |
| Backoff.DelaysIntendedIff | internal/outbound/manager.go:396-402 | for any positive base, all stored delays up to an attempt are min(base * 2^(attempts-1), one day) exactly if the base is stored unwrapped, or as a day or more, and the stored base shifted that far is below 2^63 |
| Backoff.IntendedDoubles | internal/outbound/manager.go:394-402 | the delay meant is the base after the first attempt and then twice the one before, up to a day |
| Backoff.DelaysIntendedIffFits | internal/outbound/manager.go:396-402 | for a base that fits, exactly if the last shifted count fits 64 bits |
| Backoff.FirstOverflowIsNegative | internal/outbound/manager.go:396-402 | the first delay shifted out of the range is negative |
| Backoff.DelayGrows | internal/outbound/manager.go:396-402 | while it fits, the delay is positive, at most a day, and never shorter than the one before |
| Backoff.DefaultsFit | config/config.go:248-249 | the shipped base and 12 attempts fit, as does any attempt up to the 25th |
| Backoff.DefaultsWrapAt26 | internal/outbound/manager.go:396-402 | with the shipped base the 26th attempt is due in the past |
| Backoff.DelayVanishes | internal/outbound/manager.go:396-402 | from the 65th attempt on the delay is zero, whatever the base |
| Mailer.WalkHosts | internal/outbound/mailer.go:110-131 | the outcome is that of the first host that accepts or refuses for good, else of the last |
| Mailer.Deliver | internal/outbound/mailer.go:86-132 | the relay's outcome, else a permanent error for an address without domain, else that of the lookup or the walk |
| Mailer.OutcomeIff | internal/outbound/mailer.go:110-131 | accepted exactly if some host accepts before any refuses for good; failed for good exactly if some host refuses for good before any accepts |
| Mailer.OutcomeIsTheHosts | internal/outbound/mailer.go:110-131 | the response is that of the accepting host, the error that of the refusing one; a broken transaction is a temporary error |
| OutboundQueue.ScanIsFair | internal/store/outbound_store.go:49-60 | the first of every scan has been due as long as any message, and one left out no longer than those listed |
| OutboundQueue.ScanIsExact | internal/store/outbound_store.go:49-60 | only pending or deferred rows whose time has come are listed, and all of them where there is room for more |
| OutboundQueue.OutboundStore.Claim | internal/store/outbound_store.go:91-98 | the claim succeeds exactly if the row was pending or deferred; its status becomes sending and nothing else changes |
| OutboundManager.ScanClaimsAll | internal/outbound/manager.go:297-315 | nothing coming between, a scan claims exactly the listed rows whose claim does not error, in order, and touches no other |
| OutboundManager.Manager.ProcessDue | internal/outbound/manager.go:287-316 | the scan loop does that on any due list, and hands those items on |
| OutboundManager.Manager.DeliverOne | internal/outbound/manager.go:353-409 | the row written is the settled one, a bounce is filed exactly after a saved failure of a local sender's message, and the semaphore is given back on every path |
| OutboundManager.Manager.Bounce | internal/outbound/manager.go:411-444 | one message in the sender's INBOX, if the sender is local |
| OutboundManager.Manager.Retry | internal/outbound/manager.go:446-463 | the row is pending with no attempts, whatever it was |
| OutboundManager.Manager.Cancel | internal/outbound/manager.go:465-479 | the row is canceled, unless it is missing or sent |
| OutboundManager.AttemptDecides | internal/outbound/manager.go:359-403 | an attempt ends sent exactly if a host accepts in time, failed exactly if refused for good or out of attempts, else deferred |
| OutboundManager.AttemptWrites | internal/outbound/manager.go:359-403 | field by field what an attempt writes: one attempt more, response or error text, status, completion time; id, addresses and content stay |
| OutboundManager.DeferredAsIntended | internal/outbound/manager.go:394-402 | a message deferred by its n-th attempt is due after exactly base * 2^(n-1) minutes, at most a day, for every base and n that fit |
| OutboundManager.FirstDeferral | internal/outbound/manager.go:394-402 | after the first attempt that is the base, at most a day |
| OutboundManager.DeferralsDouble | internal/outbound/manager.go:394-402 | of two successive deferrals the second waits twice as long as the first, up to a day |
| OutboundManager.RetriedIsDue | internal/outbound/manager.go:446-463 | a retried message is pending, due from now on, without attempts, errors, response or completion time; its content stays |
| OutboundManager.CanceledIsNeverDue | internal/outbound/manager.go:465-479 | a canceled message is due at no time and completed now; its attempts and content stay |
| OutboundManager.DeferredWithinADay | internal/outbound/manager.go:394-402 | a deferred message is due again later and within a day, while the backoff fits |
| OutboundMachine.StepGood | internal/outbound/manager.go:353-479 | every step keeps the row invariants and those of every copy held |
| OutboundMachine.RowsStayGood | internal/outbound/manager.go:353-479 | under every interleaving, admin reads and writes split and any update failing: attempts never exceed the maximum, open rows are below it, a completion time is set exactly on sent, failed and canceled rows |
| OutboundOrder.OthersStay | internal/outbound/manager.go:292-479 | no step touches a row other than the one it adds, claims, saves or administers |
| OutboundOrder.EnqueuedIsDue | internal/outbound/manager.go:179-234 | a message handed in gets a new row, due at once, without attempts, with its addresses and content |
| OutboundOrder.ClaimMarks | internal/outbound/manager.go:303-312 | a claim changes a row's status alone, and hands on the copy scanned, marked sending |
| OutboundOrder.DeliveryIsSaved | internal/outbound/manager.go:353-409 | from a worker's delivery to the saved row: one attempt more, sent, failed or deferred by outcome and attempts, content unchanged, and a bounce next exactly on failure |
| OutboundOrder.FirstClaimedFirstTaken | internal/outbound/manager.go:287-330 | under every interleaving workers take messages in the order claimed, and what is claimed and not taken is on its way |
| OutboundPool.ConnectionsAreLimited | internal/outbound/manager.go:318-336 | under every interleaving a semaphore counts exactly the deliveries under way to its recipient address, never above the limit |
| OutboundDomains.DomainsLimitedIff | internal/outbound/manager.go:318-357 | connections to every domain, or to the relay, stay within the limit in every run exactly if there are no more workers than that |
| OutboundDomains.TooManyConnected | internal/outbound/manager.go:353-355 | with more workers, a run that delivers to one more address of one domain than the limit |
| OutboundPool.ClaimsAreDeliveries | internal/outbound/manager.go:303-357 | under every interleaving each successful claim has had its one deliver call, or waits for it in one place |
| OutboundPool.WorkersLeaveLast | internal/outbound/manager.go:122-144 | the channel is closed exactly when the dispatcher has stopped, and a worker leaves only once it is closed and drained |
| OutboundPool.NoDeadlock | internal/outbound/manager.go:320-357 | in every reachable state in which a worker is busy or a job is queued some worker can go on |
| OutboundPool.StopIsNeverStuck | internal/outbound/manager.go:147-154 | asked to stop, the manager can in every reachable state go on until it has |
| OutboundPool.InnerRunsEnd | internal/outbound/manager.go:102-154 | between scans it takes at most as many steps as its load |
| OutboundOwnership.OwnershipHolds | internal/outbound/manager.go:292-316 | if administrators keep off rows being sent, a row is sending exactly when one holder has it or its update was lost |
| OutboundOwnership.ExclusiveOwnership | internal/outbound/manager.go:292-409 | with all updates succeeding, a row is sending if and only if exactly one of dispatcher, channel and workers holds it |
| OutboundOwnership.AdminOwnedIff | internal/outbound/manager.go:446-479 | a retry or cancel keeps that exactly if the row is not being sent |
| OutboundOwnership.RetryHandsOutTwice | internal/outbound/manager.go:446-463 | after a retry of a message being sent, the next scan makes a second holder |
| OutboundOwnership.StopLeavesOnlyLost | internal/outbound/manager.go:147-154 | when Stop returns every claim has been delivered, and a row is left sending exactly if its update was lost |
| OutboundOwnership.StopLeavesNoneSending | internal/outbound/manager.go:147-154 | so none is, in a gentle run that loses no update and began with none |
| OutboundOwnership.AtRestStaysAtRest | internal/store/outbound_store.go:91-98 | under every interleaving a message neither open nor held is never delivered again unless retried, and untouched by administrators its row never changes |
| OutboundOwnership.CanceledRests | internal/outbound/manager.go:465-479 | a message canceled while it waits is neither open nor held |
| OutboundOwnership.RestingIff | internal/store/outbound_store.go:91-98 | in a gentle run a message rests exactly if it is not open, and not being sent but for a lost update |
| OutboundLife.StepLevel | internal/outbound/manager.go:353-409 | without administrators the copies the pool holds agree with their rows on the attempts |
| OutboundLife.DeliveriesAreAccounted | internal/outbound/manager.go:353-409 | every delivery is counted in the row, under way, or in a lost update |
| OutboundLife.AttemptsAreBounded | internal/outbound/manager.go:353-409 | left alone, a message is delivered at most as often as it has attempts left, whatever updates are lost |
| OutboundLife.BouncesAreAccounted | internal/outbound/manager.go:383-444 | a local sender's failed message has its bounce filed, lost or on its way, and no other message has one |
| OutboundLife.BouncedOnceIff | internal/outbound/manager.go:383-444 | at most one bounce is ever made; in the end exactly one if the message failed and its sender is local, none otherwise |
| BanStore.BanTable.IncrementFail | internal/store/ban_store.go:152-186 | alone, the three statements count one failure and return the count; on an error at any of them what was done by then stays and the count is 0 |
| BanStore.BanTable.BanIP | internal/store/ban_store.go:77-99 | a manual ban replaces the row, counters at zero; bad arguments change nothing |
| BanStore.BanTable.RecordAuthFailure | internal/store/auth_guard.go:22-81 | the row and the answer after a failure, also for an error at each of the store's statements |
| BanLadder.ClosedForm | internal/store/auth_guard.go:34-81 | from a clean record FailCount is the number of failures, BanCount the number at or above the threshold with no ban running, and a ban runs exactly if the history issued one that has not expired |
| BanSchedule.StagesAre | internal/store/ban_store.go:26-42 | the first ban lasts the configured minutes, or 30, the second 3 hours, the third 90 days, every further one 180 days |
| BanSchedule.BanIsRecorded | internal/store/auth_guard.go:46-80 | a ban is issued exactly by a trigger past the free ones, runs from its stamp for the stage of that trigger, and records stage, kind and counts; else expiry and reason stay |
| BanSchedule.FirstBanComesAt | internal/store/auth_guard.go:34-80 | unknown users: the failure that reaches the threshold brings the first ban; known users: the third failure after it; earlier failures are not answered "banned" and leave no expiry |
| BanSchedule.TurnedAwayIff | internal/store/ban_store.go:142-150 | an address is turned away exactly while some ban issued to it has not reached its end |
| BanLadder.RunningBanIsLeftAlone | internal/store/auth_guard.go:47-50 | a failure during a ban changes the failure count only |
| BanLadder.BansNeverShrink | internal/store/ban_store.go:26-42 | within a run of known, or of unknown, users no later ban is shorter and none exceeds 180 days |
| BanLadder.LadderRisesIff | internal/store/ban_store.go:26-42 | the ladder rises exactly for a first ban of at most three hours |
| BanLadder.LadderCappedIff | internal/store/ban_store.go:26-42 | no ban exceeds 180 days exactly for a first ban of at most 180 days |
| BanLadder.MixedRunsFallIff | internal/store/auth_guard.go:56-68 | a known user's trigger right after a ban for an unknown name earns a ban as long exactly from the seventh trigger on |
| BanIncrement.FreshAddress | internal/store/ban_store.go:152-186 | every interleaving of N calls leaves one row that counts N less the calls whose INSERT lost; all N exactly if at most one UPDATE missed |
| BanIncrement.KnownAddress | internal/store/ban_store.go:158-186 | where the row existed the count is exactly N more and nothing else changes |
| BanIncrement.CountReachableIff | internal/store/ban_store.go:158-186 | for a fresh address the counts that some interleaving of N calls ends with are exactly 1 to N |
| BanSaves.SavedAlone | internal/store/auth_guard.go:52-80 | with nothing between its statements a call writes back what the failure alone makes of the row |
| BanSaves.TriggersCountedIff | internal/store/auth_guard.go:43-80 | in every interleaving BanCount is at most the triggers, and all of them exactly if none wrote back a row that another had replaced |
| BanSaves.FailuresCountedIff | internal/store/auth_guard.go:38-80 | in every interleaving FailCount is the failures counted, less those the latest write-back took out; all of them exactly if that wrote an up-to-date count |
| BanSaves.OverlappingTriggers | internal/store/auth_guard.go:43-80 | any two triggers are counted as one by some interleaving |
| Pop3Wire.WriteDotStuffed | internal/pop3_server/server.go:588-606 | the loop writes the stuffed lines, up to the limit |
| Pop3Wire.WriteRetrBody | internal/pop3_server/server.go:470-473 | the stuffed lines and the terminator |
| Pop3Wire.TextLinesAreLines | internal/pop3_server/server.go:589-599 | the two replacements, the split and the dropped last piece find exactly the lines of a text with CR LF, CR or LF newlines |
| Pop3Wire.RetrRoundTrip | internal/pop3_server/server.go:588-606 | a receiver of RFC 1939 section 3 recovers exactly the lines of any raw text and is left with exactly the bytes after the terminator |
| Pop3Wire.TopRoundTrip | internal/pop3_server/server.go:514-520 | TOP likewise: header lines, a blank line, the first n body lines |
| Pop3Wire.AnnouncedSize | internal/pop3_server/server.go:578-582 | the announced size is the normalised length plus the lines starting with a dot; equal to it exactly if there are none |
| Pop3Wire.CutIsLeftmost | internal/pop3_server/server.go:608-616 | header and body are cut at the leftmost blank line |
| Pop3Replies.SplitsAtTheBlankLine | internal/pop3_server/server.go:608-616 | header and body part at the first blank line in CR LF; where there is none, at the first in LF; where there is neither, all is header |
| Pop3Wire.TopAgreesWithRetrIff | internal/pop3_server/server.go:514-520 | for every message, TOP writes what RETR writes exactly if it asks for the whole body and there is a blank line with something in front that, at a blank line in CR LF, does not end in a newline |
| Pop3Wire.LinesAcrossLF | internal/pop3_server/server.go:608-616 | a lone LF after a text ends its last line, makes an empty one where none is open, and completes a CR |
| Pop3Session.Connection.Handle | internal/pop3_server/server.go:189-263 | one turn of the loop changes the state and answers as the specification says, with CAPA, STLS and unknown commands, and ends only on a failed handshake |
| Pop3Session.Connection.HandleSTAT | internal/pop3_server/server.go:420-431 | the loop reports the totals of the unmarked messages |
| Pop3Session.Connection.HandleLIST | internal/pop3_server/server.go:433-456 | the loop lists the unmarked messages, or answers for one |
| Pop3Session.Connection.ExpungeDeleted | internal/pop3_server/server.go:548-571 | in any order of the map, exactly the marked messages go whose deletion does not fail, and their numbers are pushed |
| Pop3Session.Connection.Serve | internal/pop3_server/server.go:169-263 | a connection removes messages only at QUIT, those marked then; one that ends without QUIT, or on a failed handshake, removes none |
| Pop3Session.MessagesComeFromPass | internal/pop3_server/server.go:370-418 | in every run shown messages are the INBOX read by the last successful PASS, and DELE never writes to a nil map |
| Pop3Session.MarkedIff | internal/pop3_server/server.go:476-489 | a number is marked exactly if a DELE named it since the last USER, PASS or RSET |
| Pop3Session.QuitRemovesExactlyTheMarked | internal/pop3_server/server.go:548-571 | a row is there after QUIT exactly if no marked number names it or its deletion failed |
| Pop3Session.NumbersAreStable | internal/pop3_server/server.go:209-221 | numbers keep naming the same messages until the next USER or PASS |
| Pop3Session.StatAgreesWithList | internal/pop3_server/server.go:420-444 | STAT is the number and the sum of the LIST lines |
| Pop3Session.RetrServesTheMessage | internal/pop3_server/server.go:458-474 | RETR of an unmarked number is framed, has the announced size, and gives the lines of that message |
| Pop3Replies.TopServesTheMessage | internal/pop3_server/server.go:491-521 | in every run TOP of an unmarked number is one body from which the client recovers the header lines of that message, a blank line and its first k body lines, and exactly the bytes after |
| Pop3Replies.ListingsName | internal/pop3_server/server.go:433-456 | in every run LIST of a number names that message's own size, the length RETR sends, and UIDL its own id; without a number they enclose the lines of all |
| Pop3Replies.SizeLinesAre | internal/pop3_server/server.go:435-444 | LIST has one line for each unmarked message, its number and size, in order, and no other |
| Pop3Replies.IdLinesAre | internal/pop3_server/server.go:525-534 | UIDL has one line for each unmarked message, its number and row id, in order, and no other |
| Pop3Replies.LoadedIsTheInbox | internal/pop3_server/server.go:345-367 | a successful PASS shows exactly the user's INBOX rows, oldest first, with ids, content and sizes |
| Pop3Replies.LoginComesFirst | internal/pop3_server/server.go:189-193 | before the login each such command is refused and changes nothing |
| Pop3Replies.WrongNumbersAreRefused | internal/pop3_server/server.go:447-489 | a number out of range names no message, a marked one is refused, and the session stays as it is |
| Pop3Replies.WhoIsLoggedOn | internal/pop3_server/server.go:369-418 | command by command, who is logged on: USER takes over the id its lookup found, PASS the verified user or none, and nothing else changes it |
| Pop3Replies.CommandsAnswer | internal/pop3_server/server.go:195-261 | in every run: USER wants a name, PASS a USER before it and tells the number of messages, DELE marks one number, RSET unmarks all, an unknown command is refused and changes nothing |
| Pop3Replies.CapabilitiesAre | internal/pop3_server/server.go:325-335 | CAPA names exactly USER, TOP, UIDL and RESP-CODES, and STLS while it is configured and not yet in use, framed as a list |
| Pop3Replies.TlsStartsOnce | internal/pop3_server/server.go:231-255 | TLS starts exactly by a handshake that succeeds on a connection not secured and not logged on; CAPA offers it till then |
| Pop3Push.PushedOrderIff | internal/pop3_server/server.go:555-569 | with a current snapshot an IMAP client in step that reads the numbers pushed ends in step exactly if their order is descending |
| Pop3Push.EveryOrderIff | internal/pop3_server/server.go:557-569 | every order of the map leads IMAP clients right exactly if at most one message is deleted |
| Pop3Push.StaleNumberIff | internal/pop3_server/server.go:557-569 | one number of a stale snapshot is right exactly if the message still stands there |

## Left out

- IMAP commands: an error of the statement that reads the listing or the count; those reads succeed.
- The database engine and its mapper: rows are values, each statement or transaction one atomic step, ids from an increasing counter.
- Races between whole IMAP commands: a command's reads and writes are one step; only IDLE, the outbound queue and the recording of failures are taken apart.
- Moves into a selected mailbox, for view convergence: ids are kept, so a message can land in the middle of the order.
- Further SELECT while a mailbox is selected: the library's UNSELECT before it is not part of this model; `ImapSession.Select` itself keeps the queue.
- OutboundManager.Manager.ProcessDue: the wait for room in the channel is in `OutboundMachine`, not in the method.
- Catalogue.MailboxService: a database error inside one of its operations is not modelled, but for the updates of a move.
- Fairness: that a stopping dispatcher, whose select may pick a scan over the stop, eventually halts.
- Enqueue's address checks and DKIM signing, Start's ticker and the kick channel: a scan may come at any time.
- The SMTP dialogue, DNS lookup and TLS: `deliver` has an arbitrary outcome per host.
- MIME parsing, character sets, BODYSTRUCTURE, ENVELOPE, FETCH bodies and the rebuilding of raw messages.
- SEARCH and LIST patterns: filters whose statement would repeat their code.
- Subscriptions, special-use attributes and STATUS counters: easy members.
- Mailbox names that are not valid UTF-8: names are sequences of Unicode characters.
- Quota accounting, message dates, addresses and subjects of message rows, attachments.
- Protocol logs, the connection registry, certificates, sessions, LDAP, the web handlers and configuration merging.
- Purge of the mailbox service: it has no caller.
