# OxiMail in Dafny

This project models the core of OxiMail, a mail server in Go with an Angular webmail, and proves what
that core is for: what every database step keeps, what a client gets back when it resynchronises, that
no recipient and no message is lost, and that text written by one part of the system means the same to
the part that reads it. `dafny verify dfyconfig.toml` checks everything.

## How it is built

- **The mail store** (`Database`, `MailStore`). The database is a value of maps; each atomic call is one
  function. Class `Store` holds that value and a list of faults: any call may fail without effect, and
  every operation says what it leaves behind then. What an operation does when all calls succeed is a
  function (`Appended`, `Moved`, `Deleted`, ...), and the theorems are about runs of those.
- **Runs of operations** (`RefCounts`, `Contents`, `Resync`, `StoreResync`). Reference counts are exact in every run
  that deletes only empty mailboxes and writes no body as new under a key that is still counted; both
  conditions are exact. Under every pattern of failing calls every message keeps its body, aside from those
  of a mailbox or account whose own deletion failed half way. While a message is there its fetched body and
  fields are those it was stored with. A QRESYNC answer is exact over every run if
  and only if no message the client held was moved away.
- **Runs of single calls** (`Interleaving`, `InterleavedResync`, `Stragglers`, `CountRaces`). The same
  operations cut into database calls that interleave freely. UIDs and mod-sequences stay unique and ordered,
  and a UID never comes back. `Harmful` lists the calls that leave a client with something it is never told,
  and over every run, moves included, resynchronising a mailbox is exact at every point if and only if no
  step is one of them. `Stragglers` says which snapshots carry such a call in their own past. `CountRaces`
  does the same for the count of one body: which orders of concurrent copies and deletes lose it.
- **The live view** (`LiveView`, `LiveViewExact`, `Notifier`, `Wakeups`). A session's snapshot, the
  updates it queues, the client that replays them, and the one-slot wake-up that keeps it current.
- **The queue** (`Delivery`, `Outbound`, `QueueLaws`, `Worker`). Remote replies are arbitrary functions; recipients are
  multisets; the queue's budget is a measure that every attempt spends. `Worker` drives the queue empty and
  follows one row to its end.
- **Text** (`SieveLexer`, `SieveParser`, `SieveEval`, `SieveText`, `SieveRules`, `SieveRulesMeaning`,
  `SieveSyntax`, `SieveReading`, `SieveScripts`, `SieveScriptsMeaning`; `ArcText`, `ArcTags`, `Arc`, `ArcExact`,
  `ArcPanic`, `ArcRelaxed`, `ArcSpelt`; `Srs`). Readers are specified by recursive functions, the loops of the
  source are methods proved against them, and the writers are proved against the readers. What either does is
  also said without them: `SieveScripts` is a language of scripts with a meaning of its own, and
  `SieveScriptsMeaning` proves that its text, read and run, does that; `ArcRelaxed` and `ArcSpelt` say what is
  signed and sent, character by character; `Srs` says which addresses are accepted, over all addresses.
- **Algorithms over the store** (`Alias`, `Dedup`, `Backup`, `BackupExact`, `Migrate`) and the **limiter**
  (`RateLimit`). `Lists` and `Ascii` hold what several modules share.

Parameters rather than models: the clock, the random blob keys, SHA-256, HMAC and RSA, the regular
expression behind `:matches`, address-list parsing, remote SMTP replies, and which database calls fail.

## Where the code and its documentation part

- `MoveMessage` writes no expunge row, so a client that held a moved message keeps it after QRESYNC:
  `StoreResyncExactIff` gives the exact condition, `MissedMoveOut` the same between interleaved calls.
- A mod-sequence is taken before the document that carries it is written, and an operation goes on under the
  mailbox it began in, wherever its document is by now. What is missed for good then: a message or a move in
  below what the client has seen (`MissedCreate`, `MissedMoveIn`), a flag change below it, also one that began
  in the mailbox the message came from (`MissedFlags`), a delete below it or under that other mailbox
  (`MissedRemoval`), and a delete that fails before its row (`MissedRow`). `InterleavedExactIff` says that
  nothing else is, `ExactIffNoStraggler` which snapshots are safe from operations already under way.
- The comment on the counts (internal/store/blobrefs.go:15-22) accepts a race of a copy with the last delete
  and calls it recoverable by fetching again; the body is gone for good (`CopyRacesLastDelete`). It does not
  mention that two deletes of one message lower the count twice, which takes the body from a message that
  was not deleted (`DoubleDelete`). `StepSoundIff` and `SafeIffSound` say that there is no third race.
- `DeleteMailbox` deletes bodies without looking at their counts: `DeleteMailboxExactIff`. The comment on
  `newBlobKey` (internal/store/message.go:47-49) still says that bodies are never shared. The messages of
  other mailboxes keep their bodies if and only if they share none with it: `DeleteMailboxSafeIff`.
- `blobAddRef` says that an existing row makes it a no-op; the index on the key is unique, so the insert is
  refused, and the clean-up of its caller deletes the body that another message names. `restore` takes its
  keys from an operator's file: `RestoreExactIff`, `RefusedRestoreTakesTheBody`, and `RestorableIff` for a
  whole archive.
- `backup` skips a body it cannot fetch with a line on standard error, `restore` skips the messages naming it
  and both exit with success: mail is lost if and only if a fetch failed (`BackupDeleteRestore`,
  `CompleteIffFetched`, `TwinIffComplete`); `LosingExample` is an account that loses all it has.
- Alias expansion shares its visited set between branches, so a short way can be lost to a longer one that
  used the depth up: `ShortcutIsLost`; `ResolvedIsComplete` gives the condition under which nothing is lost.
- `foldHeader` (internal/arc/arc.go:319-322) claims that folded and unfolded forms canonicalise alike. They
  do if and only if no line is broken before text: `FoldHarmlessIff`, `SealExactIff`, `BrokenExample`.
- `VerifyLastInstance` slices the results header without checking that there is one, which panics:
  `PanicsIff` says when, and `WithoutResultsPanics` that every sealed message does so once its results
  header is taken away.
- An EXPUNGE under QRESYNC that fails half way has removed messages from the snapshot and tells the client
  nothing. The client is then wrong if and only if the first message the walk came to was not itself the
  refused one: `StoppedWalkMisleads`.
- A delete that fails after removing its document returns without notifying, a refresh whose listing fails
  has used its wake-up up, and a change between the listing of SELECT and its Subscribe wakes nobody
  (`GivingUpLosesTheWakeup`, `FailedListingLosesTheWakeup`, `ChangeBeforeSubscribeIsMissed`). `SettlesIff`
  says when a listing becomes current; `GivingUpHarmlessIff`, `FailedListingHarmlessIff` and
  `UnsubscribedSettlesIff` when these three do no harm.
- SRS accepts a forwarder with an '@' and then cannot read its own address back: `ForwarderWithAt`.
- A tag of `fileinto` takes the string behind it, so with `:copy` or any other tag that has no argument the
  mailbox is gone and nothing is filed: `TagTakesMailbox`. An `else` is read and never runs: `ElseIsIgnored`.
- A list of header names is flattened into the strings of its test: only the first name is looked up and the
  others become patterns. `SecondFieldIsMissed` shows for every two names a message on which the second is
  missed.
- `migrateLegacyCollection` says that rows of unknown accounts stay behind; the code only checks that
  `account_id` is a positive number, and so does the model.

## Model

| member | source | states |
|---|---|---|
| MailStore.UnionMeaning | internal/store/message.go:306-322 | the union keeps the first list as a prefix, holds exactly the entries of both and adds each new one once |
| MailStore.MinusMeaning | internal/store/message.go:325-337 | the difference holds exactly the entries outside the second list |
| MailStore.UnionStrings | internal/store/message.go:306-322 | the loop with its seen-map computes the union |
| MailStore.MinusStrings | internal/store/message.go:325-337 | the loop with its drop-map computes the difference |
| MailStore.Store.NextUID | internal/store/mailbox.go:216-233 | one atomic increment; the UID handed out is the counter before it |
| MailStore.Store.NextModSeq | internal/store/mailbox.go:322-339 | one atomic increment; the mod-sequence handed out is the counter after it |
| MailStore.Store.BlobAddRef | internal/store/blobrefs.go:27-39 | a fresh count of one, refused when a count exists |
| MailStore.Store.BlobBumpRef | internal/store/blobrefs.go:45-59 | one more on an existing count, an error without one |
| MailStore.Store.BlobDropRef | internal/store/blobrefs.go:67-94 | one fewer; the last drop takes the count row and the body, and a failing call never leaves a count too small |
| MailStore.Store.AppendMessage | internal/store/message.go:66-141 | success stores the body given under the key given, a count of one, and a document of the old uidNext, the old highest mod-sequence plus one, the flags and the fields given, and changes nothing else; it needs an uncounted key, and under one any failing call leaves every document, and the count and body of every other key, as they were |
| MailStore.Store.ModifyFlags | internal/store/message.go:275-302 | the document gets the new flags and the next mod-sequence of its mailbox, whose counter moves on; every other part of the database is as it was |
| MailStore.Store.AddFlags | internal/store/message.go:242-251 | a flag is set afterwards exactly if it was or is among those added |
| MailStore.Store.RemoveFlags | internal/store/message.go:254-263 | a flag is set afterwards exactly if it was and is not among those removed |
| MailStore.Store.MoveMessage | internal/store/message.go:344-391 | the document gets the mailbox, its old uidNext and its next mod-sequence, and keeps flags, fields and body; a move to the own mailbox changes nothing; a failing call moves the counters of the destination on and changes nothing else |
| MailStore.Store.CopyMessage | internal/store/message.go:401-463 | a second document with the flags, fields and body of the first, under the next UID and mod-sequence of the destination, and one more on the count; undone when a later call fails |
| MailStore.Store.RestoreMessage | internal/store/message.go:475-515 | the document lands as given; success needs the body to be new exactly if no count exists; a failure leaves every document, and the count and body of every other key, as they were (a count row and body of the key itself may stay), unless the key was counted and claimed new |
| MailStore.Store.DeleteMessage | internal/store/message.go:522-557 | the document goes, the count falls by one and takes the body with the last, and a log row of its mailbox, UID and new mod-sequence is added; a swallowed log failure is the only difference on success |
| MailStore.Store.FetchBody | internal/store/message.go:223-229 | the body stored under the key, an error without one |
| MailStore.Store.ListMessages | internal/store/message.go:202-220 | exactly the documents of the mailbox, each once, by ascending UID |
| MailStore.Store.ExpungedSince | internal/store/expunge.go:40-60 | the UIDs logged above the mod-sequence, as a multiset, in ascending order |
| MailStore.Store.DeleteMailbox | internal/store/mailbox.go:148-167 | documents and mailbox go, and every named body with them whatever its count; a failure leaves the mailbox, with the bodies of some of its documents gone and the documents all there or all gone |
| MailStore.Store.DeleteAccount | internal/store/account.go:303-327 | each count falls by the account's documents naming it, bodies go with spent counts, collections are dropped; a failure leaves every document, with the references of some released and one perhaps half: a count of two or more has lost at most one by that |
| MailStore.ReleaseOneMore | internal/store/account.go:311-317 | dropping references one at a time gives the closed form over all of the account's documents |
| RefCounts.StepKeepsExact | internal/store/message.go:66-557 | every operation keeps each count equal to its referrers and each body present exactly while referred to, unless it deletes a mailbox with messages or writes a body as new under a counted key |
| RefCounts.CountsExactInEveryRun | internal/store/blobrefs.go:9-94 | so does every run none of whose operations does either |
| RefCounts.RestoreExactIff | internal/store/message.go:475-515 | a restore keeps counts exact if and only if it does not claim a counted key as new |
| RefCounts.AppendExactIff | internal/store/message.go:66-141 | an append does if and only if its key is not counted or its mailbox does not exist |
| RefCounts.RefusedRestoreTakesTheBody | internal/store/message.go:484-491 | the refused restore changes no document and deletes a body that a message still names |
| RefCounts.DeleteMailboxExactIff | internal/store/mailbox.go:148-167 | deleting a mailbox keeps counts exact if and only if it holds no message |
| RefCounts.DeleteAccountKeepsExact | internal/store/account.go:303-327 | deleting an account keeps counts exact, bodies shared elsewhere included |
| RefCounts.StepKeepsSafe | internal/store/message.go:66-557 | every legal operation, deletions of mailboxes and accounts included, keeps every message backed by a body whose count is at least its referrers, unless it deletes a mailbox that shares a body with a message outside |
| RefCounts.DeleteMailboxSafeIff | internal/store/mailbox.go:148-167 | deleting a mailbox keeps the rest backed if and only if no message outside names a body of one inside |
| RefCounts.FailedAccountSpares | internal/store/account.go:303-327 | a deletion of an account that fails half way leaves every message of other accounts with its body and a count for all of them |
| RefCounts.FailedMailboxSpares | internal/store/mailbox.go:148-167 | so does one of a mailbox for every message outside, if it shares no body |
| RefCounts.Serve | internal/store/message.go:81-127 | with any pattern of failing calls a request that is legal and spares what is shared keeps every message backed, aside from the messages of a mailbox or account whose deletion it was and which failed; without failures its effect is its function |
| RefCounts.ServeAll | internal/store/message.go:66-557 | in any run of requests against the store, failures included, every message is backed at every point up to the first request that is illegal, takes a shared body or is a deletion that fails half way |
| Contents.RunKeepsContent | internal/store/message.go:66-557 | over every run that keeps counts exact, a message that is still there has the body and the fields it had, byte for byte, whatever was done to it and to others |
| Contents.AppendedIsFetched | internal/store/message.go:66-141 | after an append and any such run, what is fetched for the message is what was appended |
| Contents.CopyIsFetched | internal/store/message.go:401-463 | after a copy and any such run, what is fetched for the copy is what the original had |
| Contents.NeverReturns | internal/store/message.go:108-127 | a document that is gone never comes back under its id |
| Resync.ResyncExactIff | internal/store/expunge.go:21-60 | from the snapshot's highest mod-sequence, dropping the vanished and overlaying the changed gives the current UID-to-flags map, if and only if no held UID was moved out |
| Resync.AfterTracks | internal/store/message.go:275-302 | every run of events keeps each difference from the held view visible above that mod-sequence |
| Resync.CoversDecides | internal/imap/mailbox.go:370-372 | where every difference is visible, resynchronising is exact precisely when no held UID was moved out |
| StoreResync.RunShows | internal/store/message.go:66-557 | a run of store operations is, at every mailbox that stays and is not restored into, the run of its events |
| StoreResync.ShowsExists | internal/store/message.go:202-220 | every orderly store has such a view of each mailbox |
| StoreResync.ShowsUnique | internal/store/message.go:202-220 | and only one |
| StoreResync.StoreResyncExactIff | internal/imap/session.go:160-174 | the store's QRESYNC answer is exact over every run, if and only if no held message was moved away |
| StoreResync.LoggedSinceMembers | internal/store/expunge.go:40-60 | the listing of the log is the set the theorem speaks of |
| StoreResync.FilterKnownUids | internal/imap/session.go:179-187 | the loop keeps exactly the entries of the list that are known, in their order |
| StoreResync.KnownMeaning | internal/imap/session.go:179-187 | those are the known UIDs, each as often as it was there, and ascending if the list was |
| StoreResync.SelectVanished | internal/imap/session.go:160-174 | what SELECT reports as vanished is the logged set, cut to the known UIDs when the client names some |
| Interleaving.NextKeepsInv | internal/store/message.go:66-127 | every single database call of every concurrent operation keeps the allocation invariant |
| Interleaving.InvInEveryRun | internal/store/mailbox.go:216-233 | under every interleaving UIDs and mod-sequences are handed out once and in order, no two live messages share a UID, every live UID is below uidnext |
| Interleaving.UidNeverReused | internal/store/mailbox.go:216-233 | a UID that was live and is gone never names a message of that mailbox again |
| InterleavedResync.SettledInEveryRun | internal/store/message.go:522-557 | in every run, moves included, logged UIDs are dead, and a pending delete is about the UID of its document or a dead one |
| InterleavedResync.ExactIffCovered | internal/imap/session.go:160-174 | resynchronising is exact, aside from rows being written, if and only if every live message is held as it is or stamped above, and every held UID is live, logged above or about to be |
| InterleavedResync.StepExactIff | internal/store/message.go:275-557 | an exact client stays exact over a database call if and only if the call is not one of the harmful ones |
| InterleavedResync.InterleavedExactIff | internal/imap/session.go:160-174 | over every run of interleaved calls, resynchronising from a snapshot is exact at every point if and only if no step is harmful |
| InterleavedResync.UnharmedIsExact | internal/imap/mailbox.go:209-217 | without a harmful step the client is exact at every moment at which no held message waits for its row |
| InterleavedResync.HarmfulIsMissed | internal/store/message.go:275-557 | after a harmful step the client is wrong, whatever it was before |
| InterleavedResync.MissedCreate | internal/store/message.go:66-127 | harmful: a message inserted under an older mod-sequence |
| InterleavedResync.MissedMoveIn | internal/store/message.go:344-391 | harmful: a message moved in under an older mod-sequence |
| InterleavedResync.MissedMoveOut | internal/store/message.go:344-391 | harmful: a held message moved, away or to a new UID here |
| InterleavedResync.MissedFlags | internal/store/message.go:275-302 | harmful: flags the client does not have, written under an older mod-sequence, whatever mailbox the change began in |
| InterleavedResync.MissedRemoval | internal/store/message.go:522-557 | harmful: a held message deleted by a task of another mailbox or under an older mod-sequence |
| InterleavedResync.MissedRow | internal/store/message.go:534-547 | harmful: the last row for a held message lost by a delete that fails before it |
| Stragglers.ExactIffNoStraggler | internal/imap/mailbox.go:209-217 | resynchronising stays exact in every continuation in which only operations under way at the snapshot could do harm, if and only if none of them straggles |
| Stragglers.CalmIsUnharmed | internal/store/message.go:275-557 | an operation that does not straggle at the snapshot never does harm, whatever moves come later |
| Stragglers.StragglerHarms | internal/store/message.go:275-557 | one that does can do harm, by itself or after a move in |
| CountRaces.StepSoundIff | internal/store/blobrefs.go:9-94 | a call keeps the count above documents, pending inserts and pending drops if and only if it is not a second delete of a document with nothing to spare, nor a copy between the reading of zero and the removal of the row |
| CountRaces.UnharmedIsSafe | internal/store/blobrefs.go:9-94 | without such a call no message ever lacks its body, in every interleaving of copies, deletes, failures and crashes |
| CountRaces.SafeIffSound | internal/store/blobrefs.go:15-22 | no continuation without a race loses a body if and only if that ledger balances |
| CountRaces.HarmfulLoses | internal/store/blobrefs.go:15-22 | after such a call a body can be lost without another race |
| CountRaces.DoubleDelete | internal/store/message.go:522-545 | two deletes of one of two messages that share a body are one such race |
| CountRaces.CopyRacesLastDelete | internal/store/message.go:401-463 | a copy of the only message while it is deleted is the other |
| LiveView.SelectedMailbox.DropMissing | internal/imap/mailbox.go:126-133 | what is left are the survivors in order, and the queued EXPUNGEs carry the client there |
| LiveView.SelectedMailbox.TakeFlags | internal/imap/mailbox.go:139-149 | newer flags are taken over, and the queued updates carry the client there |
| LiveView.SelectedMailbox.Refresh | internal/imap/mailbox.go:108-176 | the new snapshot and uidNext, and replaying everything queued on the client's numbering gives that snapshot |
| LiveView.SelectedMailbox.Add | internal/imap/mailbox.go:256-267 | the session's own message is folded in at most once, and announced |
| LiveView.SelectedMailbox.ExpungeDeleted | internal/imap/mailbox.go:710-738 | on success a message is left exactly if it was there and is not flagged \\Deleted within the scope, which is everything or the UIDs named, and every UID reported gone is in it; without QRESYNC the queued EXPUNGEs replay to that, with it the vanished UIDs are exactly theirs; it fails exactly if one of them is refused, and then exactly the messages to delete behind the last refused one are gone, and under QRESYNC the client is told none of them |
| LiveView.UndeletedMeaning | internal/imap/mailbox.go:710-738 | each message is decided by its own flag and UID, and what stays keeps its order |
| LiveView.StoppedWalkMisleads | internal/imap/mailbox.go:710-738 | when the walk fails and the client is told nothing, it still shows the snapshot if and only if the last message to delete, where the walk begins, is a refused one; otherwise it counts too many |
| LiveView.SelectedMailbox.HighestModSeq | internal/imap/mailbox.go:209-217 | the maximum over the snapshot, zero when empty |
| LiveViewExact.RefreshExactIff | internal/imap/mailbox.go:108-176 | the snapshot becomes the listing if and only if what it lacks arrives last and mod-sequences tell every change |
| LiveViewExact.RefreshExactAlongRuns | internal/imap/mailbox.go:108-176 | after every run of store operations a refresh is exact, and ready for the next |
| LiveViewExact.HighestIsSnapshotModSeq | internal/imap/mailbox.go:188-202 | what SELECT reports is the mod-sequence the resynchronisation theorem asks for |
| Notifier.Subscription.Close | internal/notifier/notifier.go:52-65 | the subscription leaves the hub, others stay, no empty entry remains; closing twice is harmless |
| Notifier.Hub.Subscribe | internal/notifier/notifier.go:68-79 | one more subscription, filed under its mailbox, its slot empty |
| Notifier.Hub.Notify | internal/notifier/notifier.go:84-97 | fills the slot of every subscription on the mailbox and of no other |
| Wakeups.NoLostWakeup | internal/imap/mailbox.go:94-112 | in every interleaving a stale listing has a wake-up on its way; once all is quiet after the first refresh the listing is current |
| Wakeups.SettlesInTime | internal/notifier/notifier.go:84-97 | once nobody changes the mailbox the system has a bounded number of steps left |
| Wakeups.CanSettle | internal/imap/mailbox.go:94-103 | and until it is quiet there is one to take |
| Wakeups.SettlesIff | internal/imap/mailbox.go:94-112 | left alone, the session ends with a current listing if and only if it has one or a wake-up is here or certain to come |
| Wakeups.RefreshedSettlesIff | internal/imap/mailbox.go:94-112 | after a refresh that is precisely the invariant of every run |
| Wakeups.GivingUpHarmlessIff | internal/store/message.go:534-555 | an operation that fails between its change and its Notify does no harm if and only if the listing is current or another wake-up is due |
| Wakeups.FailedListingHarmlessIff | internal/imap/mailbox.go:108-112 | nor does a listing that fails, under the like condition |
| Wakeups.UnsubscribedSettlesIff | internal/imap/mailbox.go:48-69 | before Subscribe, if and only if nothing has changed since the listing |
| Wakeups.SelectedIsExpected | internal/imap/mailbox.go:48-69 | the state after SELECT satisfies the invariant, whatever is under way |
| Wakeups.GivingUpLosesTheWakeup | internal/store/message.go:534-555 | an operation that fails between its change and its Notify leaves a stale listing in a quiet system |
| Wakeups.FailedListingLosesTheWakeup | internal/imap/mailbox.go:94-112 | a refresh whose listing fails leaves a stale listing in a quiet system |
| Wakeups.ChangeBeforeSubscribeIsMissed | internal/imap/mailbox.go:48-69 | so does a change between the listing of SELECT and its Subscribe |
| Delivery.Conserved | internal/queue/queue.go:121-178 | every recipient is malformed or has exactly one verdict |
| Delivery.DataDecides | internal/queue/queue.go:245-259 | a DATA verdict falls on exactly the recipients accepted at RCPT |
| Delivery.RcptPhase | internal/queue/queue.go:232-244 | the RCPT loop splits the recipients by the remote's replies |
| Delivery.DeliverDomain | internal/queue/queue.go:191-264 | the recipients split as the replies judge them: delivered exactly those whose MAIL, RCPT and DATA were all accepted, given up exactly those for whom the first refusal is a reply of 500 to 599 or the policy allowed no host, all others to be tried again |
| Delivery.JudgeMeaning | internal/queue/queue.go:388-394 | the verdict on a recipient, in reply codes |
| Delivery.Transfer | internal/queue/queue.go:232-263 | a DATA verdict falls on exactly the recipients accepted at RCPT |
| Delivery.GroupByDomain | internal/queue/queue.go:372-384 | each domain's bucket is its well-formed recipients in order; malformed ones are in none |
| Delivery.Attempt | internal/queue/queue.go:135-140 | the failures collected over all domains are the verdicts over the whole row |
| Outbound.Backoff | internal/queue/queue.go:398-407 | the doubling loop waits min(5 min x 2^(n-1), 6 h) |
| Outbound.Queue.Enqueue | internal/store/outbound.go:38-72 | one new row with no attempts |
| Outbound.Queue.Route | internal/store/route.go:19-51 | local recipients are delivered, the rest form one new row |
| Outbound.Queue.Bounce | internal/queue/bounce.go:23-42 | a report of the failed recipients to a sender that is not null, and at most one new row, with a null sender and the rendered report as its body |
| Outbound.Queue.Deliver | internal/queue/queue.go:121-178 | a row is completed, or deferred with exactly its temporary failures and its waiting time; the given-up recipients are exactly those of one report, if there are any and the sender is not null |
| Outbound.AttemptSpends | internal/queue/queue.go:121-178 | every attempt strictly lowers the queue's budget, bounces included |
| Outbound.QueueDrains | internal/queue/bounce.go:23-42 | a fresh row causes at most 30 attempts in all, 5 if its sender is null |
| Outbound.AttemptConserves | internal/queue/queue.go:121-178 | an attempt splits the recipients exactly into delivered, deferred, given up and malformed |
| Outbound.LifeConserves | internal/queue/queue.go:121-178 | over a row's attempts, at most five, each well-formed recipient is delivered once or given up once |
| QueueLaws.DomainMeaning | internal/queue/queue.go:372-384 | the domain of a recipient is the text behind the last '@', in small letters |
| QueueLaws.GivenUpIff | internal/queue/queue.go:142-165 | a recipient is reported to the sender if and only if its conversation, at its place among the recipients of its domain, ends in a 5xx or without a host the policy allows, or it is not delivered at the fifth attempt |
| QueueLaws.StaysIff | internal/queue/queue.go:142-175 | it stays in the queue if and only if it is neither delivered nor so refused, before the fifth attempt |
| QueueLaws.WaitTable | internal/queue/queue.go:398-408 | retries wait 5, 10, 20 and 40 minutes; each next wait is twice the last, up to six hours |
| QueueLaws.RelayedIff | internal/store/route.go:19-51 | what leaves the host are the remote destinations of each address, and each address that has no destination at all |
| Worker.Drain | internal/queue/queue.go:80-112 | attempting due rows in any order empties the queue; the attempts are a run in the sense of the budget, and those of a followed row are a life in the sense of conservation, its reports naming exactly the recipients given up |
| Worker.DrainOne | internal/queue/queue.go:80-178 | a row alone causes at most 30 attempts (5 with a null sender); its recipients are exactly the delivered, the malformed and those named in the reports to its sender |
| Alias.Resolution.Resolve | internal/store/account.go:444-479 | the recursion over the shared visited map and result computes the reference walk, and terminates |
| Alias.ResolveDestinations | internal/store/account.go:425-431 | so does the whole call, from an empty result |
| Alias.ResolvedIsSound | internal/store/account.go:444-479 | no duplicates; only accounts and remote end points within five hops |
| Alias.ResolvedIsComplete | internal/store/account.go:444-479 | when no cycle-free chain exceeds five hops, all that can be reached, despite cycles and the shared visited set |
| Alias.ShortcutIsLost | internal/store/account.go:444-448 | otherwise an account two hops away can be lost |
| SieveLexer.LexEndsInEof | internal/sieve/sieve.go:161-276 | a token list ends in its only end-of-file mark |
| SieveLexer.ReadQuoted | internal/sieve/sieve.go:297-318 | the loop computes the decoded value and its length, or fails unterminated |
| SieveLexer.ReadMultiline | internal/sieve/sieve.go:322-348 | the loop computes the text block up to the single dot |
| SieveLexer.NextLexeme | internal/sieve/sieve.go:161-276 | one turn of the switch reads the lexeme at its position, and what its branch adds to the line counter, counted in its own way or not at all, is the number of newlines in the lexeme |
| SieveLexer.Tokenize | internal/sieve/sieve.go:161-276 | terminates, agrees with the reference, and every token's line is one more than the newlines before its start |
| SieveText.HeadOfFigure | internal/sieve/sieve.go:245-269 | the digits of n and a unit are read as n times 1, 1024, its square or its cube, in 64 bits; a number beyond them is an error |
| SieveText.WrapMeaning | internal/sieve/sieve.go:268 | that product is itself if it fits, and otherwise what is congruent to it |
| SieveText.FiguresMeaning | internal/sieve/sieve.go:264 | the decimal digits of every number are read as that number |
| SieveText.RemarkIsSkipped | internal/sieve/sieve.go:177-184 | a comment is skipped up to its first closing mark, and its newlines count |
| SieveText.BlockIs | internal/sieve/sieve.go:322-348 | a text: block is the lines behind its first up to the first that is a single dot, without the newlines at its end |
| SieveParser.Parser.Expect | internal/sieve/sieve.go:361-368 | consumes a token of the kind asked for, never the end mark |
| SieveParser.Parser.ParseBlock | internal/sieve/sieve.go:370-384 | the grammar's block, without reading past the end |
| SieveParser.Parser.ParseCommand | internal/sieve/sieve.go:386-443 | the grammar's command |
| SieveParser.Parser.ParseTest | internal/sieve/sieve.go:445-507 | the grammar's test |
| SieveParser.Parser.ParseStringList | internal/sieve/sieve.go:509-529 | the grammar's string list |
| SieveParser.ParseScript | internal/sieve/sieve.go:74-85 | every text gives a script or an error |
| SieveParser.ParseIgnoresCase | internal/sieve/sieve.go:391-461 | texts whose words and tags differ only in case are the same script |
| SieveReading.NodesRead | internal/sieve/sieve.go:74-529 | the text of every syntax tree, of any commands, tests, tags, strings, lists, numbers and blocks, is read back as that tree |
| SieveEval.EvalCtx.Run | internal/sieve/sieve.go:544-551 | commands run in order until a stop |
| SieveEval.EvalCtx.RunCommand | internal/sieve/sieve.go:553-599 | the effect of each command on actions and flags |
| SieveEval.EvalScript | internal/sieve/sieve.go:90-101 | the actions of the script, by the reference whose tests and commands the laws below speak of; a script that chose nothing keeps |
| SieveEval.GroupLaws | internal/sieve/sieve.go:607-625 | over every message anyof holds exactly if one of its tests does, allof exactly if all do, and the negation of the one is the other of the negations |
| SieveEval.SizeLaws | internal/sieve/sieve.go:633-643 | over and under n never hold together, and both fail exactly at n |
| SieveEval.ChosenMeaning | internal/smtp/smtp.go:546-565 | a discard anywhere wins, otherwise the last fileinto, otherwise the default folder |
| SieveEval.SieveDecide | internal/smtp/smtp.go:532-566 | the loop over the actions draws that decision; an unparsable script delivers to the default |
| SieveEval.EvalChooses | internal/sieve/sieve.go:90-101 | every script chooses something |
| SieveScriptsMeaning.CondMeans | internal/sieve/sieve.go:601-733 | every test, nested as it may be, holds exactly if its author means it: true, false, allof, anyof, not, exists, size, header, address; an unknown one never does |
| SieveScriptsMeaning.KeyIff | internal/sieve/sieve.go:769-771 | a header name is looked up under the same letters, capital at its start and behind hyphens and small elsewhere |
| SieveScriptsMeaning.FitsIff | internal/sieve/sieve.go:717-733 | contains: some stretch of the value is the pattern but for case; is: the value is |
| SieveScriptsMeaning.RunsScript | internal/sieve/sieve.go:544-599 | running the commands of a script does what the script does, statement by statement until a stop |
| SieveScriptsMeaning.ScriptMeans | internal/sieve/sieve.go:74-101 | the text of every script is read without error and, over every message, gives the actions meant, or a keep |
| SieveScriptsMeaning.ScriptDecides | internal/smtp/smtp.go:532-566 | so the mail is dropped if and only if a discard ran, and otherwise goes where the last fileinto says, or to the default |
| SieveScriptsMeaning.EitherWordDrops | internal/sieve/sieve.go:614-620 | the text with anyof of two header tests and a discard drops exactly the mail with either word in its field, in any case |
| SieveScriptsMeaning.BigIsFiled | internal/sieve/sieve.go:607-643 | the text with allof, not, exists and size :over nK files exactly the mail larger than n times 1024 bytes without that header |
| SieveScriptsMeaning.TagTakesMailbox | internal/sieve/sieve.go:407-414 | a tag in front of the mailbox takes it, and nothing is filed |
| SieveScriptsMeaning.ElseIsIgnored | internal/sieve/sieve.go:561-564 | an else never runs |
| SieveScriptsMeaning.SecondFieldIsMissed | internal/sieve/sieve.go:757-765 | of any two fields in a list the second is not looked at |
| SieveText.QuotedUndoesEscape | web/src/app/settings/settings.component.ts:827-829 | reading a quoted string undoes escaping, for every string |
| SieveText.LexPieces | internal/sieve/sieve.go:161-276 | printed lexemes are read back one for one, in front of whatever follows |
| SieveRules.Settings.AppendRule | web/src/app/settings/settings.component.ts:742-782 | a form without value or folder is refused and changes nothing; otherwise the compiled rule is appended and the form cleared |
| SieveRules.BlockTextIs | web/src/app/settings/settings.component.ts:760-764 | the template spells exactly the lexemes of the rule |
| SieveRulesMeaning.CollapseIsIdentity | web/src/app/settings/settings.component.ts:775 | without three newlines in a row the clean-up changes nothing |
| SieveRulesMeaning.ScriptParses | internal/sieve/sieve.go:370-507 | every script of compiled rules parses to the commands of its rules |
| SieveRulesMeaning.ScriptMeans | internal/sieve/sieve.go:544-658 | running those commands chooses as the first matching rule says |
| SieveRulesMeaning.RulesMean | web/src/app/settings/settings.component.ts:742-782 | whatever rules are added one after the other, the script parses and decides as the first matching rule says |
| SieveRulesMeaning.OneRuleMeans | web/src/app/settings/settings.component.ts:742-782 | one rule: its folder, or a drop, exactly when the header test matches, the default folder otherwise |
| ArcText.UnfoldText | internal/arc/canonical.go:34-49 | the loop computes the unfolding |
| ArcText.CollapseWS | internal/arc/canonical.go:52-68 | the loop computes the collapse of white-space runs |
| ArcText.CanonicalizeBody | internal/arc/canonical.go:75-93 | the loops compute the relaxed body |
| ArcText.BodyIgnoresEnd | internal/arc/canonical.go:84-92 | line breaks added at the end do not change the relaxed body |
| ArcRelaxed.HeaderRelaxed | internal/arc/canonical.go:21-29 | a field is the name in small letters without white space at its ends, a colon, the words of the value with one space between, and a line break |
| ArcRelaxed.ValueRelaxed | internal/arc/canonical.go:34-68 | the value is the words of the unfolded text, one space between each two: no tab, no two spaces in a row, no white space at its ends |
| ArcRelaxed.CaseIsNotSigned | internal/arc/canonical.go:21-29 | names that differ only in case give the same text |
| ArcRelaxed.UnfoldsBreak | internal/arc/canonical.go:34-49 | a line break before white space becomes a space |
| ArcRelaxed.KeepsBreak | internal/arc/canonical.go:34-49 | any other stays |
| ArcRelaxed.BodyRelaxed | internal/arc/canonical.go:75-93 | every line is its words with white-space runs as one space and none at its end, lines end in CRLF, and no empty line is last |
| ArcRelaxed.SplitsThere | internal/arc/canonical.go:97-104 | headers and body part at the first blank line |
| ArcText.HeaderFields | internal/arc/canonical.go:125-148 | the loop computes the logical fields |
| ArcText.SplitBehind | internal/arc/canonical.go:97-104 | text in front without a blank line moves the split: same body, and the fields of the longer block |
| ArcText.FoldText | internal/arc/arc.go:323-347 | the loop computes the folded header |
| ArcText.FoldedIsOneField | internal/arc/canonical.go:125-148 | a folded header is read back as one field, in front of whatever fields follow |
| ArcText.FoldHarmlessIff | internal/arc/arc.go:319-347 | folding keeps the canonical form if and only if no line is broken before text |
| ArcTags.ExtractRefolded | internal/arc/arc.go:243-261 | folding hides no tag and changes no value |
| ArcTags.ExtractWritten | internal/arc/arc.go:243-261 | what is written under a tag is what is found under it |
| ArcTags.StripRefolded | internal/arc/arc.go:274-302 | emptying the signature of a folded header gives the folded unsigned header |
| Arc.HasChain | internal/arc/arc.go:75-84 | whether any field is of an ARC instance |
| Arc.CanonicalHeaderList | internal/arc/arc.go:430-444 | the nested loops concatenate the first field of each name |
| Arc.HighestInstance | internal/arc/arc.go:218-229 | the highest instance among the ARC fields |
| Arc.CollectSet | internal/arc/arc.go:199-216 | the last field of each kind in that instance |
| Arc.SealMessage | internal/arc/arc.go:93-151 | every refusal, both signed inputs and the prepended text; what those are is in the rows of ArcSpelt and ArcRelaxed |
| Arc.VerifyLastInstance | internal/arc/arc.go:166-194 | every verdict, in the order of the checks; when it accepts is in ArcSpelt.AcceptedIff |
| ArcSpelt.MessageSpelt | internal/arc/arc.go:117-129 | the message signature header, character by character |
| ArcSpelt.SealSpelt | internal/arc/arc.go:131-139 | the seal header, character by character |
| ArcSpelt.FirstIsSigned | internal/arc/arc.go:430-444 | of several fields of one name, in any case, the first is signed |
| ArcSpelt.SealSigns | internal/arc/arc.go:93-151 | for every message sealed: the hash is that of the relaxed body, the message signature covers the first From, To, Cc, Subject, Date and Message-Id in relaxed form and its own header unsigned, the seal covers the three headers in order, itself unsigned |
| ArcSpelt.SealSends | internal/arc/arc.go:141-151 | what is sent is the three folded headers, seal first and results last, in front of the message |
| ArcSpelt.RefusedIff | internal/arc/arc.go:93-102 | sealing is refused for want of a key, of a domain or selector, or because a field carries one of the three ARC names in any case, each if and only if that is so and none before it |
| ArcSpelt.AcceptedIff | internal/arc/arc.go:166-194 | the verifier accepts if and only if all three headers of the highest instance are there, the hash of the body is the one written, and both signatures verify |
| ArcSpelt.ShortStays | internal/arc/arc.go:323-347 | a header without a semicolon beyond column 76, but for one at its very end, is not folded |
| ArcSpelt.FirstBreak | internal/arc/arc.go:323-347 | the first semicolon beyond it ends a line, and the next starts with a tab, which counts, in place of its space |
| ArcPanic.CollectTells | internal/arc/arc.go:199-216 | each part of the collected set is empty exactly if no field of that kind and instance is there |
| ArcPanic.PanicsIff | internal/arc/arc.go:166-194 | the verifier panics if and only if seal and message signature of the highest instance are among the fields, its results header is not, and body hash and message signature are right |
| ArcPanic.WithoutResultsPanics | internal/arc/arc.go:93-194 | every sealed message without its results header makes it panic |
| ArcExact.ResultsExactIff | internal/arc/arc.go:319-347 | the results header hashes alike after folding if and only if no break falls before text |
| ArcExact.SealExactIff | internal/arc/arc.go:93-194 | the verifier rebuilds the body and the signed fields byte for byte and reads back hash and signatures; it rebuilds the sealed set if and only if no break of the results falls before text |
| ArcExact.SealVerifies | internal/arc/arc.go:93-194 | so a sealed message verifies |
| ArcExact.SpacedIsUnbroken | internal/arc/arc.go:319-347 | results with white space after every semicolon qualify |
| ArcExact.BrokenExample | internal/arc/arc.go:330-338 | others do not |
| Srs.RoundTripIff | internal/srs/srs.go:61-116 | Decode undoes Encode if and only if the sender's domain has no '=' and the forwarder no '@' |
| Srs.ForwarderWithAt | internal/srs/srs.go:61-116 | under a forwarder with an '@' no sender is ever read back, whatever the age allowed |
| Srs.WrappedRoundTrip | internal/srs/srs.go:61-116 | however often the sender was wrapped, unwrapping as often brings it back; the forwarders have no '@', and all but the last no '=' |
| Srs.AgeExactIff | internal/srs/srs.go:140-165 | the ten-bit stamp recovers its day exactly while that is less than 1024 days ago |
| Srs.AcceptedIffYoung | internal/srs/srs.go:85-116 | of the addresses Encode wrote, within that horizon the sender is read back exactly when the time since the stamp's midnight is at most maxAge and the forwarder has no '@'; older ones are refused as too old |
| Srs.DecodeIff | internal/srs/srs.go:85-116 | over every address: it is accepted if and only if the secret is long enough, it is spelt SRS0=h=tt=d=l@f with no '=' in the first three and no '@' in f, h is the keyed hash of tt=d=l, and the age is allowed; it is then read as l@d |
| Srs.ForgedIsRefused | internal/srs/srs.go:100-104 | any other text in place of the hash is refused as a mismatch, whatever the age |
| Srs.NotSrsIff | internal/srs/srs.go:93-95 | an address is left to ordinary resolution if and only if its local part does not start with SRS0= |
| Srs.AgeMeaning | internal/srs/srs.go:152-165 | two base32 digits stand for the latest day up to now with that remainder, and the age counts from its midnight |
| Srs.EncodeSpelt | internal/srs/srs.go:61-79 | what is written, character by character, under the stamp of today |
| RateLimit.Limiter.Drain | internal/ratelimit/ratelimit.go:131-140 | the loop equals its closed form |
| RateLimit.Limiter.Blocked | internal/ratelimit/ratelimit.go:75-87 | the answer, and a bucket that is only drained |
| RateLimit.Limiter.RecordFailure | internal/ratelimit/ratelimit.go:91-109 | one more in the key's bucket, opened with its first tick a decay away |
| RateLimit.Limiter.Sweep | internal/ratelimit/ratelimit.go:114-126 | drained buckets stay, empty ones go |
| RateLimit.DrainTwice | internal/ratelimit/ratelimit.go:131-140 | looking at t1 on the way changes nothing at t2 |
| RateLimit.SweepIsInvisible | internal/ratelimit/ratelimit.go:114-126 | a sweep changes no later answer in any run with a monotone clock |
| RateLimit.RateBound | internal/ratelimit/ratelimit.go:75-109 | in every run of failures, queries and sweeps on all keys in which a failure of the key is recorded only while it is not blocked, a span records at most threshold + floor(span / decay) + 1 failures for it |
| RateLimit.BlockedIff | internal/ratelimit/ratelimit.go:75-109 | n failures within a decay of the first block the key if and only if n reaches the threshold, and then until n + 1 - threshold decays after the first, whatever queries, sweeps and other failures are between |
| RateLimit.OnlyFailuresCount | internal/ratelimit/ratelimit.go:75-126 | queries, sweeps and other keys do not matter: at any time the key's bucket is that of its own failures alone |
| Dedup.GroupByName | cmd/oximailctl/mailbox.go:109-121 | every name's mailboxes, oldest first |
| Dedup.MergeInto | cmd/oximailctl/mailbox.go:130-147 | a duplicate's messages join the survivor and the duplicate goes |
| Dedup.DedupOneAccount | cmd/oximailctl/mailbox.go:99-149 | one mailbox a name is left, and the return value is mailboxes minus distinct names; a run that fails at any call has merged only duplicates into survivors, lost nothing and kept every survivor |
| Dedup.DedupAgain | cmd/oximailctl/mailbox.go:61-64 | a full run after one that was cut off leaves what a full run of the original account is to leave |
| Dedup.Reruns | cmd/oximailctl/mailbox.go:61-64 | so does any number of cut-off runs followed by a full one |
| Dedup.DedupLosesNothing | cmd/oximailctl/mailbox.go:95-98 | survivors are the lowest ids and names are distinct; every message keeps body and flags and is in the mailbox of its old name; survivors' UIDs stay, merged ones start at the old uidnext |
| Dedup.MoveNumbered | internal/store/message.go:344-391 | moving keeps UIDs below uidnext and unique in their mailbox |
| Backup.ListMailboxes | internal/store/mailbox.go:108-125 | the account's mailboxes, each once |
| Backup.BackUp | cmd/oximailctl/backup.go:107-144 | every mailbox with its listing, and of the bodies they name exactly those stored whose fetch did not fail |
| Backup.RestoreMailboxes | cmd/oximailctl/backup.go:238-248 | mailboxes inserted as they are, and their new ids by name |
| Backup.Restore | cmd/oximailctl/backup.go:238-274 | the rebuilt store, and with no failing call success exactly if each body is new when first met |
| BackupExact.RoundTrip | cmd/oximailctl/backup.go:107-274 | after backup, delete and restore every mailbox, and every message whose body is in the archive, is back under a new id with the same counters, UID, mod-sequence, flags and body, and counts are exact |
| BackupExact.RestorableIff | cmd/oximailctl/backup.go:250-274 | the restore goes through if and only if no other account shares a body of the archive |
| BackupExact.BackupDeleteRestore | cmd/oximailctl/backup.go:50-291 | the three commands in a row, under every pattern of failing calls: if they all succeed, exactly the messages whose body was fetched are back, so the account has a twin if and only if no fetch failed |
| BackupExact.TwinIffComplete | cmd/oximailctl/backup.go:255-274 | the restored account is a twin if and only if the archive has the body of every message |
| BackupExact.CompleteIffFetched | cmd/oximailctl/backup.go:132-144 | and it has if and only if no fetch failed |
| BackupExact.LosingExample | cmd/oximailctl/backup.go:132-144 | an account of one message whose body could not be fetched: the restore goes through and restores nothing |
| Migrate.GuardIsExact | internal/store/migrate.go:156-176 | the guard finds a document if and only if this very row was inserted |
| Migrate.Migration.MoveRow | internal/store/migrate.go:150-196 | one row: insert unless present, then delete; a failing call leaves it undone or inserted only |
| Migrate.Migration.MigrateLegacyCollection | internal/store/migrate.go:132-199 | a run cut off anywhere inserts no row twice and loses none; a full one leaves only unroutable rows; with none routable it changes nothing |
| Migrate.Migration.Restarts | internal/store/migrate.go:115-131 | any number of cut-off boots and one full run leave exactly one copy of each row with a positive account_id in that account's collection, and behind exactly the rows without one |
| Migrate.EachOnce | internal/store/migrate.go:203-217 | distinct natural keys keep rows apart, so each is there once |
| Migrate.RoutedTo | internal/store/migrate.go:150-154 | a row has a place to go exactly if its account_id is a positive number, and goes there unchanged |
| Migrate.KeysClash | internal/store/migrate.go:203-217 | mailbox rows of one account clash if their names do, rows of the one-per-account collections always |

## Left out

- Protocol plumbing: SMTP, IMAP and HTTP sessions, TLS, ACME, DNS, JMAP and the database client.
- Integer widths of UIDs and mod-sequences (uint32 and a float64 in transit): counters are unbounded.
- The used-bytes quota counter, receive dates, and an insert reply without an id.
- The stored account_id of a document: a message belongs to the account of its collection.
- Bodies, counts and notifications are not steps of `Interleaving`; `CountRaces` has the counts, for copies and deletes of the messages of one body, and not for restores and deletions of mailboxes and accounts that race them.
- AddFlags and RemoveFlags read before they write; concurrent lost updates of flags are not excluded.
- IMAP STORE with UNCHANGEDSINCE, FETCH rendering, IMAP MOVE across its lock release, and the tracker's internals: only the ordered list of queued updates is modelled.
- Order and batching of due queue rows, retry times beyond the waiting time itself, MX lookup, MTA-STS and the text of a bounce.
- Database errors inside alias resolution.
- SieveScriptsMeaning.BigIsFiled: for sizes that fit in 64 bits; beyond that `ScriptDecides` has the amount wrapped, and `HeadOfFigure` the error.
- SieveScriptsMeaning.ScriptDecides: the scripts whose text is printed with single blanks and one gap throughout; comments, other blanks and case are the laws of the lexer and of `ParseIgnoresCase`. Malformed scripts are errors by the reference.
- Sieve elsif and else linkage (documented as unsupported), the regular expression that `:matches` compiles to, and address-list parsing are given functions or absent.
- SieveRulesMeaning.RulesMean: starts from an empty script and one-line values, which is what the form can hold; appending to a hand-written script is not covered.
- Strings are sequences of characters rather than bytes, and lower-casing is ASCII only.
- Regular expressions of the ARC code are modelled by what they match: the first segment between semicolons for a tag, and the matches left to right for the signature.
- ARC chains of more than one instance, which the code refuses to extend.
- Srs.WrappedRoundTrip: one way only; with an '@' in a forwarder, or an '=' in one that is wrapped again, that hop is not undone (`RoundTripIff`), but nothing excludes that the later ones bring the sender back under some MAC.
- RateLimit.RateBound: a positive threshold and decay, a non-empty key and a clock that does not run backwards; the loop itself is modelled for every value.
- Vacation, Sieve script and account documents in a backup, and the tar and JSON encoding.
- BackupExact.RoundTrip: needs distinct mailbox names, and every message in an existing mailbox under a non-empty body key.
- MailStore.Store.DeleteAccount: the closing removal of the account document is not modelled, since accounts have no document here.
- Migration of the expunge log and of messages, which have no natural key and may be duplicated by a cut-off run.
- Virus scanning, spam verdicts, DMARC, DNSBL, search, configuration and metrics: thin wrappers that would add easy members.
