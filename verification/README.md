# A verified model of the paos memory, bus and librarian

paos keeps facts that sessions share, moves messages between them, and curates the facts with a review
queue. This Dafny project models the parts of it whose correctness is not visible from any one function
and proves what they promise, for all inputs and all runs:

- **Similarity** (`Difflib`, `DifflibRatio`): the Ratcliff-Obershelp matcher with autojunk. Its sparse
  dynamic programme, extension loops and work stack are methods proved against `Longest` and `Total`,
  about which optimality, the common-subsequence property and "1 exactly for equal texts" are proved.
- **Dates** (`CivilDate`, `Timestamp`, `StampYears`, `StampTexts`): the three closed forms against day-by-day counting,
  both conversions as inverses over all integers, and the written timestamp through its three parsers.
- **Delivery** (`Bus`, `Delivery`, `DeliveryRuns`, `DeliveryLaws`, `SharedFiles`, `Member`, `Push`): one member's protocol
  as a state machine over posts, polls, receives, DND toggles and daemon drains, and the push registry
  beside it. `Member.Session` and `Push.Registry` are the program's objects; each method is one step of
  the machine.
- **The session digest** (`Digest`, `DigestSections`, `DigestLevels`): the eviction loop on lines, shown to compute the
  highest water-level cut of the sections that fits the cap.
- **The review queue** (`FactStore`, `Apply`, `Requests`, `Carrying`, `Blanks`, `ApplyRuns`, `PlainRuns`,
  `SpoolMoves`, `SpoolRuns`, `SpoolInputs`, `Queue`, `QueueLaws`,
  `Retirement`): the plan of a proposal, and runs of approvals and drains in which any request may stop
  at any row write, lose its reply, be spooled, and be drained later in any order.
- **Recall** (`Recall`, `Rerank`, `Sorting`): sort, dedupe and truncate, and the rank fusion above it.
- **Text and lists** (`Chunks`, `Upkeep`, `Guard`, `ShellQuotes`, `ShellTexts`, `Text`, `Lists`): greedy chunking and its
  optimality, greedy grouping, and the shell-quote scanners beside a shell's own reading of quotes,
  comments, command substitutions and here-documents.

`dafny verify dfyconfig.toml` checks everything.

## Where the code does less than a first reading suggests

Each of these is kept as the code has it, with the condition under which it does what it says.

- `paos/crates/paos-librarian/src/apply.rs:98-105` and the message at
  `paos/crates/paos-cli/src/memory.rs:537-538` say that an apply that fails midway leaves the original
  intact and the proposal pending. The client does not stop: without a reply it spools the request and
  goes on (`paos/crates/paos-cli/src/main.rs:268-269` and `492-538`). A source can be retired while a part is only
  in the spool (`SpoolInputs.SourceRetiredBeforeItsPart`), and approval can be recorded before anything is
  stored (`SpoolRuns.ApprovalCanComeFirst`). No part of a retired source is lost by it: each is stored or in the spool
  (`ApplyRuns.NothingLostMidway`), `SpoolRuns.PartsStoredFirstUnlessQueued` says when a part is only in the spool,
  and `SpoolRuns.PartsStoredFirstIff` for which proposals every part is always stored first.
- What an emptied spool leaves can differ from one uninterrupted run. A missing source that is one of the
  proposal's own parts is retired by a retry, of two parts with one id the wrong text can stay, and the
  last part of a replacement without sources is set aside by the drain
  (`SpoolRuns.EveryEmptiedSpoolIff` has the exact condition, for every applicable proposal; `SpoolInputs`
  has the inputs).
- The daemon trims a dataset, and refuses one of blanks only; the drain takes it as it is. When a drained
  request writes what a served one does is `SpoolInputs.DrainedAsServedIff`, and what it writes though the
  daemon refuses it `SpoolInputs.DrainedThoughRefusedIff`; `SpoolRuns.EveryEmptiedSpoolIff` says for which
  untrimmed datasets whole runs still come out alike (`ApplyRuns.SpoolSafe`: every row in question exists
  already and either way writes what is there or the same row). Parts with a dataset of blanks only can be
  stored by way of the spool alone, and "one uninterrupted run" then means that. A proposal with an empty
  dataset or a blank text writes nothing (`Blanks.BlankWritesNothing`) and is approved all the same when
  the daemon is away (`SpoolRuns.BlankIsApproved`).
- A merge that names, among its live sources, the fact whose id its own text has retires itself without
  any failure, and the approved text leaves recall (`Carrying.PartsAreLiveIff`,
  `SpoolInputs.MergeRetiresItself`).
- The daemon's `Retire` ignores an update that errors and still answers well, so a retirement is approved
  while that source stays live (`PlainRuns.ApprovedMeansAppliedIff`).
- A split's parts share one row; a part that contains the separator, or ends so that one arises where it
  is joined, comes back cut differently (`Apply.SplitReadsBackIff`).
- The overlay cursor is a file named by `fs_safe`, which is not injective. Two rooms, or two members, with
  one file name lose messages; exactly when is `SharedFiles.NothingLostIff`.
- In `poll_room` the maximum is noted before the read. A read that fails then hides the room until the
  next window (`DeliveryRuns.ErroredReadSuppresses`); no other skip hides a wake
  (`DeliveryRuns.SkipNeverSuppresses`). A pass that polls a room named `__delivered__` stops the listener
  once the reads succeed, without a delivery if no room wakes (`Member.Session.PollOnce`).
- A target joining distinct handles addresses each of them exactly when none holds `__` and none but the
  last ends in `_` (`Bus.EachIsAddressedIff`).
- `recall_reranked` with `top_k` 0 returns a shortlist of one instead of nothing
  (`Rerank.RerankedCountIff`).
- The doctor's parser floors the era by truncating division and does not range-check the month: it
  agrees with the bus parser exactly for month fields up to 14 (`CivilDate.DoctorAgreesIff`).
- Timestamps of years below -999 or above 9999 do not read back (`StampYears.EveryStampRoundTripIff`).
- The guard's scanners know quotes and, in double quotes, the backslash. They do not know a backslash
  outside quotes, comments, `$(...)`, which starts quoting afresh, or here-documents that expand. On which
  texts they read as a shell does is `ShellQuotes.ScanIsShellIff` (`Plain`), and there the rule against
  backquotes is a shell's (`BackquoteRuleIsShells`, `CommandRuleIsShells`). On others it can let a
  backquote through that a shell runs (`ShellTexts.ApostropheInComment`, `ApostropheInDocument`) or refuse
  one that no shell acts on (`BackquoteInComment`, `BackquoteInSubstitution`, `EscapedBackquoteIsKept`).
  The shell's side leaves out the constructs listed at `ShellQuotes.Odd` (brace, bracket and arithmetic
  expansions, `((`, dollar-single-quotes, here-strings, process substitutions, a command substitution with
  a `case` after it, and one tangled with a here-document); that a text has none of them is a hypothesis
  (`Known`), and nothing is claimed on other texts.
- The comment at `paos/crates/paos-cli/src/guard.rs:208-211` calls
  `strip_quoted_heredocs_bodies` distinct from `strip_quoted_heredocs`; the two bodies are the same
  program, modelled once.
- Push also wakes members for urgent messages addressed to others, which polling never hands them
  (`Push.PushReachesMore`).

## Model

| member | source | states |
|---|---|---|
| Difflib.NewMatcher | paos/crates/paos-memory/src/difflib.rs:45-57 | the index holds every character that occurs, except that of a `b` of 200 characters or more it leaves out those making up more than one in a hundred and one besides; each with all its positions, once and in order |
| Difflib.RunIsCommon | paos/crates/paos-memory/src/difflib.rs:91-105 | a value the dynamic programme holds is the length of a genuine common run of indexed characters |
| Difflib.RunCovers | paos/crates/paos-memory/src/difflib.rs:91-105 | and no common run of indexed characters is missed: the cell at its end holds at least its length |
| Difflib.SeedIsFirst | paos/crates/paos-memory/src/difflib.rs:90-114 | the block chosen before extension is the longest run of indexed characters in the window and the first such in scan order |
| Difflib.ScanRow | paos/crates/paos-memory/src/difflib.rs:93-114 | one outer iteration: the new `j2len` holds exactly the runs ending in that row, and the best block has been updated for the whole row |
| Difflib.FindLongestMatch | paos/crates/paos-memory/src/difflib.rs:83-134 | returns the first longest indexed run, extended left and then right |
| Difflib.Longest | paos/crates/paos-memory/src/difflib.rs:116-133 | the result is a common block inside the window that cannot grow on either side |
| DifflibRatio.LongestBeatsIndexedRuns | paos/crates/paos-memory/src/difflib.rs:83-134 | with or without autojunk, the result is at least as long as any common block of indexed characters |
| DifflibRatio.LongestWithoutAutojunk | paos/crates/paos-memory/src/difflib.rs:51-55 | below 200 characters the extensions change nothing, and the result is longest, then leftmost in `a`, then leftmost in `b`, among all common blocks |
| DifflibRatio.SelfSeedOnDiagonal | paos/crates/paos-memory/src/difflib.rs:90-114 | comparing a text with itself, the first longest indexed run lies on the diagonal, whatever autojunk removed |
| DifflibRatio.SelfLongestIsWhole | paos/crates/paos-memory/src/difflib.rs:119-132 | so the two extension loops grow it to the whole text |
| DifflibRatio.TotalIsCommonSubsequence | paos/crates/paos-memory/src/difflib.rs:59-64 | the counted blocks neither overlap nor cross: their total is the length of a common subsequence |
| DifflibRatio.TakeAnyWindow | paos/crates/paos-memory/src/difflib.rs:66-79 | whichever pending window is popped, the total is the same and the pending work shrinks: the order of the stack cannot matter |
| DifflibRatio.TotalMatching | paos/crates/paos-memory/src/difflib.rs:65-81 | the stack loop terminates with the recursive left/right total, which is the length of a common subsequence to which no pair of equal indexed characters can be added: between, before and after the pairs the texts share none |
| DifflibRatio.PairsAreSaturated | paos/crates/paos-memory/src/difflib.rs:65-81 | and so inside every window: both sides of every block were searched |
| DifflibRatio.Ratio | paos/crates/paos-memory/src/difflib.rs:24-35 | twice the length of such a subsequence over the two lengths, 1 for two empty texts |
| DifflibRatio.RatioIsOneIffEqual | paos/crates/paos-memory/src/difflib.rs:22-35 | the ratio lies between 0 and 1, and is 1 exactly for equal texts, at any length |
| DifflibRatio.RatioIsZeroIff | paos/crates/paos-memory/src/difflib.rs:83-134 | the ratio is 0 exactly when no indexed character is shared and the texts do not start alike |
| CivilDate.ClosedFormCounts | paos/crates/paos-bus/src/readonly.rs:210-217 | the closed form equals counting years and months one at a time under the leap-year rule |
| CivilDate.NextDayIsOneMore | paos/crates/paos-bus/src/readonly.rs:210-217 | the next calendar day is a valid date and exactly one day number later |
| CivilDate.DoctorAgreesIff | paos/crates/paos-memory/src/doctor.rs:778-794 | for any month field a two-character parse can give, the truncating version agrees with the flooring one exactly when it is at most 14; every real month is |
| CivilDate.DaysRoundTrip | paos/crates/paos-memory/src/lib.rs:196-215 | every integer day converts to a valid Gregorian date and back to itself |
| CivilDate.DateRoundTrip | paos/crates/paos-memory/src/lib.rs:186-193 | every valid Gregorian date converts to a day number and back to itself |
| CivilDate.YearOfEraInverts | paos/crates/paos-memory/src/lib.rs:196-215 | the year-of-era formula inverts the century, olympiad, year and day decomposition of an era |
| Timestamp.ParsePadded | paos/crates/paos-memory/src/lib.rs:196-215 | a zero-padded field parses back to its number, sign and all |
| StampTexts.StampIs | paos/crates/paos-memory/src/lib.rs:196-215 | a second of a calendar day of the years 0 to 9999 is written as the twenty bytes `YYYY-MM-DDThh:mm:ssZ` |
| StampTexts.ParsersTake | paos/crates/paos-bus/src/readonly.rs:201-219 | of six unchecked fields the store takes the day exactly if month and day are in range, the bus takes any exactly if dashes and a `T` or space separate the date, and the doctor takes any |
| Timestamp.StampRoundTrip | paos/crates/paos-memory/src/lib.rs:176-215 | a written timestamp is read back as the same second by the bus and the doctor and as the same day by the store, for every year from -999 to 9999 |
| Timestamp.StampRoundTripIff | paos/crates/paos-bus/src/readonly.rs:201-219 | the bus parser reads a written timestamp back exactly for those years |
| StampYears.EveryStampRoundTripIff | paos/crates/paos-memory/src/doctor.rs:778-794 | all three parsers read a written timestamp back exactly for those years, the two that do not look at separators included |
| Bus.JoinedTargetAddresses | paos/crates/paos-bus/src/lib.rs:45-53 | a target joining separable handles with `__` addresses exactly those handles |
| Bus.EachIsAddressedIff | paos/crates/paos-bus/src/lib.rs:39-53 | a target joining distinct handles addresses each of them exactly when they are separable |
| Bus.TrailingUnderscoreIsLost | paos/crates/paos-bus/src/lib.rs:45-53 | among distinct handles, one that ends in an underscore and is followed by another costs some handle its message |
| Bus.EveryoneIsAddressedIff | paos/crates/paos-bus/src/lib.rs:39-53 | a target addresses every name exactly if it is blank or `@all` |
| Bus.WhoSleeps | paos/crates/paos-bus/src/lib.rs:71-86 | who is not addressed is woken by urgency alone; who is addressed sleeps only through broadcasts of peers or machinery |
| Bus.BroadcastsMayWake | paos/crates/paos-bus/src/lib.rs:71-75 | with wake-on-broadcast nobody sleeps through any message |
| Bus.CapBacklog | paos/crates/paos-bus/src/wait.rs:62-79 | the messages kept and the number skipped, which together account for the whole input |
| Bus.CapIsCutoff | paos/crates/paos-bus/src/wait.rs:62-79 | the capped batch is an order-preserving filter: every urgent message, every message of the operator, and everything at or above one cutoff |
| Bus.CapCounts | paos/crates/paos-bus/src/wait.rs:62-79 | an over-long batch keeps exactly the larger of the limit and the number of messages that are urgent or the operator's |
| Delivery.StepKeepsInv | paos/crates/paos-cli/src/listen.rs:162-209 | every step of the protocol keeps the invariant on numbering, receipts, cursors, hand-overs and remembered maxima, whatever rooms share an overlay file |
| Delivery.RunKeepsInv | paos/crates/paos-cli/src/listen.rs:162-209 | so every run of posts, polls, receives, toggles, drains and other members' receipts does |
| DeliveryRuns.EachAtMostOnce | paos/crates/paos-bus/src/readonly.rs:303-330 | in every run, whatever the drain timing, a member is handed each message of a room at most once and in order |
| DeliveryRuns.NothingLost | paos/crates/paos-bus/src/wait.rs:48-79 | in every run whose rooms have overlay files of their own, every message for the member at or below the effective cursor was handed over, except ordinary ones that were counted as skipped or silenced by DND in the hand-over that passed them; urgent and operator messages never are |
| DeliveryRuns.BooksBalance | paos/crates/paos-cli/src/listen.rs:189-205 | in such runs given, skipped and silenced messages add up to exactly the messages for the member up to the effective cursor |
| DeliveryLaws.PostsAreKept | paos/crates/paos-bus/src/lib.rs:122-175 | after any run a post appends the message as sent, numbered next in the store and in its room, and no other step changes the store |
| DeliveryLaws.HandOverIs | paos/crates/paos-bus/src/wait.rs:48-79 | any hand-over of any run gave only messages of its room for the member and above the cursor, under DND only urgent or operator ones; what it left out is ordinary, and silenced by DND or in excess of 25; what counts as silenced is exactly the ordinary traffic for the member under DND |
| DeliveryLaws.FreshPollDelivers | paos/crates/paos-cli/src/listen.rs:162-209 | after any run, with DND switched either way, a poll in a new window hands over what came after the cursor exactly if some message there may wake the member, and under DND only an urgent or operator one may |
| DeliveryLaws.RecvDelivers | paos/crates/paos-cli/src/bus.rs:796-815 | `recv` hands over what is above the cursor, whatever DND says, and leaves nothing above it |
| DeliveryLaws.DrainIsInvisible | paos/crates/paos-bus/src/readonly.rs:303-330 | draining a receipt raises the stored cursor of its room to it, never lowers one, and changes no effective cursor |
| SharedFiles.NothingLostIff | paos/crates/paos-bus/src/readonly.rs:287-330 | every run over a set of rooms loses nothing exactly if their overlay files are distinct and no other member's handle gets the same file name |
| SharedFiles.TwoRoomsLose | paos/crates/paos-bus/src/readonly.rs:287-330 | for any two rooms with one file: a hand-over of the first makes the second's first urgent message unread for good |
| SharedFiles.OtherMemberLoses | paos/crates/paos-bus/src/readonly.rs:287-330 | for a file name shared with another member: the other's receipt for a message that this one has not been handed does the same |
| SharedFiles.SlashRoomLoses | paos/crates/paos-bus/src/readonly.rs:38-46 | the rooms "a/b" and "a_b" are such a pair |
| DeliveryRuns.SkipNeverSuppresses | paos/crates/paos-cli/src/listen.rs:173-188 | a room skipped for an unchanged maximum that would have woken the member is one whose last read failed, even with posts between the maximum query and the read |
| DeliveryRuns.ErroredReadSuppresses | paos/crates/paos-cli/src/listen.rs:173-180 | a read that fails after the maximum was noted does suppress the wake until the next window |
| DeliveryRuns.ReadSettles | paos/crates/paos-cli/src/listen.rs:180-208 | after a completed read the room holds no message that would wake |
| Member.Session.Post | paos/crates/paos-bus/src/lib.rs:94-159 | a post appends one message with the next id and the next number of its room |
| Member.Session.RecordPendingCursor | paos/crates/paos-bus/src/readonly.rs:303-312 | the overlay file of the room only moves forward |
| Member.Session.EffectiveCursor | paos/crates/paos-bus/src/readonly.rs:322-330 | the larger of the database cursor and the overlay file's |
| Member.Session.DrainReceipt | paos/crates/paos-bus/src/readonly.rs:291-302 | a drain raises the database cursor to a spooled receipt and never lowers it |
| Member.Session.PollRoom | paos/crates/paos-cli/src/listen.rs:162-209 | one poll is exactly a maximum query followed by a read, and reports a delivery exactly when a wake was due |
| Member.Session.PollOnce | paos/crates/paos-cli/src/listen.rs:104-159 | a poll over all rooms that does not stop leaves no room that would wake, other than rooms whose read failed; one that stops has delivered, unless a room is named like the sentinel key; a pass over such a room whose reads succeed does stop, and hands nothing over if no room wakes |
| Member.Session.Recv | paos/crates/paos-cli/src/bus.rs:786-818 | a receive hands over everything unread, DND or not, and advances both receipts |
| Push.Registry.Subscribe | paos/crates/paos-bus/src/push.rs:50-60 | a subscription gets a new id and an open, empty channel, nothing else changes, and the registry moves as the run model says |
| Push.Registry.Unsubscribe | paos/crates/paos-bus/src/push.rs:62-64 | removes exactly that listener |
| Push.Registry.HasListener | paos/crates/paos-bus/src/push.rs:70-72 | answers exactly whether a registered listener has that name, whether or not its channel is still open |
| Push.Registry.HangUp | paos/crates/paos-bus/src/push.rs:27-32 | a dropped receiver closes its channel and nothing else |
| Push.Registry.Publish | paos/crates/paos-bus/src/push.rs:88-112 | sends to exactly the open listeners that want the message, returns their number, drops exactly the hung-up ones that would have wanted it, and moves the registry as the run model says |
| Push.ListenersAreUpToDate | paos/crates/paos-bus/src/push.rs:34-112 | over any run of subscribe, unsubscribe, hang-up and publish, an open registered listener has received exactly the wanted messages since it subscribed, in order |
| Push.PollWakesIff | paos/crates/paos-bus/src/push.rs:80-112 | under DND the registry sends exactly what would wake the listener and is urgent or the operator's; a poll wakes on exactly those sent messages that are unread, not their own and addressed to them |
| Push.PolledWakeIsPushed | paos/crates/paos-bus/src/wait.rs:87-89 | any batch on which polling would wake holds a message that publish sends |
| Push.PushReachesMore | paos/crates/paos-bus/src/push.rs:88-104 | the converse fails: push also sends an urgent message addressed to others |
| DigestSections.TakeFresh | paos/crates/paos-cli/src/hook.rs:174-184 | keeps the facts whose normal form is new and not blank, and remembers all of them |
| DigestSections.SectionsShareNothing | paos/crates/paos-cli/src/hook.rs:174-185 | before eviction the three sections together show every non-blank normal form once and no blank one |
| DigestSections.WantedShows | paos/crates/paos-cli/src/hook.rs:174-216 | preferences, lessons and project facts stand under their own headers in the order given, each fact exactly if its normal form is not blank and occurs nowhere before it, in its own list or an earlier one |
| Digest.SectionsOfRender | paos/crates/paos-cli/src/hook.rs:220-230 | grouping bullets by the header above them recovers the sections from the rendered lines |
| Digest.ChoiceIsVictim | paos/crates/paos-cli/src/hook.rs:231-245 | the line chosen is the last bullet of the fullest section, the later one on ties; the tail-pop fallback is never reached |
| Digest.TurnEvicts | paos/crates/paos-cli/src/hook.rs:240-257 | removing that line and then bare headers shows the sections without that one bullet |
| DigestLevels.EvictLowers | paos/crates/paos-cli/src/hook.rs:219-258 | one turn takes a water level to the next lower one |
| DigestLevels.NoLevelBetween | paos/crates/paos-cli/src/hook.rs:219-258 | and no level lies strictly between the two |
| DigestLevels.Evict | paos/crates/paos-cli/src/hook.rs:218-258 | the loop ends within the cap at the highest water level that fits |
| DigestLevels.HighestFitIsOne | paos/crates/paos-cli/src/hook.rs:218-258 | there is only one such cut |
| DigestLevels.BuildDigest | paos/crates/paos-cli/src/hook.rs:171-260 | the digest is empty exactly when every fact is blank in normal form; otherwise it is the highest cut of the three sections that fits, of at most 1600 bytes; every bullet shows a fact of the list whose header it stands under, the first list that has it, and no two bullets have the same normal form |
| Digest.Utf8Decodes | paos/crates/paos-cli/src/hook.rs:218-219 | the byte length counted for a character is that of its UTF-8 encoding, which reads back |
| DigestLevels.NoBareHeader | paos/crates/paos-cli/src/hook.rs:246-257 | at every level a header is followed by a bullet |
| FactStore.BatchOutcome | paos/crates/paos-memory/src/lib.rs:237-253 | storing parts and then retiring sources, row by row, comes to one closed form: who exists, whose text changed, who is retired and why |
| FactStore.StoppedBatch | paos/crates/paos-librarian/src/apply.rs:98-118 | stopped after any number of row writes, a prefix of the parts is stored and nothing is retired before the last part is |
| FactStore.BetweenIsOutcome | paos/crates/paos-memory/src/lib.rs:237-253 | once every part is stored, the order of the row writes, their repetition and the dataset each was sent to have left no trace, unless two writes leave different texts in one row or the dataset makes a difference |
| FactStore.RetryIff | paos/crates/paos-cli/src/memory.rs:506-547 | writing a whole batch after any of its writes were made already ends like the batch alone, exactly if those show only where the batch writes anyway and no further row is retired |
| Apply.RefusedIff | paos/crates/paos-librarian/src/apply.rs:58-143 | all the reasons a proposal is not applied; in particular one that names sources of which none exists never is, whatever its kind |
| Apply.PlanWrites | paos/crates/paos-librarian/src/apply.rs:88-143 | a plan of any kind stores all its parts in order and only then retires the named sources that exist |
| Apply.SplitReadsBackIff | paos/crates/paos-librarian/src/queue.rs:5-10 | parts joined in one row come back out of it exactly when no separator occurs or arises among them |
| Apply.PartWithSeparatorIsCut | paos/crates/paos-librarian/src/apply.rs:91-97 | parts "a", separator, "b" in one, and "c", come back as three |
| Apply.SplitSurvivesIff | paos/crates/paos-librarian/src/upkeep.rs:156-172 | what the split pass accepted is what approval stores, exactly under that condition |
| Apply.PlanSplitIff | paos/crates/paos-librarian/src/upkeep.rs:156-172 | a split is accepted exactly with two or more non-blank parts that keep at least 0.6 of the characters; the parts are the trimmed candidates in order |
| ApplyRuns.NothingLostMidway | paos/crates/paos-cli/src/main.rs:474-538 | over every run of approvals and drains of any applicable proposal, however requests are stopped, lost, spooled and reordered: no row is lost, unrelated rows are untouched, and a source is retired only if every part is stored or waits in the spool |
| ApplyRuns.ApprovedMeansKept | paos/crates/paos-cli/src/main.rs:525-538 | and an approved proposal that is not blank has every part stored or in the spool and every source retired or about to be, except for a last part without sources |
| SpoolRuns.PartsStoredFirstIff | paos/crates/paos-librarian/src/apply.rs:98-118 | a source is retired only once every part is in the table, in every run of any applicable proposal, exactly if it is blank, nothing live is named, or every part but the last was there before (or shares the last one's row whichever way that is stored) |
| SpoolRuns.PartsStoredFirstUnlessQueued | paos/crates/paos-cli/src/main.rs:474-538 | at any moment of any run that fails exactly when a live source was retired and some part waits in the spool without being in the table |
| SpoolInputs.SourceRetiredBeforeItsPart | paos/crates/paos-cli/src/main.rs:268-269 | a split whose first store is spooled and whose second request is served: the original is retired while "one" is in no row |
| SpoolRuns.EveryEmptiedSpoolIff | paos/crates/paosd/src/dream.rs:452-670 | for every applicable proposal: every run without silent errors that ends approved and with an empty spool leaves the store of one uninterrupted run, exactly if no missing source is one of the parts, no two writes leave different texts in one row, the trimmed and the written dataset make no difference, and a replacement without sources has its last part stored already or twice; a blank proposal, exactly if there is nothing to do |
| ApplyRuns.EmptiedSpoolIsComplete | paos/crates/paosd/src/dream.rs:452-670 | the sufficient half, for each run |
| SpoolInputs.LastPartLost | paos/crates/paosd/src/dream.rs:614-622 | a split without sources whose last request is spooled is approved and its last part lost |
| SpoolRuns.ApprovalCanComeFirst | paos/crates/paosd/src/dream.rs:452-455 | for any proposal but a plain retirement: the verdict can be drained, and the approval recorded, before any part is stored |
| SpoolInputs.DrainedAsServedIff | paos/crates/paosd/src/dream.rs:610-660 | a request that the daemon serves comes to the same row writes in the spool exactly if its dataset is trimmed and it is not a replacement without sources |
| SpoolInputs.DrainedThoughRefusedIff | paos/crates/paosd/src/handlers.rs:654-656 | and one that the daemon refuses is written by the drain exactly if it has a text and a dataset of blanks only, and is not a replacement without sources |
| SpoolInputs.UntrimmedDatasetStrays | paos/crates/paosd/src/dream.rs:628-629 | a fact for " ds" approved with the daemon away ends up in " ds", where an uninterrupted run files it in "ds" |
| SpoolInputs.BlankDatasetIsFiled | paos/crates/paosd/src/dream.rs:628-629 | a fact for a dataset of one blank: no attempt that spools nothing changes anything, and with the daemon away it is stored and approved |
| PlainRuns.BlanksAreRefused | paos/crates/paosd/src/handlers.rs:652-668 | for any proposal but a plain retirement with a dataset of blanks only, an attempt that spools nothing changes neither store nor row |
| ApplyRuns.RetryConverges | paos/crates/paos-cli/src/memory.rs:506-547 | after any run, approving again would end where one uninterrupted run from the start does, exactly unless a source missing at first has since come into being as one of the parts, or a drain has left something that storing the parts does not overwrite; the latter never if the dataset is trimmed or of blanks only |
| SpoolRuns.EveryRetryConvergesIff | paos/crates/paos-cli/src/memory.rs:506-547 | that holds after every run exactly when the proposal is blank, or no missing named source has the id of one of its parts, what a drain stores in the untrimmed dataset is overwritten or the same, and sources are marked alike either way |
| SpoolInputs.RetryRetiresItsOwnPart | paos/crates/paos-cli/src/memory.rs:506-547 | a merge into "new" that names "old,new", stopped after it was stored and approved again, retires itself |
| PlainRuns.ApprovedInTheEnd | paos/crates/paos-cli/src/memory.rs:506-547 | when nothing is spooled, under the same condition: however many attempts it took, an approved proposal leaves the store of one uninterrupted run |
| PlainRuns.ExecutionIsPrefix | paos/crates/paos-cli/src/memory.rs:506-543 | an attempt that spools nothing makes a prefix of the plan's row writes, all of them if every reply was good |
| PlainRuns.AttemptStops | paos/crates/paos-cli/src/memory.rs:506-543 | wherever an attempt that spools nothing stops it has stored a prefix of the parts, and retired something only if it stored them all |
| PlainRuns.ApprovedMeansAppliedIff | paos/crates/paosd/src/handlers.rs:529-547 | an approval that spooled nothing is recorded only for a plan carried out in full, exactly unless a plain retirement passed over a live source whose update errored |
| ApplyRuns.ExecutionKeeps | paos/crates/paos-cli/src/memory.rs:506-543 | however the requests of one attempt fare: if the client got to the end, or anything was retired, each step was carried out or is in the spool |
| PlainRuns.ApprovalRejectsIff | paos/crates/paos-cli/src/memory.rs:494-505 | approving rejects a proposal, or spools its rejection, exactly when it is about facts of which none exists |
| Carrying.LiveAfterwards | paos/crates/paos-memory/src/lib.rs:395-401 | after an uninterrupted run a fact is live exactly if it was live or is a new part, and is not among the retired sources |
| Carrying.PartsAreLiveIff | paos/crates/paosd/src/handlers.rs:586-604 | every part is live after an uninterrupted run, exactly if none has the id of an existing source or of a fact retired before |
| SpoolInputs.MergeRetiresItself | paos/crates/paosd/src/handlers.rs:586-604 | a merge into "new" that names the live fact "new" retires its own text in a plain run |
| Carrying.TextAfterwards | paos/crates/paos-memory/src/lib.rs:237-253 | each part's own text is left under its id unless a later part has the same id |
| ApplyRuns.Settled | paos/crates/paos-librarian/src/queue.rs:102-116 | a resolved proposal is never applied again |
| Blanks.BlankWritesNothing | paos/crates/paosd/src/handlers.rs:122-125 | over any run a proposal with a blank text or an empty dataset writes no fact |
| SpoolRuns.BlankIsApproved | paos/crates/paosd/src/dream.rs:623-627 | yet with the daemon away any applicable proposal of that kind ends up approved, with the store unchanged and an empty spool |
| Queue.AddKeepsOnePerKey | paos/crates/paos-librarian/src/queue.rs:60-101 | `add` never lets two pending rows ask the same about the same facts, and returns a pending row with the key asked for |
| Queue.DecideAllDecides | paos/crates/paos-librarian/src/queue.rs:104-116 | a command changes only the status of pending rows, and rejecting or re-approving resolved rows writes no fact |
| Queue.HistoryDecides | paos/crates/paos-librarian/src/queue.rs:60-116 | over any history of commands and drains no decision is queued twice at once and no resolved row changes |
| Queue.HistoryAsksFor | paos/crates/paos-librarian/src/queue.rs:88-101 | over any history every new row has the kind, dataset, text and targets of some `add` among its commands |
| QueueLaws.OneTextIsStored | paos/crates/paos-cli/src/memory.rs:506-547 | a capture, lesson or replacement queued and approved with no request lost leaves its text, trimmed, as a fact of its trimmed dataset under its own id; a replacement retires every live fact it names in favour of that id; nothing else changes |
| QueueLaws.SplitIsStored | paos/crates/paos-cli/src/memory.rs:506-547 | a split of separable parts queued and approved with no request lost leaves each part under its id (or a later one with the same id), retires every live fact it names in favour of the last part, and keeps the texts of the others |
| QueueLaws.NamedAreRetired | paos/crates/paosd/src/handlers.rs:529-547 | a retirement queued and approved marks every live fact it names, but for those whose update errored, and touches nothing else |
| QueueLaws.HealthyGoesThrough | paos/crates/paos-cli/src/memory.rs:488-549 | with every request answered and no write failing, a proposal that can be applied and is not blank is approved in one attempt and nothing is spooled |
| QueueLaws.HealthyApprove | paos/crates/paos-cli/src/memory.rs:488-552 | and the command exits with 0 |
| QueueLaws.AwayApprove | paos/crates/paos-cli/src/main.rs:492-538 | with the daemon away a proposal that is no plain retirement is approved into the spool with exit code 0, while no fact and no row changes |
| QueueLaws.HealthyReject | paos/crates/paos-cli/src/memory.rs:450-487 | `reject` exits with 0 if every request is answered and written, or spooled |
| QueueLaws.RejectRejects | paos/crates/paos-cli/src/memory.rs:450-487 | `reject` changes no fact; the rows it changes are listed, were waiting and are rejected; all it spools are rejections of listed proposals |
| QueueLaws.RejectedOrSpooled | paos/crates/paos-cli/src/memory.rs:450-487 | exit code 0 from `reject`: every listed proposal that was waiting is rejected, or its rejection is in the spool |
| QueueLaws.OnlyListedChange | paos/crates/paos-cli/src/memory.rs:450-552 | a command changes no row that it does not list |
| QueueLaws.DrainedVerdict | paos/crates/paosd/src/dream.rs:567-590 | a verdict drained in full gives its row, if that still waits, its status, and touches nothing else |
| Queue.ExitZeroMeansJudged | paos/crates/paos-cli/src/memory.rs:482-572 | exit code 0 means that every listed proposal is resolved or its verdict is in the spool |
| Queue.ApproveIsAttempt | paos/crates/paos-cli/src/memory.rs:488-549 | approving one id is one attempt at its proposal and touches no other row |
| Queue.DrainIsMove | paos/crates/paosd/src/dream.rs:452-670 | a drain is one move of the run model and touches no other row |
| Queue.Librarian.Add | paos/crates/paos-librarian/src/queue.rs:60-101 | appends one pending row with exactly the fields given and returns its id, or returns the id of the row waiting with that key |
| Queue.Librarian.Request | paos/crates/paosd/src/handlers.rs:576-610 | the daemon stores first and then retires source by source; the reply is good only when all of it happened |
| Queue.Librarian.Send | paos/crates/paos-cli/src/main.rs:474-538 | the client: without a reply it spools the request, counts it done and goes on; a plain retirement has no spooled form |
| Queue.Librarian.DrainEntry | paos/crates/paosd/src/dream.rs:452-670 | the daemon takes one spool file, does its row writes, and removes it once all were done or none can be |
| Queue.Librarian.RetireEach | paos/crates/paosd/src/handlers.rs:529-547 | a plain retirement goes source by source and passes over updates that error |
| Queue.Librarian.Resolve | paos/crates/paos-librarian/src/queue.rs:104-116 | the guarded status update and what its reply tells |
| Queue.Librarian.Approve | paos/crates/paos-cli/src/memory.rs:488-549 | sends the steps in order, stops at the first that neither succeeded nor could be spooled, and sends the verdict after the last |
| Queue.Librarian.Decide | paos/crates/paos-cli/src/memory.rs:450-552 | the whole command over listed or all pending ids, with its exit code |
| Recall.RecallFacts | paos/crates/paos-memory/src/lib.rs:471-546 | the method returns the first `top_k` of the sorted and deduplicated eligible facts |
| Recall.RecallReturns | paos/crates/paos-memory/src/lib.rs:471-546 | only facts that are not retired and are of the asked datasets, no two with the same normal form, exactly min(top_k, distinct texts) of them, in descending score |
| Recall.TiesKeepStoreOrder | paos/crates/paos-memory/src/lib.rs:534-539 | equal scores are returned in the order of the store |
| Recall.OthersDoNotMatter | paos/crates/paos-memory/src/lib.rs:484-490 | facts of datasets not asked for, and retired ones, change no result, wherever they stand and whatever k is |
| Recall.RecallLeavesOut | paos/crates/paos-memory/src/lib.rs:534-539 | an eligible fact left out duplicates a returned one scoring at least as high, or scores no more than any returned one |
| Recall.RecallIsPrefix | paos/crates/paos-memory/src/lib.rs:534-539 | the result for k is a prefix of the result for any larger k |
| Recall.RecallOfAll | paos/crates/paos-memory/src/lib.rs:534-539 | with room for every distinct text no eligible fact is left out but for a better duplicate |
| Retirement.ApprovalStopsRecall | paos/crates/paos-librarian/src/apply.rs:119-131 | once a proposal is carried out, no recall returns a source it retired |
| Retirement.ApprovedPartsAreRecalled | paos/crates/paos-librarian/src/apply.rs:98-131 | and a recall with room for all returns every part left live, or a better-scoring duplicate |
| Rerank.RecallReranked | paos/crates/paos-memory/src/lib.rs:344-392 | the method computes the fused order of the shortlist, with its fallbacks |
| Rerank.OrderIsPermutation | paos/crates/paos-memory/src/lib.rs:376-392 | the fused order holds every shortlist member exactly once, stored second vector or not |
| Rerank.AheadInBothStaysAhead | paos/crates/paos-memory/src/lib.rs:376-392 | a fact ahead in both stages is ahead in the result, for every blend from 0 to 1 |
| Rerank.BlendZeroKeepsOrder | paos/crates/paos-memory/src/lib.rs:376-392 | blend 0 keeps the first stage's order |
| Rerank.BlendOneIsSecondStage | paos/crates/paos-memory/src/lib.rs:376-392 | blend 1 gives the second stage's order |
| Rerank.FallsBackToRecall | paos/crates/paos-memory/src/lib.rs:344-392 | blend 0 or no stored second vectors gives exactly plain recall, for top_k of at least 1 |
| Rerank.RerankedCountIff | paos/crates/paos-memory/src/lib.rs:344-392 | min(top_k, shortlist) facts are returned, except that top_k 0 with a shortlist of one returns that one |
| Rerank.RerankedReturns | paos/crates/paos-memory/src/lib.rs:344-392 | a reranked recall returns live facts of the asked datasets only, none twice, all from the 30 best of the first stage or from as many as were asked for |
| Rerank.OthersDoNotMatterReranked | paos/crates/paos-memory/src/lib.rs:344-392 | facts of other datasets and retired ones change no reranked recall either |
| Rerank.RankCounts | paos/crates/paos-memory/src/lib.rs:360-375 | the second-stage rank of a fact is the number of shortlist members with a better vector score, or an equal one and an earlier place; having no vector counts as the least score |
| Rerank.OrderIff | paos/crates/paos-memory/src/lib.rs:376-392 | one shortlist member comes before another exactly if its weighed reciprocal ranks, with 60 added to each rank, sum to more, or to as much from an earlier place |
| Rerank.RerankedIs | paos/crates/paos-memory/src/lib.rs:344-392 | the result is the first `top_k` of the shortlist in that order, or in the first stage order if no member has a vector |
| Rerank.VectorlessIsLast | paos/crates/paos-memory/src/lib.rs:360-375 | at blend 1 a fact without a second vector comes after every fact that has one |
| Sorting.SortIsStable | paos/crates/paos-memory/src/lib.rs:536-536 | sorting by a score is stable |
| Chunks.ChunkLines | paos/crates/paos-librarian/src/dream.rs:34-54 | the method computes the greedy cut |
| Chunks.ChunksRoundTrip | paos/crates/paos-librarian/src/dream.rs:34-54 | the lines of the chunks are the lines of the text, each group one line or within the size rule |
| Chunks.ChunksFit | paos/crates/paos-librarian/src/dream.rs:34-54 | joined with newlines the chunks give the text back, and each is a single line or, with a newline, within the size |
| Chunks.ChunksAreFewest | paos/crates/paos-librarian/src/dream.rs:34-54 | no other cut at line boundaries under the same rule has fewer chunks |
| Chunks.NoFewerChunks | paos/crates/paos-librarian/src/dream.rs:34-54 | no other way of cutting the text at newlines into pieces of that kind has fewer |
| Upkeep.TidyGroups | paos/crates/paos-librarian/src/upkeep.rs:74-102 | the worklist loop terminates with the greedy groups, each of 2 to max_group facts whose words overlap those of the first at 0.30 or more |
| Upkeep.EveryFactOnce | paos/crates/paos-librarian/src/upkeep.rs:74-102 | every fact is in exactly one group or left alone |
| Upkeep.GroupsOverlapTheirSeed | paos/crates/paos-librarian/src/upkeep.rs:74-102 | a group has from 2 to max_group members and each overlaps its seed at Jaccard 0.30 or more |
| Upkeep.AloneStandApart | paos/crates/paos-librarian/src/upkeep.rs:74-102 | for max_group of at least 2, the words of no two facts left alone overlap that much |
| Upkeep.OpenGroupsStandApart | paos/crates/paos-librarian/src/upkeep.rs:74-102 | the first fact of a group with room left overlaps with nothing reported later or left alone |
| Upkeep.AlikeIsOverlap | paos/crates/paos-librarian/src/upkeep.rs:66-72 | the whole-number test is Jaccard overlap of at least 0.30, and no fact without words overlaps any |
| Guard.StripQuoted | paos/crates/paos-cli/src/guard.rs:50-78 | the first scanner keeps what lies outside all quotes |
| Guard.ScanSubstitutable | paos/crates/paos-cli/src/guard.rs:126-158 | keeps what lies outside single quotes, less what a backslash escapes in double quotes |
| Guard.SameQuoteState | paos/crates/paos-cli/src/guard.rs:50-159 | both scanners end in the same quote state, and the first keeps a subsequence of what the second keeps |
| Guard.StripSplits | paos/crates/paos-cli/src/guard.rs:50-78 | after a prefix that ends outside quotes the first scan splits over concatenation |
| Guard.SubstSplits | paos/crates/paos-cli/src/guard.rs:124-159 | and so does the second |
| Guard.PlainText | paos/crates/paos-cli/src/guard.rs:50-159 | text without quotes is kept whole outside quotes, dropped by both scanners inside single quotes, and kept by the second alone inside double quotes |
| Guard.EscapedPair | paos/crates/paos-cli/src/guard.rs:50-78 | in double quotes a backslash and the character after it are dropped and close nothing |
| Guard.SingleQuotesAreInert | paos/crates/paos-cli/src/guard.rs:50-159 | inserting a single-quoted span where quotes are closed changes neither scan |
| Guard.DoubleQuotesExpand | paos/crates/paos-cli/src/guard.rs:50-159 | a double-quoted span vanishes from the first scan and shows its contents in the second |
| Guard.StripQuotedHeredocs | paos/crates/paos-cli/src/guard.rs:88-116 | drops exactly the bodies of heredocs with a quoted delimiter |
| Guard.HeredocLosesBody | paos/crates/paos-cli/src/guard.rs:88-116 | from a line that opens a quoted heredoc the lines go up to the first that is the delimiter, which stays, and the lines after it are treated afresh; without such a line all of them go |
| Guard.HeredocsTwice | paos/crates/paos-cli/src/guard.rs:88-116 | stripping twice equals stripping once |
| Guard.IsGuttingPaosCall | paos/crates/paos-cli/src/guard.rs:172-177 | refused exactly for `paos` in what the first scan keeps together with a backquote in what the second keeps |
| ShellQuotes.ScanIsShellIff | paos/crates/paos-cli/src/guard.rs:124-159 | on texts without the constructs that `Odd` lists, the scan reads quotes and backquotes as a shell does, character by character up to the first backquote acted on, exactly when the text is plain |
| ShellQuotes.BackquoteRuleIsShells | paos/crates/paos-cli/src/guard.rs:161-177 | and on plain ones of these a backquote is kept exactly when a shell acts on one |
| ShellQuotes.CommandRuleIsShells | paos/crates/paos-cli/src/guard.rs:124-125 | so does the rule as a whole on a command that opens no quoted heredoc |
| ShellTexts.ApostropheInComment | paos/crates/paos-cli/src/guard.rs:172-177 | an apostrophe in a comment: the shell acts on a backquote of the next line, the scan keeps none |
| ShellTexts.ApostropheInDocument | paos/crates/paos-cli/src/guard.rs:172-177 | an apostrophe in a here-document hides a backquote in the same way |
| ShellTexts.BackquoteInComment | paos/crates/paos-cli/src/guard.rs:172-177 | a backquote in a comment is kept though no shell acts on it |
| ShellTexts.BackquoteInSubstitution | paos/crates/paos-cli/src/guard.rs:172-177 | and so is one quoted again inside `$(...)` |
| ShellTexts.EscapedBackquoteIsKept | paos/crates/paos-cli/src/guard.rs:124-159 | and one that a backslash escapes outside quotes |

## Left out

- SQLite, sockets, `flock`, signals and clocks: tables are maps and sequences, the spool is a sequence of entries, and a drain is a step of the environment. Failing writes of the overlay file are not modelled.
- The atomicity of one poll's read, one receive and one `record_pending_cursor`: each is one step; races inside them, and room deletion (which can reset numbering), are not modelled.
- Posting joins the room: membership, the rooms table and the roster play no part in the model; the rooms a listener polls are given to it.
- The listener's windows, heartbeats, orphan and room-closed exits: a window is a step that may come at any time.
- `listen_window`'s deadline and sleeping, and rendering of messages.
- Scores: cosine, usefulness, the lexical blend and the embedders are an abstract real-valued score; sums and quotients are exact reals where the source rounds in floating point. Reinforcement after a recall is not modelled, so the prefix law is for one state of the store.
- `stable_id`, `normalise`, `terms` and the digest's normal form are abstract functions; no freedom from collisions is assumed.
- The heredoc opener is an abstract function from a line to an optional delimiter; the catastrophic-command patterns and `decide` are not part of this model.
- Timestamp: `trim` removes ASCII white space only, on bytes; a written timestamp has none.
- CivilDate.DoctorAgreesIff: the month ranges over what two characters can spell, -9 to 99; days and years are unrestricted.
- Upkeep: the worklist's `Vec::remove(0)` and index arithmetic are slices; `plan_merges` and the prompts are not modelled.
- Apply.PlanSplit: takes the candidate texts; parsing a model's reply is not modelled, and the 60% rule is exact arithmetic.
- Queue: `screen`, `scope`, `rationale`, `source` and the timestamps of a row are left out, as is `list_all`; they decide nothing here.
- Queue.Librarian.Request: an explicit dataset is taken as the source's `target_dataset` takes it, trimmed and refused when blank, since an approval carries no origin to derive one from.
- Queue.Librarian.Approve: an unreadable fact table, which the source treats as "every source exists", is not modelled; nor are other writers between planning and applying.
- ApplyRuns.NothingLostMidway: the runs are of one proposal, with no entries of others in the spool that write the same rows.
- SpoolRuns.EveryEmptiedSpoolIff: is about runs in which no update errors in silence; the drain ignores a retirement that errors, and then that source stays live.
- ShellQuotes.ScanIsShellIff: nothing is claimed on texts with the constructs that `Odd` lists, nor about what follows the first backquote that a shell acts on.
- Requests: a spooled `proposal_add` is the same addition at the time of the drain, set aside when kind or dataset is empty; spooled `forget`, configuration and bus writes are not modelled, apart from read receipts.
- `forget`, `gc`, `backup`, the dashboard, Telegram, presence and the command line parser are not part of this model.
