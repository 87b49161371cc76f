# A verified model of pymap's core

pymap is an IMAP server. This project models, in Dafny, the parts of it that decide what a client
sees, and proves what they are for. `dafny verify dfyconfig.toml` checks everything.

* **Session synchronisation.** `Flags`, `Synchronized`, `ChangeLog`, `Mailbox` and `Selected` model
  the classes of `pymap/flags.py`, `pymap/selected.py` and `pymap/backend/dict/mailbox.py`, each
  method against a function on plain values. `Replay` is a client that knows only positions and what
  it was told for them. `SessionRuns` puts a mailbox, one session and its client together and proves
  what holds over every run, `LooseRuns` what holds without a truthful change log, and `DeadUpdates` what
  a flags update of a deleted message does. `FlagReports` says which FETCH responses a fork sends,
  `ClientFlags` that the client is told no false flags, and `ClientBelief` when it is right about flags
  that its own commands told it or stored silently, with `SilentStore` for two runs after which it is
  not. `RecentCounts` follows the number of recent messages that a client is told, and `RecentFlag` the
  flag itself over any number of sessions and mailboxes.
* **Sequence sets.** `SequenceSets` (contents, and the minimal cover that `build` makes),
  `SequenceSetText` (printing and reading) and `CopyUid` (what COPY and MOVE do, and the pairing told
  by COPYUID).
* **Mailbox names.** `Names`, `ListTree` and `Rename` (renaming a subtree as moves in a map);
  `Utf7`, `ModUtf7`, `NameBits`, `NameDigits`, `NameRoundTrip`, `NameBlanks`, `NameWeights`, `NameExact`,
  `NameProgress` and `NamePrintable` (modified UTF-7, with the UTF-7 codec of CPython written out as
  UTF-16 units packed six bits to a letter).
* **Messages.** `MimeLines`, `MimeParts` and `Mime` (lines, parts between boundaries, nesting).
* **Search.** `SearchCriteria` (keys, what they require and what their criteria read) and `Search`
  (pre-filter and loading on demand).
* **Wire values and responses.** `Wire`, `Primitives`, `ValueRoundTrip` and `ValueGrammar` (nested lists),
  `ResponseMerge` and `MergeExact` (merging of FETCH responses), `Answers` (whole answers, fork
  included) and `StaleAnswer` (a run whose answer must not be merged).

`Collections` holds what the others share.

A class is proved against functions on values: `Mailbox.Apply` says what an event does to a mailbox,
`Selected.Responses` what a fork sends, `Rename.MoveAll` what a list of moves does, `CopyUid.CopyAll`
what a COPY or MOVE does. Theorems about runs are about these functions. Clocks, hashes, the content
of messages, object identities, the order in which a dictionary or set yields its elements, and what
other sessions do between two steps are parameters.

## Where the code falls short of the property

Each of these is stated with the exact condition under which the code meets the property.

* The change log stays truthful exactly if no flags are stored on a message that is gone and no UID
  is deleted twice in one call (`Mailbox.ApplyLogAgrees`). Otherwise a session keeps a message that
  the mailbox no longer has, for as long as nobody deletes its UID again
  (`DeadUpdates.DeadUpdateHidesExpunge` and `DeadUpdates.DoubleDeleteHidesExpunge`). A poll gives the
  session exactly the mailbox exactly if no message that it lists is gone without being logged as
  expunged (`LooseRuns.ConvergesExactly`).
* A silent STORE is meant to silence nothing but its own outcome. The client is told of the flags of a
  message, or right about them, exactly if they are not back to those of the last fork, unless its STORE
  left those as they were (`FlagReports.SilentStoreExactly`): if another session takes `\Seen` off again
  that the client has just stored silently, the client is not told (`SilentStore.UndoneIsQuiet`). A
  silent STORE that is refused silences its outcome all the same (`FlagReports.RefusedStoreExactly`): if
  another session then sets that flag, the client is not told (`SilentStore.RefusedIsQuiet`).
  `SilentStore.BothHappen` has both from a fresh server. Over whole runs, what the client believes of the
  flags of a message is right at every fork exactly if it was never misled so
  (`ClientBelief.BeliefExact`, with `ClientBelief.TakenBackMisleads`).
* A message that a fork does not report has the flags it had exactly if no session flags were emptied
  that it does not have otherwise (`FlagReports.UnreportedExactly`, with `FlagReports.EmptiedIsLost`).
* A silent STORE keeps the change of session flags quiet exactly if the `\Recent` mark makes no
  difference to it (`FlagReports.SilencedSflagsExactly`): as long as no client names `\Recent`, for
  messages that are not `\Recent` and for replacements (`FlagReports.SilencedUnlessRecent`, with
  `FlagReports.MarkedIsReported`).
* A rename does its work exactly if neither name is empty or the mailbox has no inferiors
  (`Rename.RenameExact`): under an empty name the listing forgets the leading delimiter, as with a
  mailbox `/x` (`Rename.EmptyNameNotRenamed`).
* A KeyError of a rename means that no mailbox is at or below the old name exactly if each name that the
  listing has written is there at its turn, as it is unless the old name is empty and has inferiors
  (`Rename.KeyErrorExactly`, with `Rename.EmptyNameNotFound`).
* The client has been told how many messages are recent exactly if SELECT told it right or the number
  changed since (`RecentCounts.HeardIsMailbox`); SELECT tells it wrong in a read-only session of a mailbox
  with recent messages (`RecentCounts.ReadOnlySelect`).
* A mailbox name survives modified UTF-7 exactly if no `&` in it directly follows a character outside
  printable ASCII and every TAB, CR and LF stands between two characters outside printable ASCII
  (`NameExact.NameSurvives`, with two names that do not in `NameExact.NamesLost`). The decoder makes
  no progress exactly if it reads everything before some `&` that something but no `-` follows
  (`NameProgress.DivergesExactly`), as with `&a` (`NameProgress.Hangs`).
* The encoding of a name is printable ASCII, as section 5.1.3 of RFC 3501 wants it, exactly if no TAB,
  CR or LF stands between two characters outside printable ASCII (`NamePrintable.PrintableExactly`, with
  `NamePrintable.TabKept`): a name with one of them is never both encoded so and read back (`NamePrintable.PrintableOrReadBack`).
* A parsed message gives back its bytes exactly if it has a body line or is empty
  (`Mime.MessageRaw`; a field without a blank line after it loses its line feed, `Mime.HeaderAlone`),
  and a part at any depth exactly if it has a header and a body or lies where the code puts the ends
  of an empty one (`Mime.MessagePartsRaw`; `Mime.HeaderlessPart` is a part that gives the whole
  message instead); raw header and raw body make up the bytes exactly if neither is empty, for data
  of two bytes or more (`Mime.RawExact`).
* The FETCH responses of an answer may be merged, whatever they report, exactly if no number that the
  command fetched and the fork fetches again is at or above one that the fork expunges
  (`Answers.AnswerExact`). `StaleAnswer.MergedAnswerMisleads` is a run after which a client that
  fetches a message by UID takes another message for it.

Where code and documentation disagree, the model follows the code: section 6.3.5 of RFC 3501 leaves
the inferiors of INBOX alone when INBOX is renamed, the code moves them
(`pymap/backend/dict/mailbox.py:423-430`); the comment on `FetchResponse.merge` keeps attributes that
are already there, the code replaces them (`pymap/parsing/response/specials.py:119-139`); the comment
on `SearchCriteriaSet` says that an empty set matches nothing, the code matches everything
(`pymap/search.py:159-199`); section 6.4.4 of RFC 3501 has the search key BODY look into the body
alone, the code lets it look into headers as TEXT does (`pymap/search.py:154-155`); section 9 of
RFC 3501 allows `}` in an atom, the code does not (`pymap/parsing/__init__.py:148-149`).

## Model

| member | source | states |
|---|---|---|
| Flags.SessionFlags.Remove | pymap/flags.py:155-164 | drops exactly the given UIDs from the session flags and from the recent set |
| Flags.SessionFlags.Update | pymap/flags.py:166-182 | the message ends with the operation applied to its flags and the defined part of the operand, an empty result being forgotten; no other message changes |
| SequenceSets.FlattenBounded | pymap/parsing/specials/sequenceset.py:76-116 | with `*`, reversed and overlapping ranges: no set contains a number above the maximum it is resolved with |
| SequenceSets.NumbersContain | pymap/parsing/specials/sequenceset.py:76-96 | a number contains itself up to the maximum; two numbers, in either order, contain what lies between them up to the maximum |
| SequenceSets.StarContains | pymap/parsing/specials/sequenceset.py:82-96 | `*` is the maximum: alone it contains just that, with a number at either end what lies between the two, which is the maximum alone for a number above it |
| SequenceSets.AllContains | pymap/parsing/specials/sequenceset.py:98-116 | the set of all contains the numbers from 1 to the maximum, none for maximum 0 |
| SequenceSets.ListContains | pymap/parsing/specials/sequenceset.py:98-116 | a list contains what one of its elements contains |
| SequenceSets.Build | pymap/parsing/specials/sequenceset.py:174-202 | fails exactly on the empty list; otherwise its groups are the maximal runs of consecutive numbers, for any order and any duplicates |
| SequenceSets.AddToGroups | pymap/parsing/specials/sequenceset.py:188-200 | one round of the loop keeps the groups the maximal runs of the numbers so far |
| SequenceSets.FlattenCover | pymap/parsing/specials/sequenceset.py:98-116 | a built set contains exactly the numbers it was built from, for every maximum at or above them |
| SequenceSets.BuildIsMinimal | pymap/parsing/specials/sequenceset.py:174-202 | no list of elements with the same contents, whatever its form, is shorter than the built one |
| SequenceSetText.ToBytes | pymap/parsing/specials/sequenceset.py:124-136 | the printing loop gives the elements joined by commas, and `1:*` for the set of all |
| SequenceSetText.Parse | pymap/parsing/specials/sequenceset.py:204-220 | the reading loop takes the elements up to the first that no comma follows, or fails |
| SequenceSetText.RoundTrip | pymap/parsing/specials/sequenceset.py:124-220 | reading what was printed gives the set and the rest, exactly if the rest neither continues the last element nor the list |
| SequenceSetText.ReadIsPrinted | pymap/parsing/specials/sequenceset.py:152-220 | conversely, what is read as a set is, after the leading spaces, the text that the set is printed as, with positive numbers and at most one comma after it |
| SequenceSetText.PrintedAs | pymap/parsing/specials/sequenceset.py:118-136 | the bytes of the text: `*`, decimal numbers, `:` between two and `,` between elements |
| Synchronized.SynchronizedMessages.Update | pymap/selected.py:107-127 | in any order and with duplicates: the cache is overridden message by message and all five structures stay in step, although only a suffix is renumbered |
| Synchronized.SynchronizedMessages.Remove | pymap/selected.py:129-149 | the UIDs leave all five structures, or are only noted as pending; the numbering stays right |
| Synchronized.SynchronizedMessages.Renumber | pymap/selected.py:124-127 | numbering from the lowest changed place on makes every number right |
| Synchronized.SynchronizedMessages.PickedAreCached | pymap/selected.py:160-195 | every message a sequence set picks is in the cache |
| Synchronized.SynchronizedMessages.PickedAscend | pymap/selected.py:160-175 | the picked UIDs ascend |
| Synchronized.SynchronizedMessages.PickedExactly | pymap/selected.py:160-175 | for every set, exactly the cached messages are picked whose UID is in a UID set, `*` being the greatest cached UID, or whose number is in a number set, `*` being how many there are; the number is one more than there are cached UIDs below |
| Synchronized.SynchronizedMessages.AllPicked | pymap/selected.py:177-195 | the messages come in the same order with the same numbers, each the one cached under its UID |
| Synchronized.SelectSound | pymap/selected.py:160-175 | every picked pair is a message with its own number, and is in the set by number or by UID |
| Synchronized.SelectComplete | pymap/selected.py:160-175 | every message in the set is picked |
| ChangeLog.ModSequenceMapping.RemovePrev | pymap/backend/dict/mailbox.py:87-94 | takes the UID out of the entry it was listed under, and the entry out once it is empty; the order list keeps listing the entries |
| ChangeLog.ModSequenceMapping.Set | pymap/backend/dict/mailbox.py:96-106 | one call extends the history by one batch and leaves each UID listed only under its last change, also for lists that are empty or name a UID twice |
| ChangeLog.ModSequenceMapping.FindUpdated | pymap/backend/dict/mailbox.py:114-130 | two disjoint sets: exactly the UIDs whose last change came at or after the given number, by the kind of that change |
| ChangeLog.EntriesBounded | pymap/backend/dict/mailbox.py:87-106 | there are never more non-empty entries than known UIDs |
| Mailbox.ApplyWellFormed | pymap/backend/dict/mailbox.py:241-327 | every change keeps messages under their own UIDs, and new ones get UIDs above all handed out before |
| Mailbox.ApplyLogAgrees | pymap/backend/dict/mailbox.py:87-130 | after any change the log says of every UID whether it is there, exactly if the change neither updates a message that is gone nor deletes a UID twice |
| Mailbox.MailboxData.Append | pymap/backend/dict/mailbox.py:241-255 | the new message gets the next UID and is logged as updated |
| Mailbox.MailboxData.Copy | pymap/backend/dict/mailbox.py:257-270 | nothing if the message is gone, else a copy under the next UID of the destination, which may be the mailbox itself |
| Mailbox.MailboxData.Move | pymap/backend/dict/mailbox.py:272-287 | nothing if the message is gone, else it leaves this mailbox and enters the destination |
| Mailbox.MailboxData.Update | pymap/backend/dict/mailbox.py:300-306 | the flags of the stored message change by the operation; a UID that is gone gives an expunged copy, an unknown one an error |
| Mailbox.MailboxData.Delete | pymap/backend/dict/mailbox.py:308-316 | the messages that are there go, and the UIDs are logged as expunged |
| Mailbox.MailboxData.ClaimRecentFor | pymap/backend/dict/mailbox.py:318-327 | all `\Recent` marks move from the mailbox to the session and are logged in ascending order |
| Mailbox.MailboxData.UpdateSelected | pymap/backend/dict/mailbox.py:224-239 | the session becomes what the specification of a poll says, from everything the first time and from the log afterwards |
| Selected.SelectedMailbox.AddUpdates | pymap/selected.py:295-320 | the new session value, with expunges deferred while hidden and pending ones dropped otherwise |
| Selected.SelectedMailbox.SetMessages | pymap/selected.py:322-337 | a full list acts as updates of all and expunges of those missing |
| Selected.SelectedMailbox.Silence | pymap/selected.py:363-389 | the flags keys that the operation would leave on the selected cached messages are silenced, no others |
| Selected.SelectedMailbox.Fork | pymap/selected.py:391-412 | the responses are those of the specification, and the copy starts the next epoch from the frozen state |
| Selected.SelectedMailbox.Compare | pymap/selected.py:414-443 | EXPUNGE from the last to the first, then EXISTS, RECENT and one FETCH per changed message, as `Selected.Changes` lists them |
| Selected.SelectedMailbox.CompareExpunged | pymap/selected.py:422-425 | one EXPUNGE per message gone, with its old number, highest first |
| Selected.SelectedMailbox.CompareFlags | pymap/selected.py:430-443 | one FETCH per message whose flags are new, in ascending order |
| Replay.ReplayExpunges | pymap/selected.py:422-425 | deleting positions one after the other leaves exactly the lines of the messages that stayed |
| Replay.ReplayNumbers | pymap/selected.py:414-429 | after EXPUNGE and EXISTS the client's list has moved along with the server's, line by line |
| Replay.FetchesName | pymap/selected.py:430-443 | every FETCH number names its message in the list after the fork |
| Replay.ReplayFetches | pymap/selected.py:430-443 | every FETCH of a fork tells the line of its own message, and no other |
| Replay.ReplayFork | pymap/selected.py:391-443 | a client that applies a fork's responses by position ends with exactly the server's numbering, told of exactly the reported messages and otherwise with the lines it had |
| SessionRuns.StepInv | pymap/selected.py:295-412 | every step of mailbox, session and client keeps the invariant that ties the three together |
| SessionRuns.ClientConverges | pymap/backend/dict/mailbox.py:224-239 | after any run, a poll and a fork that hides nothing leave the session with exactly the mailbox and the client with exactly its numbering |
| SessionRuns.NextCommandConverges | pymap/selected.py:391-412 | hiding lasts for one command: after any run and a fork, also one that hid expunges, the next poll and fork leave client and session with exactly the mailbox |
| SessionRuns.ByeExactly | pymap/selected.py:416-418 | a fork sends BYE exactly if the mailbox was deleted, and then nothing else |
| RecentCounts.ForkHeard | pymap/selected.py:428-429 | a client that remembers the last RECENT has after a fork the number of recent listed messages if that changed, and else what it had |
| RecentCounts.RunHeard | pymap/selected.py:414-429 | over every run, the client has the number of recent listed messages of the last fork exactly if it had it before or some fork of the run found another number than the one before it |
| RecentCounts.HeardIsMailbox | pymap/imap/state.py:386-407 | after any run, a poll and a fork that hides nothing, the client has the number of messages of the mailbox that are recent in the session, exactly if SELECT told it right or the number changed since |
| RecentCounts.WritableSelect | pymap/imap/state.py:169-187 | a session that may write is told right by SELECT |
| RecentCounts.ReadOnlySelect | pymap/imap/state.py:173-187 | a read-only session is told the marks of the mailbox, of which it holds none: right exactly if the mailbox has none |
| LooseRuns.ConvergesExactly | pymap/backend/dict/mailbox.py:224-239 | after any run, also with flags stored on messages that are gone and UIDs deleted twice in a call, a poll and a fork that hides nothing leave the client with the session's numbering, and the session with the mailbox and the messages it lists that are gone without being logged as expunged: with exactly the mailbox exactly if there is none |
| ClientFlags.ToldIsTrue | pymap/selected.py:414-443 | after any run, a poll and a fork that hides nothing, every flag set that a fork told the client for a line is, `\Recent` mark included, that of the message there in the mailbox, for all messages that were never silenced nor given session flags |
| ClientBelief.BeliefExact | pymap/imap/state.py:305-360 | over every run with the client's own FETCH responses, silent STOREs and refused ones: after each fork the client is right about the flags of a message exactly if before none it believed something else while the flags were back to those of the last fork, or were what a refused STORE had wanted, with no new mark |
| ClientBelief.BeliefIsMailbox | pymap/imap/state.py:386-407 | after such a run, a poll and a fork that hides nothing, what the client believes is what the mailbox has, exactly under that guard |
| ClientBelief.TakenBackMisleads | pymap/selected.py:363-389 | the guard fails whenever the flags are put back that a client who knew them had changed silently |
| SessionRuns.EveryFork | pymap/imap/state.py:386-407 | at every fork of every run the client keeps step, nothing is pending after a poll that hid nothing, and nothing is hidden or silenced in the next command |
| SessionRuns.AnnouncedOnce | pymap/selected.py:129-149 | over a whole run no UID is announced as expunged twice |
| SessionRuns.HiddenFork | pymap/imap/state.py:305-343 | a command that hides expunges sends no EXPUNGE and moves no message |
| SessionRuns.ForkAnnounces | pymap/selected.py:414-443 | the EXPUNGE responses of a fork are the numbers of the announced UIDs and come before all others |
| SessionRuns.IncrementalIsReload | pymap/backend/dict/mailbox.py:224-239 | the incremental update gives what loading the whole mailbox gives |
| SessionRuns.PollDropsFlags | pymap/selected.py:295-320 | a poll drops the mark and the session flags of a message that is gone exactly if nothing is hidden and the log reports the expunge to that very poll, so that those of an expunge that was held back can stay behind |
| SessionRuns.StoredSessionFlags | pymap/flags.py:94-182 | a store leaves a session flag on a message exactly by its operation and what the session defines, `\*` standing for all; other messages keep theirs |
| SessionRuns.OnlyDefinedRun | pymap/flags.py:94-182 | over every run a session without `\*` holds no flags but those it defines |
| DeadUpdates.DeadUpdateHidesExpunge | pymap/backend/dict/mailbox.py:300-306 | flags stored on a message just deleted make a session that listed it go on listing it, over every run in which its UID is not deleted again |
| DeadUpdates.DoubleDeleteHidesExpunge | pymap/backend/dict/mailbox.py:308-316 | so does a deletion that names its UID twice |
| FlagReports.ReportedExactly | pymap/selected.py:430-443 | a message is reported exactly if its flags are neither those of the last fork nor those that were silenced, or it is newly recent |
| FlagReports.FetchForEach | pymap/selected.py:430-443 | one FETCH for each of them, with its number and all its flags, in ascending order |
| FlagReports.SilencedExactly | pymap/selected.py:378-431 | after a silent STORE the permanent flags of a message are reported exactly if they are neither those of the last fork nor those that the operation made of them for a selected message |
| FlagReports.SilentStoreExactly | pymap/selected.py:363-389 | so the client is told, or right about its own STORE, exactly if the flags are not back to those of the last fork, or the STORE left those as they were |
| FlagReports.RefusedStoreExactly | pymap/imap/state.py:339-345 | after a silent STORE that was refused, the client is told or right exactly if the flags are not what the STORE would have made of those of the last fork, or it would have left those as they were |
| SilentStore.UndoneIsQuiet | pymap/selected.py:430-431 | after any fork that lists a message without `\Seen` as the mailbox has it: the client stores `\Seen` silently, another session takes it off, and the fork after the poll does not say so |
| SilentStore.RefusedIsQuiet | pymap/backend/session.py:303-304 | the STORE is refused, another session sets `\Seen`, and the fork does not say so |
| SilentStore.BothHappen | pymap/selected.py:363-389 | both runs are possible from a fresh server |
| FlagReports.SilencedSflagsExactly | pymap/selected.py:378-389 | a silent STORE keeps its change of session flags quiet exactly if the message was selected and the operation does not tell flags with the `\Recent` mark from flags without |
| FlagReports.SilencedUnlessRecent | pymap/selected.py:378-389 | as long as `\Recent` is not named, that is for messages without the mark and for replacements |
| FlagReports.UnreportedUnchanged | pymap/selected.py:414-443 | a message that is not reported has the permanent flags it had, no new mark, and the session flags it had or none |
| FlagReports.UnreportedExactly | pymap/selected.py:414-443 | all its flags are those it had exactly if no session flags were emptied that it does not have otherwise |
| RecentFlag.RunNeverShared | pymap/backend/session.py:82-88 | from any start where it holds, as on a fresh server (`RecentFlag.FreshWorldOk`), over every interleaving of any number of sessions, each operation picking a session once before it puts its messages one by one, a message is recent in at most one place |
| RecentFlag.StepMarksExactly | pymap/backend/dict/mailbox.py:241-327 | whatever the step, a message is recent somewhere after it exactly if it was before and the step did not close its session, expunge or forget it there, or the step has put it while the picked session is open or none was picked |
| RecentFlag.RunMarksExactly | pymap/backend/session.py:82-88 | over every interleaving a recent message stays recent exactly if no step takes the mark away so |
| CopyUid.CopyMessages | pymap/backend/session.py:251-295 | COPY and MOVE leave both mailboxes and the pairs as the turns of the picked messages make them, in order, with other sessions in between and also into the same mailbox; the chosen session gets the `\Recent` marks of exactly the new UIDs |
| CopyUid.EachTurn | pymap/backend/session.py:260-265 | a picked message gets a pair exactly if it is there when its turn comes; its UID is then paired with one that holds its flags and content, and a moved message is gone |
| CopyUid.CopyAlone | pymap/backend/session.py:283-295 | with nobody else at work the pairs are the picked messages that are there with the next UIDs of the destination, which gains exactly their copies, and a move takes exactly them away |
| CopyUid.CopyAllOk | pymap/backend/session.py:260-270 | whatever the others do, the pairs ascend on both sides and every destination UID is new |
| CopyUid.CopyUidSets | pymap/parsing/response/code.py:149-155 | each set covers exactly its side of the pairs |
| CopyUid.PairingIsExact | pymap/parsing/response/code.py:149-155 | zipping the ascending expansions gives back the pairs, exactly if they ascend on both sides |
| CopyUid.ClientPairs | pymap/parsing/response/code.py:149-159 | a client that reads the two printed sets gets the very pairs |
| Names.BelowIsPrefix | pymap/listtree.py:161-187 | the hierarchy by delimiter is the prefix order on the parts |
| ListTree.AddFinds | pymap/listtree.py:65-72 | adding a name makes exactly its node exist and adds exactly the nodes above it |
| ListTree.BuildFinds | pymap/listtree.py:96-106 | the tree has a node for exactly the names and their superiors, and exactly the names exist |
| ListTree.PathsExact | pymap/listtree.py:126-136 | the walk from a node meets exactly the existing nodes below it |
| ListTree.PathsOnce | pymap/listtree.py:126-136 | and each of them once |
| ListTree.NamesArePaths | pymap/listtree.py:126-136 | the names it yields are the written paths, a parent before its children |
| ListTree.WrittenIsUnder | pymap/listtree.py:126-136 | below a name that is not empty, the written name is the true one |
| Rename.NodeExact | pymap/listtree.py:145-159 | the entry lookups of a rename ask whether a mailbox is at or below the name |
| Rename.MailboxSet.MoveEach | pymap/backend/dict/mailbox.py:423-430 | the loop of in-place moves computes the fold over the two lists of names |
| Rename.MailboxSet.RenameMailbox | pymap/backend/dict/mailbox.py:413-430 | missing source, existing target and the moves, against the specification |
| Rename.RefusedExactly | pymap/backend/dict/mailbox.py:413-422 | for all names: nothing at or below the old name gives KeyError, something at or below both gives ValueError, with nothing changed; a ValueError means just that |
| Rename.KeyErrorExactly | pymap/backend/dict/mailbox.py:413-430 | for all names: a KeyError comes exactly if nothing is at or below the old name, or the new name is free and a listed name is not there at its turn; the latter only if the old name is empty and has inferiors, and else any rename that is not refused succeeds |
| Rename.MoveAllMoves | pymap/backend/dict/mailbox.py:423-430 | with free targets the order of the moves is irrelevant and no other name changes |
| Rename.MoveAllArrives | pymap/backend/dict/mailbox.py:423-430 | every moved mailbox arrives under its target name |
| Rename.TargetsFree | pymap/backend/dict/mailbox.py:413-422 | no target name is in use, also when the new name lies under the old one |
| Rename.RenameExact | pymap/backend/dict/mailbox.py:413-430 | every mailbox at or below the old name goes under the new one, all others stay, nothing is lost and a new INBOX appears only for INBOX itself: exactly if neither name is empty or there are no inferiors |
| Rename.NothingLost | pymap/backend/dict/mailbox.py:413-430 | unless a name is empty and there are inferiors, every mailbox of before is still there, whether the rename is refused or not |
| Rename.KeepsDistinct | pymap/backend/dict/mailbox.py:423-430 | and no two names stand for one mailbox, the new INBOX included |
| Utf7.UnpackPack | pymap/parsing/modutf7.py:14-25 | six-bit packing of 16-bit units is undone by unpacking |
| Utf7.JoinUtf16 | pymap/parsing/modutf7.py:14-25 | joining surrogates undoes splitting, for all Unicode scalar values |
| Utf7.DecodeEncode | pymap/parsing/modutf7.py:14-25 | the codec decodes what it encoded, whatever follows |
| NameBits.RunExactly | pymap/parsing/modutf7.py:14-25 | a run of characters outside printable ASCII with no blank one is written as `&`, letters and `-`, the letters being the base-64 digits, in the alphabet of RFC 3501, of its UTF-16 text as one number, filled up with zero bits |
| NameBits.UnitsExactly | pymap/parsing/modutf7.py:14-18 | a character of 2^16 or more is a high and a low surrogate with ten bits each |
| NameBits.JoinExactly | pymap/parsing/modutf7.py:21-25 | of decoded units, a high surrogate directly before a low one is joined with it and every other unit stands for itself |
| NameBits.PrintableAsItIs | pymap/parsing/modutf7.py:43-62 | a printable character that follows no run is written as it is, `&` as `&-` |
| NameDigits.UnpackExactly | pymap/parsing/modutf7.py:21-25 | any base-64 digits are unpacked exactly to the 16-bit units whose bits they are with fewer than six zero bits after them, and to nothing else |
| NameDigits.LettersExactly | pymap/parsing/modutf7.py:65-100 | between `&` and `-`, any letters of the alphabet are read as the text of those units, and are an error if there are none |
| NameDigits.BytesAsTheyAre | pymap/parsing/modutf7.py:76-86 | a byte that no `&` goes before is read as it is, and `&-` as `&` |
| ModUtf7.Modutf7Encode | pymap/parsing/modutf7.py:28-62 | the encoding loop computes the specification, the unencoded character after a run included |
| ModUtf7.Modutf7Decode | pymap/parsing/modutf7.py:65-100 | the decoding loop computes the specification, with decoding errors and the loop that makes no progress as outcomes |
| NameExact.RawAmpersand | pymap/parsing/modutf7.py:49-57 | an ampersand that was not encoded is never read back as itself, whatever comes before and after |
| NameExact.RunReads | pymap/parsing/modutf7.py:14-25 | whatever follows, an encoded run is read as itself exactly if no blank character is at its ends, else as something else no longer than it or not at all |
| NameExact.NeverAhead | pymap/parsing/modutf7.py:65-100 | reading an encoded name never gives the name with more in front of it |
| NameWeights.CodeWeighsLess | pymap/parsing/modutf7.py:14-25 | what the code of a run is taken for after an unencoded ampersand weighs less, in UTF-16 units outside printable ASCII, than the run |
| NameExact.NameSurvives | pymap/parsing/modutf7.py:28-100 | for every text, decoding undoes encoding exactly if no `&` directly follows a character outside printable ASCII and every TAB, CR and LF is between two of them |
| NamePrintable.PrintableExactly | pymap/parsing/modutf7.py:28-62 | for every text, the encoding is printable ASCII exactly if no TAB, CR or LF is between two characters outside printable ASCII |
| NamePrintable.PrintableOrReadBack | pymap/parsing/modutf7.py:28-100 | no name with a TAB, CR or LF has both a printable encoding and one that is read back |
| NameProgress.DivergesExactly | pymap/parsing/modutf7.py:65-100 | the decoder makes no progress exactly if it reads everything before some `&` that something but no `-` follows |
| NameProgress.Hangs | pymap/parsing/modutf7.py:87-95 | the bytes `&a` make the decoding loop go on for ever, and after bytes that are not decoded the same ones are not reached |
| NameProgress.UnclosedNotRead | pymap/parsing/modutf7.py:87-95 | with such an `&` anywhere nothing is ever decoded |
| NameBlanks.BlankFirst | pymap/parsing/modutf7.py:14-18 | a run that begins with a blank character is not decoded, because the slice leaves one letter too many |
| NameBlanks.BlankLast | pymap/parsing/modutf7.py:14-18 | a run that ends with one loses it or gets a dash instead |
| MimeLines.FindLines | pymap/mime/__init__.py:120-135 | the loop computes the lines of the specification |
| MimeLines.LinesTile | pymap/mime/__init__.py:120-135 | the lines tile the data, each ended by LF, by CR LF or by the end, with no line feed inside |
| MimeLines.SplitLines | pymap/mime/__init__.py:138-144 | header and body make up the lines; the header ends with the first blank line and is empty exactly if there is none |
| MimeLines.BlankExactly | pymap/mime/__init__.py:138-144 | a line is blank exactly if it holds nothing but the six characters of white space |
| MimeLines.SpanConcat | pymap/mime/_util.py:29-38 | adjacent stretches of lines cover adjacent bytes |
| MimeParts.FindParts | pymap/mime/__init__.py:417-431 | the loop computes the parts of the specification |
| MimeParts.PartsDivideBody | pymap/mime/__init__.py:417-431 | the body is a preamble, delimiters each with its part, and what a stop line begins; no part holds a delimiter or stop line |
| MimeParts.PartsUnique | pymap/mime/__init__.py:417-431 | the parts found are the only ones that divide the body so |
| MimeParts.DelimitersAre | pymap/mime/__init__.py:417-431 | delimiters are two dashes and the boundary, a stop line has two more, and no line of a part or of the preamble is either |
| MimeParts.PartsShorter | pymap/mime/__init__.py:406-415 | every part is shorter than the body, so parsing ends |
| Mime.ParseMultipart | pymap/mime/__init__.py:406-415 | the loop parses each part in order |
| Mime.ParseNests | pymap/mime/__init__.py:111-118 | at every depth header and body make up the lines and the parts are ordered, disjoint stretches of the body |
| Mime.ParseStructured | pymap/mime/__init__.py:111-118 | at every depth the header ends with the first blank line, and the parts are those that the boundary divides the body into, the one message that the body is, or none, as the header says |
| Mime.PartSpan | pymap/mime/__init__.py:406-415 | the bytes that the lines of a part cover are one stretch of those that the lines around it cover |
| Mime.MessagePartsRaw | pymap/mime/__init__.py:39-45 | at every depth, the raw bytes of a part are those that its lines cover exactly if it has a header and a body, or the one it has begins with the data or ends a byte before its end |
| Mime.PartRaw | pymap/mime/_util.py:29-38 | for any stretch of lines, what the code gives as raw bytes is the bytes they cover, under that very condition |
| Mime.RawExact | pymap/mime/_util.py:29-38 | raw header and raw body make up the bytes exactly if neither list is empty or the data has at most one byte |
| Mime.MessageRaw | pymap/mime/__init__.py:39-45 | a message keeps its bytes exactly if it has a body line or is empty |
| SearchCriteria.RequiredIsRead | pymap/parsing/specials/searchkey.py:62-81 | the table of requirements by key name asks for exactly the header and body that the compiled criterion reads, through NOT, OR and key sets |
| SearchCriteria.RequiredOfAny | pymap/parsing/specials/searchkey.py:62-81 | a list of keys requires metadata, header or body exactly if one of its keys does |
| SearchCriteria.ReadsEnough | pymap/search.py:202-438 | a criterion that is given the part it reads decides as on the whole message |
| SearchCriteria.NameMatches | pymap/search.py:76-156 | the criterion that a key name is compiled to decides, on the whole message, what the name says |
| SearchCriteria.LoadProvides | pymap/backend/redis/message.py:57-69 | every backend loads at least the parts that it is asked for |
| SearchCriteria.MatchesIsHolds | pymap/search.py:76-254 | with the content its key requires, loaded from any backend, a compiled criterion decides what the key means on the whole message |
| SearchCriteria.OccursExactly | pymap/search.py:54-60 | a text occurs exactly where each of its characters stands, in either case if it is an ASCII letter |
| SearchCriteria.OfAllowed | pymap/search.py:76-156 | a key is compiled exactly if neither it nor a key in it is disabled and each has the argument its name needs |
| Search.SearchMailbox | pymap/backend/session.py:223-237 | the loop computes the specification: keys refused first, then one sequence set visited with content loaded on demand |
| Search.FindingSatisfies | pymap/backend/session.py:226-236 | loading per requirement does not change what is found |
| Search.SkippingIsSafe | pymap/backend/mailbox.py:189-203 | leaving out entries that cannot match does not change what is found |
| Search.SearchIsExhaustive | pymap/search.py:174-199 | the optimised search finds, in order, exactly what testing every message with its whole content finds |
| Search.SearchExactly | pymap/backend/session.py:223-237 | a search is refused exactly if a key is not allowed, and else finds, by ascending numbers, exactly the messages that satisfy every key on their whole content, stated over the cached messages alone |
| Search.OrderIrrelevant | pymap/backend/session.py:226-236 | whichever order the set of keys yields, the outcome is the same |
| Primitives.ParseQuoted | pymap/parsing/primitives.py:277-301 | the loop over special characters computes the unquoted text |
| Primitives.ParseList | pymap/parsing/primitives.py:448-468 | the loop reads items up to the closing parenthesis, within the list limit |
| ValueRoundTrip.ReadIsReadable | pymap/parsing/__init__.py:193-210 | whatever is read is a value with a text of its own and within the limit |
| ValueRoundTrip.RoundTrip | pymap/parsing/primitives.py:448-487 | every value is read back from its text with the rest left alone, exactly if it has a text of its own, fits the limit, and the rest does not run into it |
| ValueGrammar.ReadExactly | pymap/parsing/__init__.py:193-210 | a value is read, with the rest left alone, exactly from the texts that a grammar gives it (NIL in any case, digits, atoms, quoted strings, lists with one or more spaces between items), after any spaces, within the list limit and if the rest does not run into it |
| Primitives.AtomBytesExactly | pymap/parsing/__init__.py:148-149 | the bytes of an atom are those that section 9 of RFC 3501 allows, without `}` |
| ResponseMerge.CommandResponse.AddUntagged | pymap/parsing/response/__init__.py:165-189 | the loop with its index computes the fold, and the index keeps knowing the only FETCH of each number |
| ResponseMerge.MergingKeeps | pymap/parsing/response/__init__.py:165-189 | at most one FETCH per number is left, for the same numbers, and all other responses stay in order |
| ResponseMerge.MergeInPlace | pymap/parsing/response/specials.py:119-139 | a FETCH may go to the earlier one for its number if no EXPUNGE in between moves it |
| ResponseMerge.MergingIsSound | pymap/parsing/response/specials.py:116-139 | if no EXPUNGE between two FETCH for a number moves it, a client holds the same attributes for every number, merged or not, in lists of any form |
| ResponseMerge.WithoutExpunge | pymap/parsing/response/__init__.py:165-189 | in particular for every list without EXPUNGE |
| ResponseMerge.OvertakeExact | pymap/parsing/response/specials.py:116-139 | a FETCH may be taken over an EXPUNGE exactly if its number is below |
| MergeExact.MergingExact | pymap/parsing/response/__init__.py:165-189 | once all EXPUNGE come together, merging is sound for every content of the FETCH responses exactly if none of them moves a number between two FETCH for it |
| Answers.HiddenAnswerMerges | pymap/imap/state.py:305-360 | the answer to a command that hides expunges may be merged, whatever it sent itself but EXPUNGE, which no command does |
| Answers.AnswerExact | pymap/imap/state.py:386-407 | the answer to any command, whatever it sends itself but EXPUNGE and fork included, may be merged whatever its FETCH responses report, exactly if no number that the command fetched and the fork fetches again is at or above one that the fork expunges |
| StaleAnswer.MergedAnswerMisleads | pymap/imap/state.py:339-360 | a run of deliveries, a deletion and a flags update after which the merged answer to a fetch by UID gives the client the UID and flags of the third message for the one it asked for |

## Left out

- SessionRuns.ClientConverges: assumes that session flags are stored only on messages that are listed and still there, because the code drops the flags of a deferred expunge only in the call that reports it.
- SessionRuns.StepInv: `set_deleted` and the BYE it causes are not steps of a run.
- FlagReports.SilencedExactly: cached messages are immutable values; the in-memory backend shares its message objects with session caches, so there a stored flag can show up in the cache before the poll.
- RecentFlag.RunNeverShared: each call on a mailbox is one step; the read-write locks are not modelled.
- CopyUid.CopyMessages: a copy of one message is one step and a move is two; what other sessions do between steps is a list of events given in advance.
- CopyUid.CopyAlone: for a mailbox that is its own destination, the picked UIDs must have been handed out by it, as those of every session are (`SessionRuns.StepInv`).
- ClientFlags.ToldIsTrue: it is about what forks tell, and nothing is said of messages that were once silenced or given session flags; silent STOREs and a command's own FETCH responses are in `ClientBelief.BeliefExact`.
- ClientBelief.BeliefExact: only for messages without session flags; whether the client takes a message for `\Recent` is not compared, since it cannot store that mark.
- LooseRuns.ConvergesExactly: as in every run, only UIDs that were handed out are deleted.
- ValueRoundTrip.RoundTrip: literal strings are not values of the model; a buffer that begins with a literal is not parseable in it.
- Utf7.DecodeEncode: the codec belongs to CPython and not to the repository; its encoder is modelled for text outside printable ASCII, the only text it is given.
- ListTree.AddFinds: tree nodes are values; the source builds a tree for each call and shares no node of it.
- Mime.ParseNests: the content type and boundary are whatever a function of the header lines says; the `email` package is not part of this model.
- SearchCriteria.MatchesIsHolds: dates are day numbers, header fields and addresses are texts that the `email` package gives, and the encoding of a text to bytes is a parameter; a message whose content Redis has lost is not a case.
- JSON forms of parsed messages, folded headers, body decoding and `walk`.
- LIST patterns, subscriptions and `\Marked`: regular expressions and single fields.
- Thread identifiers, email identifiers and the content cache: hashing.
- Redis and maildir mailboxes, sieve, administration, plugins, connections and authentication: I/O and code outside the repository.
