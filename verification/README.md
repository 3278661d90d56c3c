# Verified models of the concurrent and scanning parts of Geetorus

This project models the parts of the repository listed here and proves properties of
the models for all inputs, all runs and all interleavings. Every `.dfy` file is
one component; `dafny verify dfyconfig.toml` checks them all.

| file | component |
|---|---|
| `CommitSearch.dfy` | the windowed commit search: bisection of a time range, paging, memo table |
| `StatsPool.dfy` | the worker pool that fetches commit statistics from a shared counter |
| `CsvExport.dfy` | the CSV exporter, with an independent reader for RFC 4180 |
| `TailBuffer.dfy` | the bounded buffer that keeps the end of captured output |
| `PostgresSupervisor.dfy` | the embedded PostgreSQL supervisor: crash, recover, shut down |
| `QuoteScanner.dfy`, `CredentialRedactor.dfy`, `CredentialForms.dfy` | the quote scanners, the two credential passes, and what they do to texts of a known form |
| `PayloadSanitizer.dfy` | the recursive payload sanitizer |
| `WorktreePorts.dfy` | port allocation and repair in worktrees that share a home |
| `InstallLock.dfy`, `InstallHistory.dfy`, `ManagedShim.dfy`, `RcBlock.dfy` | the install store: lock, rollback history and pruning, command shim, start-up file block |
| `DevSupervisor.dfy` | the dev supervisor and its restart-request mailbox |
| `SchedulerQuiescence.dfy` | bringing the heartbeat scheduler to rest before the shutdown snapshot |
| `ShutdownSignals.dfy` | restoring signal listeners after an import |
| `ChatReconciliation.dfy`, `PluginRecovery.dfy` | the chat lanes with their coalescing trigger, and lazy plugin recovery |
| `OrgForest.dfy` | the org chart builder |

## How the models are built

Code between two `await`s runs without interruption. A protocol is therefore a
`State`, the `Event`s that can come next, and a `Step` function; a run is any
sequence of enabled events. Beside it stands a class whose fields are the
program's own variables. Each method is one turn of the event loop, and its
postcondition says that the new state is `Step` of the old one. The theorems
are lemmas about `Step` and about runs.

Sequential code that works in place is a method with the source's loop, proved
against a definition that does not mention the loop.

What is assumed of the world:

- Commit search: the commits are a fixed set of records, times are integer
  milliseconds, pages are complete. GitHub answers a page with the hits of the
  window, a hundred a page; the incomplete flag is looked at on the first page
  only, as in the code.
- PostgreSQL supervisor: a start that fails leaves no process, a stop succeeds,
  and of the hooks only `beforeRestart` throws. A replacement may exit at any
  time, also before the supervisor listens for it. The continuation after a
  finished recovery runs before the next process event.
- Worktree ports: a config file holds a number for each port. Configs are rewritten
  by repair steps only, once their worktree has completed one; a config file may
  disappear at any time, and then its worktree no longer counts as completed.
- Install lock: each contender has its own token, a process id is never reused,
  and a process that crashes takes no further step.
- Dev supervisor: the mailbox lock excludes, so a write and a compare-and-delete
  are single steps. A removal may find the lock busy.
- Scheduler: the work a task starts is a finite tree. The scheduler is stopped once.
- Redaction: the tables of secret names, schema ids and token shapes are
  parameters. The keys that make up an event envelope are not secret names.
- Signal listeners: removal takes the last entry that is the listener or wraps
  it, which is what Node documents for `once`. Each `once` makes a new wrapper.

## What turned out otherwise

Where a property one would expect does not hold of the code, the model keeps
the code as it is, a lemma shows the failing case, and another lemma gives the
exact condition.

- The install lock is not kept by allowing only one reclaimer at a time: an
  owner that lived when its token was read can exit before it is asked for,
  and by then the file can hold another token (`OneReclaimerIsNotEnough`).
  The owners hold the file throughout a run exactly when no unlink deletes a
  living owner's token, and then no two callbacks overlap (`ExclusionExactly`).
- Not every exit of PostgreSQL is recovered from: a replacement that exits
  before the supervisor listens for it is taken for running
  (`EarlyExitGoesUnnoticed`). Until a shutdown has resolved, the active instance
  is gone exactly when the supervisor knows of its exit, or it exited in some
  turn in which the supervisor did not listen to it (`ActiveGoneIff`).
- A recovery of PostgreSQL need not be reported once: a replacement without a
  child process is reported exhausted and then restarted, and such a first
  instance is reported exhausted before any exit
  (`BlindReplacementReportedTwice`). A finished recovery has one outcome exactly
  when it did not adopt such a replacement (`OneOutcomeIff`), and all exits of a
  run are accounted for once exactly when no such instance was ever made active
  (`ExitsAccountedIff`).
- A restart request without an id is removed unconditionally, so a restart
  started by one deletes a newer request that has an id
  (`UnnamedRemovalTakesANewerRequest`). A deletion names the id it deletes
  exactly when the picked-up request has a nonempty one (`DeletionNamesItIff`).
  The server's own route (`server/src/routes/health.ts`, line 184) always gives
  an id; the failing input is a request file written by something else, which
  the reader accepts because the field is optional.
- Listeners an import registers both plainly and with `once` can stay behind
  (`PlainThenOnceStays`). Restoration holds exactly when, for each function
  with an appended wrapper, it was appended plainly no more often before its
  last wrapper than after it (`RestoredIff`).
- Worktree ports are not always kept apart: two worktrees side by side, each
  isolated under its own root and both with the same port that is no positive
  integer, complete and keep it (`UnclaimablePortsCollide`). After a step a
  worktree shares a port with a completed one exactly when the step left its
  config alone and the two already held that port, which is no positive integer
  (`StepMeetsIff`); over runs, exactly when the later of their steps was such a
  one (`RunMeetsIff`, `RunMeetsInDatabaseIff`).
- An agent that names the empty slug as its manager, when nobody has it, is in
  the org chart neither at the top nor below (`MissingIff`).
- With a slug shared by two agents the org chart builder need not stop
  (`SharedSlugHasNoChart`), though it may (`SharedSlugMayHaveChart`). A finite
  chart exists exactly when no slug reached from a root lies on a loop
  (`ChartExistsIff`), and under that condition the builder is proved to stop.
- A payload's own key `__proto__`, which `JSON.parse` makes, is lost: the
  assignment to a fresh object sets its prototype (`PrototypeKeyIsLost`). Every
  other key is kept, so all keys are kept exactly when that one is not among
  them (`RecordKeysKeptIff`).
- A start-up file that begins with a newline loses it in the round trip
  (`RoundTripIff`).
- A pending empty sha retires a worker of the pool early, so a known commit
  behind it may never be fetched (`EmptyShaHidesTheNext`); a rejected fetch ends
  its worker likewise. When all workers have ended, a pending sha with a known
  commit was requested exactly when the empty shas and the rejected fetches
  before it are together fewer than the workers (`FinishedReachedIff`); with no
  rejection, exactly when the empty shas alone are (`FinishedFetchesReached`).
- The total a search reports counts a commit that is indexed in several
  repositories once for each (`SearchForked`), unless the window had to be
  split, when the total is the number of shas. It is the number of commits
  exactly when the window was split or none of its shas is indexed twice
  (`CountsCommitsIff`).

## Model

| member | source | states |
|---|---|---|
| `CommitSearch.AsksAlike` | scripts/geetorus-commit-metrics.ts:390-450 | Which windows GitHub is asked for does not depend on what is memoised outside of the searched window, so the left half does not change what the right half asks |
| `CommitSearch.HalvesCombine` | scripts/geetorus-commit-metrics.ts:418-431 | If the left half does not throw the whole window does what the right half does, and the memo holds all that both asked for |
| `CommitSearch.LeftThrowsFirst` | scripts/geetorus-commit-metrics.ts:418-424 | A throw in the left half is the first failure of the whole window |
| `CommitSearch.SearchWindow` | scripts/geetorus-commit-metrics.ts:390-450 | From any exact cache it terminates. What it finds is exactly the shas timed in the window; it throws if and only if some window it asks for is reported incomplete, or is at most 60 s wide with more than 900 hits, and then at the first of these from the left; it memoises windows it asked for that did not fail, and all of them when it does not throw; a memoised window costs no request unless refresh is on; no page beyond 9 is asked for; the cache stays exact either way |
| `CommitSearch.SearchHalves` | scripts/geetorus-commit-metrics.ts:418-430 | The two halves around the midpoint together give the whole window; the first that throws ends the search |
| `CommitSearch.CollectPages` | scripts/geetorus-commit-metrics.ts:433-445 | Reading pages until the count is reached collects every hit of a window of at most 900 |
| `CommitSearch.SearchCache.IngestSearchItems` | scripts/geetorus-commit-metrics.ts:515-530 | Exactly the shas of the page are added to the window, and exactly their records to the commit table |
| `CommitSearch.GitHubClient.SearchPage` | scripts/geetorus-commit-metrics.ts:452-468 | One request is one page of the hits in index order |
| `CommitSearch.SearchFromScratch` | scripts/geetorus-commit-metrics.ts:390-450 | A run from an empty cache throws exactly at the first failing window it asks for; else it agrees with the plain definition, and its total is the number of commits exactly when the window was split or no sha of it is indexed twice |
| `CommitSearch.SplitWindow` | scripts/geetorus-commit-metrics.ts:418-421 | Splitting at any millisecond partitions the matching commits |
| `CommitSearch.LeafOutcome` | scripts/geetorus-commit-metrics.ts:433-450 | A finished small window is exact and has no instant too dense to search |
| `CommitSearch.SplitOutcome` | scripts/geetorus-commit-metrics.ts:418-430 | Two finished halves make a finished window, with the set union and a count between its bounds |
| `CommitSearch.CountsCommitsIff` | scripts/geetorus-commit-metrics.ts:410-450 | The total is the number of commits exactly when the window was split or no sha of it is indexed twice |
| `CommitSearch.SearchForked` | scripts/geetorus-commit-metrics.ts:433-450 | A commit indexed in two repositories is found once and counted twice |
| `CommitSearch.ExactCount` | scripts/geetorus-commit-metrics.ts:433-450 | A sufficient condition that also covers memoised entries: no sha of the whole index occurs twice |
| `StatsPool.AtMostOnce` | scripts/geetorus-commit-metrics.ts:599-626 | In every reachable state no index has been requested twice, all requested ones are pending with a known commit, and at most min(concurrency, pending) requests are open |
| `StatsPool.FinishedReachedIff` | scripts/geetorus-commit-metrics.ts:599-626 | When every worker has ended, at a stop or by a rejected fetch, a pending sha with a known commit was requested if and only if the empty shas and the rejected fetches before it are together fewer than the workers; what is stored is what was requested and not rejected |
| `StatsPool.RunEnds` | scripts/geetorus-commit-metrics.ts:599-626 | A run has at most as many turns as pending shas and workers together, and it can go on exactly until every worker has ended |
| `StatsPool.TurnsCounted` | scripts/geetorus-commit-metrics.ts:599-626 | Every turn hands out an index or ends a worker: the turns of a run are the requests made and the workers ended |
| `StatsPool.FinishedFetchesReached` | scripts/geetorus-commit-metrics.ts:599-626 | When every worker has retired, a pending sha with a known commit was requested, once, if and only if fewer empty shas stand before it than there are workers; their statistics are stored and nothing else is |
| `StatsPool.FinishedFetchesAllIff` | scripts/geetorus-commit-metrics.ts:599-626 | Everything that could be fetched was, if and only if no such sha stands behind as many empty ones as there are workers |
| `StatsPool.FinishedFetchesAll` | scripts/geetorus-commit-metrics.ts:599-626 | Without an empty sha exactly the pending shas with a known commit were requested |
| `StatsPool.EmptyShaHidesTheNext` | scripts/geetorus-commit-metrics.ts:604-610 | A run with one worker that ends at an empty sha and never asks for the known commit behind it |
| `StatsPool.ScanPassesStop` | scripts/geetorus-commit-metrics.ts:604-614 | A worker that retires uses up exactly one empty or missing sha |
| `StatsPool.StepKeepsInv` | scripts/geetorus-commit-metrics.ts:599-626 | Each turn of a worker keeps the shared counter, the open requests and the stored statistics in step |
| `StatsPool.ScanHandsOut` | scripts/geetorus-commit-metrics.ts:606-615 | From the loop head a worker takes exactly the next eligible index |
| `StatsPool.StatsEnricher.Advance` | scripts/geetorus-commit-metrics.ts:605-615 | The worker loop up to its next wait is the specified step |
| `StatsPool.StatsEnricher.Settle` | scripts/geetorus-commit-metrics.ts:615-621 | Storing the statistics, counting the fetch and going on is the specified step |
| `StatsPool.StatsEnricher.Reject` | scripts/geetorus-commit-metrics.ts:615-626 | A rejected fetch ends its worker and nothing else |
| `CsvExport.FieldRoundTrip` | scripts/geetorus-commit-metrics.ts:816-821 | Any value whatever, escaped, reads back as itself under rules 5 to 7 of section 2 of RFC 4180 |
| `CsvExport.RecordRoundTrip` | scripts/geetorus-commit-metrics.ts:785-821 | A record of any fields reads back as those fields |
| `CsvExport.TableRoundTrip` | scripts/geetorus-commit-metrics.ts:755-821 | A printed table reads back as the table |
| `CsvExport.PrinterInjective` | scripts/geetorus-commit-metrics.ts:755-821 | Two tables that print alike are the same table |
| `CsvExport.WriteExport` | scripts/geetorus-commit-metrics.ts:738-792 | The text reads back as the header and one row a sha in the order given; it throws exactly when some sha has no cached commit, at the first such |
| `CsvExport.HeaderNeedsNoEscape` | scripts/geetorus-commit-metrics.ts:755-772 | Writing the header unescaped is the same as escaping it |
| `CsvExport.ColumnsOf` | scripts/geetorus-commit-metrics.ts:794-814 | Each column holds its part of the commit; missing texts print empty and missing statistics as zero |
| `CsvExport.DecimalReadsBack` | scripts/geetorus-commit-metrics.ts:783-786 | A number prints as its numeral, without leading zeros |
| `CsvExport.NamesJoin` | scripts/geetorus-commit-metrics.ts:807 | The names of the contributors stand in order with a bar between any two |
| `TailBuffer.CapturedOutputBuffer.constructor` | scripts/dev-runner-output.ts:10-19 | A limit below one is raised to one; nothing is written yet |
| `TailBuffer.CapturedOutputBuffer.Append` | scripts/dev-runner-output.ts:22-45 | Over any appends the chunks concatenate to the last limit bytes written, no chunk is empty, the counters are right, and trimming stops |
| `TailBuffer.CapturedOutputBuffer.Finish` | scripts/dev-runner-output.ts:47-62 | The output is the tail of everything written, with the notice exactly when bytes were lost |
| `TailBuffer.CaptureAll` | scripts/dev-runner-output.ts:14-64 | What is kept depends only on the bytes, not on how they were cut into chunks |
| `TailBuffer.TailOfTail` | scripts/dev-runner-output.ts:22-45 | What was trimmed earlier is never needed later |
| `PostgresSupervisor.StepKeepsInv` | server/src/embedded-postgres-supervisor.ts:37-92 | Every turn keeps the invariant: which instance may run at each wait of the recovery and of the shutdown |
| `PostgresSupervisor.AtMostOneRunning` | server/src/embedded-postgres-supervisor.ts:37-92 | Over every interleaving at most one instance runs |
| `PostgresSupervisor.ExitsAccountedIff` | server/src/embedded-postgres-supervisor.ts:37-79 | Over every run each unexpected exit has exactly one of restarted, exhausted, abandoned, or a recovery still under way, if and only if no instance without a process was made active |
| `PostgresSupervisor.OneOutcomeIff` | server/src/embedded-postgres-supervisor.ts:37-79 | From its exit to its end a recovery has exactly one outcome if and only if it did not adopt a replacement without a process; otherwise it has two |
| `PostgresSupervisor.OutcomesCounted` | server/src/embedded-postgres-supervisor.ts:37-79 | Over every run outcomes and exits differ by exactly the instances without a process that were made active |
| `PostgresSupervisor.BlindReplacementReportedTwice` | server/src/embedded-postgres-supervisor.ts:53-71 | A run in which one exit is reported exhausted and restarted; a first instance without a process is reported exhausted after no exit |
| `PostgresSupervisor.RecoveryEndsAs` | server/src/embedded-postgres-supervisor.ts:37-64 | A recovery ends as restarted exactly when a start succeeded and no shutdown was called, as exhausted when all its attempts failed and none was called, and as abandoned otherwise |
| `PostgresSupervisor.GivesUpIff` | server/src/embedded-postgres-supervisor.ts:37-71 | A finished recovery is reported exhausted if and only if as many attempts failed as there are delays with no shutdown called, or it adopted a replacement without a process |
| `PostgresSupervisor.AttemptsCounted` | server/src/embedded-postgres-supervisor.ts:39-44 | At every wait of a recovery the attempt under way is the one after the failed ones, and it delays only where its delay is positive |
| `PostgresSupervisor.FailureIsRetried` | server/src/embedded-postgres-supervisor.ts:39-62 | A failed attempt before the last is followed by the next one, behind its delay if that is positive |
| `PostgresSupervisor.PreparedAfterDelay` | server/src/embedded-postgres-supervisor.ts:42-44 | An attempt with a positive delay is prepared only by the turn in which the delay elapsed |
| `PostgresSupervisor.NoAttemptAfterShutdown` | server/src/embedded-postgres-supervisor.ts:39-63 | Once a shutdown was called no attempt begins and no replacement becomes active; one that starts then is stopped |
| `PostgresSupervisor.OneStartAfterShutdown` | server/src/embedded-postgres-supervisor.ts:39-52 | Over every run at most one start is made after the shutdown call, if a hook was running then |
| `PostgresSupervisor.ShutdownStopsActiveIff` | server/src/embedded-postgres-supervisor.ts:85-90 | The shutdown stops the active instance exactly if that is not known to have exited |
| `PostgresSupervisor.MonitoredIff` | server/src/embedded-postgres-supervisor.ts:53-79 | The supervisor listens to the active instance exactly if that had a process when it was made active |
| `PostgresSupervisor.StartsBoundedPerRecovery` | server/src/embedded-postgres-supervisor.ts:37-64 | From the exit that sets a recovery off to its end, or to any moment before, at most as many starts are made as there are delays |
| `PostgresSupervisor.StartsBounded` | server/src/embedded-postgres-supervisor.ts:37-64 | Summed over a run, at most that many starts for each unexpected exit |
| `PostgresSupervisor.ExitCountsIff` | server/src/embedded-postgres-supervisor.ts:66-79 | An exit sets a recovery off exactly when it is the monitored active instance's and no shutdown was called |
| `PostgresSupervisor.ActiveGoneIff` | server/src/embedded-postgres-supervisor.ts:37-92 | Over every run, until a shutdown has resolved, the active instance is gone if and only if its exit is known or it exited in a turn in which it was not listened to |
| `PostgresSupervisor.EarlyExitGoesUnnoticed` | server/src/embedded-postgres-supervisor.ts:46-57 | A run in which the replacement exits that early and the supervisor takes it for running |
| `PostgresSupervisor.RecoveryTerminates` | server/src/embedded-postgres-supervisor.ts:37-64 | Each turn of a recovery uses up one of finitely many; no other turn gives any back |
| `PostgresSupervisor.ResolvedMeansStopped` | server/src/embedded-postgres-supervisor.ts:82-92 | Once the first shutdown call has resolved nothing runs, and over every later turn nothing is started |
| `PostgresSupervisor.ShutdownStartsNothing` | server/src/embedded-postgres-supervisor.ts:66-79 | After the shutdown call no exit starts a recovery |
| `PostgresSupervisor.ShutdownHasATurn` | server/src/embedded-postgres-supervisor.ts:82-92 | An unresolved shutdown always has a turn of its own or of the recovery it waits for |
| `PostgresSupervisor.Supervisor.Recover` | server/src/embedded-postgres-supervisor.ts:37-64 | The head of the attempt loop is the specified step: exhausted, abandoned, waiting or preparing |
| `PostgresSupervisor.Supervisor.OnExit` | server/src/embedded-postgres-supervisor.ts:66-79 | The exit handler ignores every instance but the active one |
| `PostgresSupervisor.Supervisor.OnStartSettled` | server/src/embedded-postgres-supervisor.ts:46-71 | A replacement that started during shutdown is stopped; otherwise it becomes active, reported exhausted too when it has no process; a failure tries again |
| `PostgresSupervisor.Supervisor.ContinueShutdown` | server/src/embedded-postgres-supervisor.ts:85-90 | After the recovery the active instance is stopped unless it has exited |
| `QuoteScanner.RawQuotedValueEnd` | server/src/redaction.ts:435-473 | The loop ends where the specification says: at the first deciding delimiter, else after the last delimiter if blank space follows it, else at the end of the input |
| `QuoteScanner.EscapedQuotedValueEnd` | server/src/redaction.ts:475-517 | The same for serialized values, whose delimiter is a quote behind exactly one backslash |
| `QuoteScanner.ClassifyDelimiter` | server/src/redaction.ts:448-464 | One delimiter decides, or becomes the provisional end, or makes it unsafe, as the specification of what was scanned requires |
| `QuoteScanner.QuotedEndUnique` | server/src/redaction.ts:435-517 | The specification leaves one position |
| `QuoteScanner.QuotedEndIsBoundary` | server/src/redaction.ts:392-517 | The position lies in (start, length] and is the end of input, a trusted boundary after an unescaped matching quote, or the end of a line before an independent credential line |
| `QuoteScanner.DelimiterGuardAgrees` | server/src/redaction.ts:525-535 | The fail-closed guard after a scanner never moves what the scanner returned |
| `CredentialRedactor.AuthorizationCredentialRange` | server/src/redaction.ts:543-634 | It returns the range of a Basic or Bearer value, and none exactly when there is no such range |
| `CredentialRedactor.RedactAuthorizationCredentials` | server/src/redaction.ts:636-658 | It terminates; the accepted ranges are the one list that the labels of the input call for; every label whose value is a Basic or Bearer credential is replaced or stands inside a replaced one, and the output is the input with just these ranges replaced |
| `CredentialRedactor.NoLabelPassedOver` | server/src/redaction.ts:636-658 | From any point of the pass on, each label whose value is a credential is replaced, or begins inside a credential that is |
| `CredentialRedactor.AuthorizationValueUnique` | server/src/redaction.ts:543-634 | A value has one range, with one end and one replacement |
| `CredentialRedactor.TakenIs` | server/src/redaction.ts:636-658 | What the pass finds at a label is exactly what there is to take: the range of the value, unless an earlier range reaches into it |
| `CredentialRedactor.BearerCredentialRange` | server/src/redaction.ts:667-699 | A range is returned exactly when something follows the word on its line, and then it is the credential, possibly empty |
| `CredentialRedactor.RedactStandaloneBearerCredentials` | server/src/redaction.ts:660-710 | It terminates; the accepted ranges are the one list the words of the input call for; each is a Bearer credential, every Bearer word that carries one is handled, and the output is the input with just these ranges replaced |
| `CredentialRedactor.BearerTake` | server/src/redaction.ts:682-706 | A turn of the loop adds exactly the credential of its word to what was taken and assembled; the word never begins before what was copied, so the guard against it never fires |
| `CredentialRedactor.WeaveOriginals` | server/src/redaction.ts:636-710 | Putting the original texts back gives the input: a pass loses nothing but what it replaced and moves nothing |
| `CredentialRedactor.CredentialEndUnique` | server/src/redaction.ts:543-634 | A credential has one end |
| `CredentialRedactor.BearerWordsApart` | server/src/redaction.ts:660-670 | Two Bearer words never overlap, so a match advances past the last |
| `CredentialForms.BareValue` | server/src/redaction.ts:598-634 | A value that is a word, blanks and a token is replaced, from the word to the end of the token, if and only if the word is Bearer or Basic in any case; with another word there is no range |
| `CredentialForms.QuotedValue` | server/src/redaction.ts:570-597 | A value in raw or serialized quotes is replaced whole, with its quotes around the marker, if and only if its first word is one of these |
| `CredentialForms.LastQuotedValue` | server/src/redaction.ts:435-597 | The same whatever follows, if it has no other such quote: the range ends behind the quotation where a structural character, a space on the line, an independent credential line or nothing follows, and else reaches to the end of the text |
| `CredentialForms.BearerLine` | server/src/redaction.ts:408-433 | A line that begins with Bearer in any case and blanks is an independent credential line |
| `CredentialForms.RequestLine` | server/src/redaction.ts:408-433 | So is one that begins with the words of a failed request |
| `CredentialForms.OtherLine` | server/src/redaction.ts:408-433 | A line that begins with any other word is not |
| `CredentialForms.ValueBegins` | server/src/redaction.ts:549-568 | The value begins behind blanks alone, or one colon or equals sign among blanks; behind a closing key quote only a colon will do |
| `CredentialForms.ValueAdjoins` | server/src/redaction.ts:549-568 | A quote right behind the label opens the value, unless a colon behind it shows that it closes the key |
| `CredentialForms.LabelEndsInLetter` | server/src/redaction.ts:639 | A label ends in a letter, a digit or an underscore; hyphens behind it are not part of it |
| `CredentialForms.RedactBare` | server/src/redaction.ts:636-658 | With one label in the text, the output is the text with just word and token replaced by the marker, or the text itself for another word |
| `CredentialForms.RedactQuoted` | server/src/redaction.ts:636-658 | The same for a value in quotes |
| `CredentialForms.RedactBearerToken` | server/src/redaction.ts:660-710 | With one Bearer word in the text, the output is the text with just the token behind it replaced |
| `CredentialForms.RedactNoBearer` | server/src/redaction.ts:660-710 | Without a Bearer word the text comes out as it went in |
| `PayloadSanitizer.NonInterference` | server/src/redaction.ts:719-770 | Payloads that differ only under secret names, in plain bindings there, or after secret flags are sanitized to the same record |
| `PayloadSanitizer.GuardedValueIrrelevant` | server/src/redaction.ts:876-899 | Replacing the value under a secret name at any place of a record changes nothing in the output |
| `PayloadSanitizer.ArgumentAfterFlagIrrelevant` | server/src/redaction.ts:823-837 | Whatever follows a secret flag cannot be told from the output |
| `PayloadSanitizer.RecordIsSafe` | server/src/redaction.ts:719-919 | Leaf by leaf: every text is the scanned text, or the marker where it has the shape of a token; under a secret name only the marker or the public parts of a reference; arguments behind a secret flag are the marker; discriminators and the flags stay |
| `PayloadSanitizer.SecretRefIsSafe` | server/src/redaction.ts:734-755 | Of a reference exactly the public parts come out, each as it was and only in the form it must have |
| `PayloadSanitizer.InnocentRecordStays` | server/src/redaction.ts:868-919 | A payload with no secret names, no bindings, no token shapes and only texts that the scanner leaves alone comes out as it went in |
| `PayloadSanitizer.FieldsKeepShape` | server/src/redaction.ts:864-923 | Every record keeps its keys in order, but for an own `__proto__`, and recursively so unless its value is redacted whole |
| `PayloadSanitizer.RecordKeysKeptIff` | server/src/redaction.ts:864-923 | A key is kept exactly when it is not `__proto__`, so all are kept exactly when that one is not among them |
| `PayloadSanitizer.PrototypeKeyIsLost` | server/src/redaction.ts:864-923 | A record whose only key is `__proto__` comes out empty |
| `PayloadSanitizer.ValueKeepsShape` | server/src/redaction.ts:719-770 | Arrays keep their length and records their keys, but for an own `__proto__` |
| `PayloadSanitizer.SanitizeCommandArgs` | server/src/redaction.ts:823-837 | The loop with its one-step memory computes the recursive definition |
| `PayloadSanitizer.SanitizeEntry` | server/src/redaction.ts:868-920 | The cascade of cases picks the specified output for one field |
| `PayloadSanitizer.SanitizeRecordEntries` | server/src/redaction.ts:864-923 | The loop fills the record the definition gives, with the keys it had but for an own `__proto__` |
| `WorktreePorts.FindNextUnclaimedPort` | server/src/worktree-config.ts:293-299 | It terminates with the least unclaimed port at or above the preferred one, which is at least 1 |
| `WorktreePorts.IsolatedNeedsNoRepair` | server/src/worktree-config.ts:301-391 | A config the repair builds never needs repair |
| `WorktreePorts.CollectSiblingPorts` | server/src/worktree-config.ts:231-291 | Exactly the ports of the readable sibling configs that are positive integers are collected |
| `WorktreePorts.SelectedAvoidsSiblings` | server/src/worktree-config.ts:472-497 | Whatever was on disk, the selected config avoids every port a sibling claims |
| `WorktreePorts.StepAvoidsOthers` | server/src/worktree-config.ts:231-291 | After a successful step the worktree shares no port that is a positive integer with any other readable config, registered or discovered |
| `WorktreePorts.StepRegisters` | server/src/worktree-config.ts:514-518 | The registry then names exactly the existing paths among the registered, the discovered and the own one; other files stay |
| `WorktreePorts.RewrittenIff` | server/src/worktree-config.ts:472-477 | A config is rewritten if and only if it is not isolated under its root or shares such a port with one of these |
| `WorktreePorts.RewriteIs` | server/src/worktree-config.ts:477-497 | A rewritten config is isolated under its root; its ports are the least free ones from the old ones on, where 3100 and 54329 give way to the next; nothing else changes |
| `WorktreePorts.RepairKeepsInv` | server/src/worktree-config.ts:467-520 | A locked step keeps the ports of all completed worktrees apart, because each registers its config and later ones read it |
| `WorktreePorts.PortsDistinctThroughout` | server/src/worktree-config.ts:467-520 | Over every run of steps, outside writes and removals, no two completed worktrees hold the same positive integer as server port, nor as database port in embedded mode |
| `WorktreePorts.StepMeetsIff` | server/src/worktree-config.ts:467-520 | After a step its worktree shares a server port, or in embedded mode a database port, with a completed one exactly when the step left the config alone and the two held that port before, which is no positive integer |
| `WorktreePorts.RunMeetsIff` | server/src/worktree-config.ts:467-520 | Over every run two completed worktrees hold the same server port exactly when the later of their steps was such a one |
| `WorktreePorts.RunMeetsInDatabaseIff` | server/src/worktree-config.ts:467-520 | The same for the database ports of two worktrees in embedded mode |
| `WorktreePorts.RepairSeparatesPorts` | server/src/worktree-config.ts:477-497 | After an actual repair in embedded mode the two ports of a worktree differ and are positive integers |
| `WorktreePorts.RepairIdempotent` | server/src/worktree-config.ts:467-520 | A second step with the same siblings changes nothing |
| `WorktreePorts.UnclaimablePortsCollide` | server/src/worktree-config.ts:273-284 | For every port that is no positive integer, a run in which two worktrees, each isolated under its own root, complete with it in common |
| `WorktreePorts.WorktreeHome.MaybeRepair` | server/src/worktree-config.ts:467-520 | The locked section is the specified step; it throws exactly when the file cannot be read, or must be rewritten and the old or the new config fails the schema, and then nothing has changed |
| `InstallLock.StepKeepsOwners` | cli/src/install-store.ts:147-202 | Every call but an unlink keeps each living owner's token in the file; an unlink keeps it if and only if the file names no living process |
| `InstallLock.ExclusionExactly` | cli/src/install-store.ts:147-202 | Over all runs the owners hold the file throughout if and only if no unlink deletes a living owner's token; then no two callbacks overlap |
| `InstallLock.LiveUnlinkBreaksTheLock` | cli/src/install-store.ts:172-178 | After such an unlink the reclaimer links at once beside the owner |
| `InstallLock.DisciplineExcludes` | cli/src/install-store.ts:147-202 | With one reclaimer at a time and no owner condemned that lived when it was read, no two living processes run the callback together and a release removes only its own token |
| `InstallLock.OneReclaimerIsNotEnough` | cli/src/install-store.ts:172-178 | A run with one reclaimer at a time in which two processes run the callback |
| `InstallLock.FreeLockIsTaken` | cli/src/install-store.ts:147-202 | By itself a contender takes a free lock and gives it back behind its callback |
| `InstallLock.StaleLockIsReclaimed` | cli/src/install-store.ts:158-180 | By itself it reclaims and takes a lock whose owner is dead |
| `InstallLock.LiveLockRefuses` | cli/src/install-store.ts:158-184 | By itself it is refused by a lock whose owner lives, and leaves that alone |
| `InstallLock.VanishedFile` | cli/src/install-store.ts:158-202 | A lock file that has gone refuses whoever reads or unlinks it, and one that names another contender is not released |
| `InstallHistory.HistoryIsMostRecent` | cli/src/install-store.ts:293-322 | Over any installs the current payload followed by the previous ones is the first three of the most recently used payloads |
| `InstallHistory.CutThenDrop` | cli/src/install-store.ts:312-319 | Cutting the history to three loses nothing that a longer history would have kept |
| `InstallHistory.NextManifestDistinct` | cli/src/install-store.ts:312-321 | Whatever manifest was on disk, the next names no payload twice and keeps at most two |
| `InstallHistory.PruningIsExact` | cli/src/install-store.ts:324-349 | Pruning keeps exactly dot entries and retained payloads, and reports exactly the others |
| `InstallHistory.DirectoryAfterPruning` | cli/src/install-store.ts:324-349 | A listed source keeps exactly its dot entries and the payloads of the manifest, and the others are reported as removed; any other directory is left as it is |
| `InstallHistory.KeptJoins` | cli/src/install-store.ts:324-349 | What is kept stays in order and number |
| `InstallHistory.PruneKeepsRollbackTargets` | cli/src/install-store.ts:324-349 | After any installs an entry survives if and only if it is one of the three most recently used payloads, or a dot entry |
| `InstallHistory.InstallsRoot.PruneSource` | cli/src/install-store.ts:339-346 | The loop over one source leaves the kept entries in order and returns the removed ones |
| `InstallHistory.InstallsRoot.PruneInstallPayloads` | cli/src/install-store.ts:324-349 | Both sources are pruned; an unsafe root refuses, after the earlier source has been pruned |
| `ManagedShim.RecognisesExactlyTheWritten` | cli/src/install-store.ts:381-410 | A text is recognised if and only if it is a shim written for nonempty newline-free paths, in the present or the older form |
| `ManagedShim.QuotedWordIff` | cli/src/install-store.ts:377-395 | The recogniser's pattern accepts exactly the quotings of nonempty values |
| `ManagedShim.ShellReadsQuoted` | cli/src/install-store.ts:377-379 | The shell reads a quoted path back as that path (sections 2.2.2 and 2.2.3 of POSIX.1-2017 XCU) |
| `ManagedShim.ShellReadsExecLine` | cli/src/install-store.ts:397-410 | The shell takes the exec line apart into the two paths it was written with |
| `ManagedShim.ShellQuoteInjective` | cli/src/install-store.ts:377-379 | Different paths are never quoted alike |
| `RcBlock.RemoveAfterAdd` | cli/src/install-store.ts:424-470 | Removing what was added leaves the text with its last line ended, less a leading newline |
| `RcBlock.RoundTripIff` | cli/src/install-store.ts:424-470 | The round trip gives the text back, its last line ended, exactly when it does not begin with a newline |
| `RcBlock.AddIdempotent` | cli/src/install-store.ts:428-447 | Adding twice is adding once |
| `RcBlock.FirstBlockRemoved` | cli/src/install-store.ts:464-468 | The first block in the text, from the newline before it to the newline behind its next end marker, gives way to one newline; one that then leads the text goes too |
| `RcBlock.NothingRemoved` | cli/src/install-store.ts:464-468 | A text without a block is left as it is |
| `RcBlock.NothingBefore` | cli/src/install-store.ts:449-470 | In a text that ends with an added block the pattern matches nowhere earlier |
| `RcBlock.BlockAtEnd` | cli/src/install-store.ts:449-470 | The shortest match at the block runs to the very end of the text |
| `DevSupervisor.StepKeepsInv` | scripts/dev-runner.ts:648-876 | Every turn keeps: one known server at most, one restart at most, and the dirty paths cover every file that differs |
| `DevSupervisor.AtMostOneServer` | scripts/dev-runner.ts:693-876 | Over every run at most one server process lives, and the supervisor knows whether one does |
| `DevSupervisor.StartOfRestart` | scripts/dev-runner.ts:751-756 | Only a poll starts a restart, and never while another coroutine is between two waits |
| `DevSupervisor.CrashEndsTheSupervisor` | scripts/dev-runner.ts:722-745 | A server that dies on its own takes the supervisor with it: no stale expectation hides a crash |
| `DevSupervisor.DriftIsNoticed` | scripts/dev-runner.ts:657-674 | A file that differs from what the server was started on makes the next poll act |
| `DevSupervisor.RestartGoesOnIff` | scripts/dev-runner.ts:752-805 | A restart nobody asked for goes on exactly when health is enabled, automatic restarts are on and no run is active; a requested one exactly when health is enabled and names no other server than the request does; else it ends |
| `DevSupervisor.PollSetsOutIff` | scripts/dev-runner.ts:751-757 | A poll sets a restart out exactly in dev mode, with a server and no restart under way, when there is a request, a dirty path or a pending migration |
| `DevSupervisor.ScanMarksIff` | scripts/dev-runner.ts:657-674 | A scan marks exactly the changed paths under its guards, and looks for migrations exactly when there are any |
| `DevSupervisor.ExitEndsIff` | scripts/dev-runner.ts:722-745 | An exit of the server ends the supervisor exactly when it was not expected and neither a restart nor a shutdown is under way |
| `DevSupervisor.ShutdownWaitsForServer` | scripts/dev-runner.ts:856-870 | A shutdown stops the intervals, and the process ends at once without a server, else once that server is gone |
| `DevSupervisor.DeletedIff` | server/src/dev-server-status.ts:222-244 | A request in the mailbox goes exactly when the coroutine removes the one it picked up, the lock is free, and that one has no id or this id |
| `DevSupervisor.DeletionNamesItIff` | scripts/dev-runner.ts:776-824 | A deletion names the id it deletes exactly when the picked-up request has a nonempty one |
| `DevSupervisor.DeletedWhen` | scripts/dev-runner.ts:776-824 | A deletion comes after the server to be replaced is gone, or after health named another server |
| `DevSupervisor.DeletionsNameTheirRequest` | server/src/dev-server-status.ts:156-244 | If every request written carries an id, every deletion of a run names the id it deletes |
| `DevSupervisor.NewerRequestSurvives` | server/src/dev-server-status.ts:156-244 | A newer request written during a restart is still there when that restart ends |
| `DevSupervisor.UnnamedRemovalTakesANewerRequest` | scripts/dev-runner.ts:805-812 | A run in which a restart without an id deletes a newer request that has one |
| `DevSupervisor.MailboxHoldsTheLastRequest` | server/src/dev-server-status.ts:156-180 | Over every run the mailbox holds the request written last, whole, or nothing |
| `DevSupervisor.RestartServesTheLastRequest` | scripts/dev-runner.ts:751-756 | A restart that serves a request serves the one written last before it set out |
| `DevSupervisor.WriteDevServerRestartRequest` | server/src/dev-server-status.ts:156-180 | A write by another process is the specified turn of the supervisor's world, and touches nothing else |
| `DevSupervisor.RestartMailbox.RemoveRequest` | server/src/dev-server-status.ts:222-244 | Compare and delete under the lock; the result says whether the lock was free |
| `DevSupervisor.DevRunner.OnChildExit` | scripts/dev-runner.ts:722-745 | The exit handler forgets the child and ends the process unless the exit was expected, in a restart or in a shutdown |
| `DevSupervisor.DevRunner.ScanForBackendChanges` | scripts/dev-runner.ts:657-674 | A scan adds exactly the changed paths, and does nothing beside another scan or a restart |
| `DevSupervisor.DevRunner.MaybeAutoRestartChild` | scripts/dev-runner.ts:751-758 | A poll picks up the request and sets out, or does nothing |
| `DevSupervisor.DevRunner.OnHealth` | scripts/dev-runner.ts:759-796 | The health answer is acted on in the source's order of cases |
| `DevSupervisor.DevRunner.StopChildForRestart` | scripts/dev-runner.ts:693-707 | The child, if any, is asked to stop and its exit expected |
| `DevSupervisor.DevRunner.OnChildStopped` | scripts/dev-runner.ts:804-813 | After the child has stopped the request is removed by name and the rebuild begins |
| `DevSupervisor.DevRunner.OnMarked` | scripts/dev-runner.ts:813-831 | A removal that found the lock busy is repeated, and the restart ends |
| `DevSupervisor.DevRunner.StartServerChild` | scripts/dev-runner.ts:709-749 | Spawning and marking as current is one turn: a new child, a fresh snapshot, nothing dirty |
| `DevSupervisor.DevRunner.CallShutdown` | scripts/dev-runner.ts:856-861 | The first shutdown call stops the intervals |
| `DevSupervisor.DevRunner.ContinueShutdown` | scripts/dev-runner.ts:863-870 | Without a child the process ends; otherwise the child's exit is expected and awaited |
| `SchedulerQuiescence.StillAfterWait` | server/src/index.ts:1913-1929 | Once the idle wait has returned nothing tracked runs and none ever starts, so the snapshot sees a still system |
| `SchedulerQuiescence.QueuesAreSingleFlight` | server/src/index.ts:1156-1176 | Over every interleaving each execution-control queue has at most one sweep in flight |
| `SchedulerQuiescence.EverySweepCoversAllQueues` | server/src/index.ts:1165-1176 | After a sweep every queue has one in flight: none is blocked by another |
| `SchedulerQuiescence.StartsWhileRunning` | server/src/index.ts:1165-1260 | Scheduled work and sweeps start exactly while the scheduler runs |
| `SchedulerQuiescence.WaitGetsNearer` | server/src/index.ts:1151-1155 | While the wait lasts, each turn that can happen brings its end nearer and nothing sets it back |
| `SchedulerQuiescence.WaitIsNotStuck` | server/src/index.ts:1151-1155 | Some such turn can always happen |
| `SchedulerQuiescence.WaitIsBounded` | server/src/index.ts:1151-1155 | The wait takes at most as many turns as there is work in the finite forest it began with |
| `SchedulerQuiescence.OneRoundIsNotEnough` | server/src/index.ts:1151-1155 | A run in which the awaited work is done and has left new work: the loop is needed |
| `SchedulerQuiescence.StoppedTickStartsAtMostOne` | server/src/index.ts:1625-1811 | A tick that is under way when the scheduler stops starts one more piece of work at most: the timers or the recovery whose suppression check was in flight |
| `SchedulerQuiescence.RunningTickStarts` | server/src/index.ts:1629-1807 | A tick of a running scheduler starts each of its pieces of work once and in order, the timers and the recovery unless suppressed |
| `SchedulerQuiescence.AdvanceUsesWeight` | server/src/index.ts:1142-1150 | Every turn of tracked work uses up weight, whatever it starts |
| `SchedulerQuiescence.StepKeepsInv` | server/src/index.ts:1139-1183 | Queue markers name exactly the queues that tracked work occupies; nothing is in flight once the wait has returned |
| `SchedulerQuiescence.Scheduler.TrackHeartbeatSchedulerWork` | server/src/index.ts:1142-1150 | Tracking adds one task in flight |
| `SchedulerQuiescence.Scheduler.SweepExecutionControl` | server/src/index.ts:1165-1176 | The loop over the queues starts a sweep for each that has none, unless stopped |
| `SchedulerQuiescence.Scheduler.Perform` | server/src/index.ts:1629-1807 | A turn of tracked work starts what its guards allow, up to the first return |
| `SchedulerQuiescence.Scheduler.OnWorkContinues` | server/src/index.ts:1142-1150 | A task takes a turn, or frees its queue, or is untracked |
| `SchedulerQuiescence.Scheduler.Stop` | server/src/index.ts:1918-1929 | The stop flag is set, the intervals cleared and the wait entered in one turn |
| `SchedulerQuiescence.Scheduler.WaitForIdle` | server/src/index.ts:1151-1155 | The wait returns only when nothing is in flight, else it waits for all that is |
| `ShutdownSignals.RestoredIff` | server/src/shutdown.ts:210-239 | If the load only appends, the listeners come back as they were if and only if no function with an appended wrapper was appended plainly more often before its last wrapper than after it |
| `ShutdownSignals.OneWayIsRestored` | server/src/shutdown.ts:210-239 | Registering each function in one way only is always undone, duplicates included |
| `ShutdownSignals.PlainThenOnceStays` | server/src/shutdown.ts:225-235 | A function registered plainly and then once does not come off |
| `ShutdownSignals.AppendedAreRemoved` | server/src/shutdown.ts:225-235 | The loop skips what was there and removes each appended entry |
| `ShutdownSignals.RestoredIfComesOff` | server/src/shutdown.ts:210-239 | The sufficient half, by which entries each removal takes |
| `ShutdownSignals.NotRestoredUnlessComesOff` | server/src/shutdown.ts:210-239 | The necessary half: a wrapper gone before its turn leaves an entry too many |
| `ShutdownSignals.SignalTarget.RemoveAdded` | server/src/shutdown.ts:225-235 | The loop with its list of listeners still to be found is the specified clean-up of one signal |
| `ShutdownSignals.RemoveAddedHooks` | server/src/shutdown.ts:224-236 | Both signals are cleaned up, each by its own record |
| `ShutdownSignals.SignalTarget.RemoveListener` | server/src/shutdown.ts:198-201 | The last entry that answers to the listener goes |
| `ChatReconciliation.StopThenDrainIsStill` | server/src/app.ts:332-366 | Stop, then drain: once the drain has returned nothing runs in any lane and nothing ever starts |
| `ChatReconciliation.LanesAreSingleFlight` | server/src/app.ts:318-331 | Each directly started lane has at most one task running |
| `ChatReconciliation.ReconcileCovers` | server/src/app.ts:319-347 | One reconcile starts every idle lane, the webhook lane only with GitHub, with a fresh id, leaves busy lanes alone, and asks both triggers for a pass |
| `ChatReconciliation.WakeUpsReach` | server/src/app.ts:308-351 | A notification wakes both triggers; a milestone pass wakes the publications exactly when it inserted something |
| `ChatReconciliation.StepKeepsInv` | server/src/app.ts:302-366 | Every turn keeps the map naming exactly the running tasks, the triggers in order and the drain on its way |
| `ChatReconciliation.NudgeKeepsInv` | server/src/services/chat-publication-reconciliation.ts:69-180 | A wake-up is never stranded behind a pass, and only a wake-up during a pass asks for another |
| `ChatReconciliation.FollowUpIff` | server/src/services/chat-publication-reconciliation.ts:92-108 | A pass is followed by another exactly if there was a wake-up while it ran |
| `ChatReconciliation.WakeUpIsServed` | server/src/services/chat-publication-reconciliation.ts:69-180 | A wake-up leads to a pass that begins after it, right behind the one under way if there is one |
| `ChatReconciliation.StoppedStaysQuiet` | server/src/services/chat-publication-reconciliation.ts:92-166 | A stopped trigger starts no pass, whatever happens |
| `ChatReconciliation.CoalescedAsyncTrigger.NotifyWork` | server/src/services/chat-publication-reconciliation.ts:142-150 | A wake-up marks a running pass dirty or schedules one |
| `ChatReconciliation.CoalescedAsyncTrigger.OnFinished` | server/src/services/chat-publication-reconciliation.ts:100-106 | The end of a pass schedules the follow-up that was asked for |
| `ChatReconciliation.CoalescedAsyncTrigger.Stop` | server/src/services/chat-publication-reconciliation.ts:158-166 | Stopping drops what is scheduled and what is owed |
| `ChatReconciliation.Coordinator.Start` | server/src/app.ts:318-331 | A lane starts unless stopped or in flight |
| `ChatReconciliation.Coordinator.ReconcileAll` | server/src/app.ts:333-347 | One reconcile starts every idle lane, the GitHub lane only when configured, and polls both triggers |
| `ChatReconciliation.Coordinator.OnLaneSettled` | server/src/app.ts:327-329 | A settled task is taken off the map only if it is the one on it |
| `ChatReconciliation.Coordinator.OnMilestonesFinished` | server/src/app.ts:308-317 | What a projection inserted wakes the publications |
| `ChatReconciliation.Coordinator.Stop` | server/src/app.ts:352-356 | The flag and both triggers are stopped in one turn |
| `PluginRecovery.OneLoadPerPlugin` | server/src/app.ts:409-457 | However calls interleave, a plugin has at most one load, or discard after it, under way |
| `PluginRecovery.SharedResult` | server/src/app.ts:412-413 | Callers that shared an attempt are answered alike |
| `PluginRecovery.OnlyDeadWorkersAreStopped` | server/src/app.ts:388-407 | Only a crashed or stopped worker is ever stopped, and a load is made only where none is registered |
| `PluginRecovery.OnlyOwnWorkersAreStopped` | server/src/app.ts:380-446 | Over every run the last call for a plugin before a stop is a load of it that found no worker: a recovery stops only what was registered since its own load |
| `PluginRecovery.CallDecides` | server/src/app.ts:409-422 | A call that makes its own attempt loads exactly when no worker is registered and the loader is ready; else it answers at once, yes exactly for a running worker |
| `PluginRecovery.LoadDecides` | server/src/app.ts:423-446 | A load is answered yes exactly when it succeeded or its worker runs; a rejection is passed on; behind any other answer a dead worker is stopped first |
| `PluginRecovery.NoPluginStaysBlocked` | server/src/app.ts:449-456 | Over every run an attempt is off the map once its owner has been resumed, so a later call tries again |
| `PluginRecovery.CallJoins` | server/src/app.ts:409-413 | A call during a recovery joins it and does nothing else |
| `PluginRecovery.StepKeepsInv` | server/src/app.ts:377-457 | Every turn keeps the map naming the attempts under way and the answers equal to their outcomes |
| `PluginRecovery.Recovery.Recover` | server/src/app.ts:409-449 | A call is answered at once, joins, or begins an attempt in the source's order of cases |
| `PluginRecovery.Recovery.OnLoadSettled` | server/src/app.ts:423-446 | A settled load succeeds, or discards a dead handle before it fails |
| `PluginRecovery.Recovery.DiscardDeadRecoveryHandle` | server/src/app.ts:388-407 | Only a crashed or stopped handle is stopped |
| `PluginRecovery.Recovery.OnResumed` | server/src/app.ts:449-456 | The owner removes its own attempt from the map and no other |
| `OrgForest.BuildOrgTree` | scripts/generate-company-assets.ts:254-287 | Whenever a finite chart exists it terminates with it: the top agents, then those with an unknown manager, each above exactly the agents naming it, in manifest order |
| `OrgForest.ChartExistsIff` | scripts/generate-company-assets.ts:254-287 | Whatever the manifest, a finite chart exists if and only if no slug reached from a root lies on a loop |
| `OrgForest.DistinctIsLoopFree` | scripts/generate-company-assets.ts:254-287 | With distinct slugs there is always one |
| `OrgForest.Build` | scripts/generate-company-assets.ts:263-272 | The recursion without a visited set stops, because every step leaves fewer levels below |
| `OrgForest.GroupByManager` | scripts/generate-company-assets.ts:256-262 | The loop groups the agents by manager, in manifest order |
| `OrgForest.ChartHoldsExactlyTheGrounded` | scripts/generate-company-assets.ts:254-287 | Every agent whose reporting chain ends is in the chart exactly once, and nobody else is |
| `OrgForest.MissingIff` | scripts/generate-company-assets.ts:254-287 | An agent is missing exactly when its chain runs into a reporting cycle, or into an agent naming an empty slug that nobody has |
| `OrgForest.UnfoldsUnique` | scripts/generate-company-assets.ts:263-272 | The equations of the chart have at most one finite solution |
| `OrgForest.SharedSlugHasNoChart` | scripts/generate-company-assets.ts:254-272 | With a top agent and a self-reporting agent of one slug there is no finite chart |
| `OrgForest.SharedSlugMayHaveChart` | scripts/generate-company-assets.ts:254-272 | Two top agents of one slug do no harm |
| `OrgForest.DepthBound` | scripts/generate-company-assets.ts:254-287 | A reporting chain that ends is shorter than the manifest |
| `OrgForest.OccursBelowManager` | scripts/generate-company-assets.ts:263-286 | An agent occurs at the top, or once below each occurrence of its manager |

## Left out

- The file system, processes, the network, timers, clocks and logging: nondeterministic steps or parameters.
- The install lock, the command shim and the start-up file block are modelled on values: the lock as a protocol between processes, the other two as functions from old text to new text. File modes, temporary files and refusals to follow links are not modelled.
- The `mode` of a restart request, the size limit of the request file and the reclaim of its lock; a request file that cannot be read is an unreadable mailbox.
- A dev supervisor whose child dies during a restart may wait for ever; no liveness is claimed for it.
- Later calls of the PostgreSQL supervisor's `shutdown`, which return early, and a second stop signal to the server.
- The order in which the exported shas are sorted and filtered (library sort and collation), the JSON export and the printed summary.
- The two fields of a run-performance record that `redactEventPayload` puts back into the sanitized record.
- `redactCommandText`, the JSON field patterns and the binding redaction for agent environments: the text redactor is a parameter of the sanitizer.
- The prototype that an own key `__proto__` gives an output object, and what would be read through it.
- A port that is missing from a config file or is no number.
- The first rejected fetch of commit statistics also rejects the whole call, while the other workers go on; what is modelled is what the workers do.
- The roll-back by the server route that wrote a restart request, which removes it by its own id: the deletions spoken of are the supervisor's.
- The contents of the secret-name, token-shape and schema tables.
- Rewriting the public base URL with the new port, the env file beside the config, and `maybePersistWorktreeRuntimePorts`, which writes ports outside the lock.
- What the hot-restart preparation does after the scheduler is still, and the order of the later teardown.
- How long a coalescing trigger waits between passes.
- The role table of the org chart is modelled for its own keys only, not for names inherited from the object prototype.
- Strings are sequences of characters; splitting of surrogate pairs is not modelled.
- JWT and runtime tokens, claims, configuration defaults, banners, telemetry and the user interface.
