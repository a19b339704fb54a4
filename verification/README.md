# nixbox in Dafny

nixbox keeps three things in step: SQLite rows, a directory of files that Nix reads, and the
system that is live after a rebuild. Its comments promise an order between them: file before
row, index before prune, snapshot before rebuild, rebuild before delete. This project states
those promises and proves them, together with the parts they rest on.

* **The apply, destroy and secret machine** (`Rows`, `Machine`, and on top of it `Effects`,
  `ClosedFlake`, `History`, `AppliedBadge`, `DestroyJob`, `FlakeCoherence`). The state is the rows, the files,
  what `index.nix` and `flake.nix` say, the job slot with the phase of its job, the handler under
  way, and a live system. A handler is a sequence of file and row micro-steps that an error or a
  crash may cut anywhere; the commands of a job fall between any two of them. The main theorems
  are about all runs from a fresh installation.
* **The same as a program** (`Server.dfy`, with `IndexRows`, `IndexFile`, `FlakeFile`): one class
  with the server's fields, loops where the source has loops, and a contract on every handler
  that equates what it does with a run of the machine. Faults are parameters.
* **The printers** (`NixLiteral`, `HostPorts`, `IndexFile`, `FlakeFile`, `Slug`) down to the
  characters: canonical forms, agreement with the server's rules, and readers with rules of
  their own. `AttrReader` reads the attributes of a generated file; `IndexReading` and
  `FlakeReading` prove that what it finds in the two files is what the tables say.
* **The job manager** (`JobManager`): any number of `Start` calls interleaved at each atomic
  operation, refining a four-state slot.
* **Loops and clocks against a plain specification** (`Lines`, `LogTail`, `Sessions`,
  `LoginLimiter`, `TimestampBadge`, `Metrics`, `FormText`): the log tailer against splitting
  once, the pruned limiter against the full list of failures, swept sessions against unswept
  ones, badges against what users did.

Where a promise does not hold of the code, the model keeps the code, and a theorem says exactly
when it does hold (names ending in `Exactly`), next to a run or input where it does not:

* Re-enabling a workload during its own destroy job leaves the flake naming a missing file, and
  re-creating its name between the two commit statements of that job leaves a row without one
  (`ReenablingBreaksTheFlake`, `RecreatingBreaksTheFlake`, `ClosedThroughoutExactly`).
* A save cut between file and revision lets a later apply mark the older revision while the
  newer text runs (`TornSaveBadgeExactly`); a dry run marks what never went live
  (`DryRunBadgeExactly`).
* The comment on `WriteFlake` (internal/nix/flakes.go:136-141) wants `withAgenix` to mirror the
  index. A destroy regenerates the index alone, so the two can part (`SecretThenDestroyDisagrees`,
  `DestroyCoherentExactly`).
* A user input called `nixpkgs` meets the built-in one (`NamesClashExactlyOnNixpkgs`).
* `nixStr` leaves carriage returns raw, and Nix reads those as newlines (`RoundTripExactly`).
* A job row whose insert cannot be read back, whose log path cannot be stored or whose end cannot
  be recorded stays "running" with the slot free (`StoreErrorLeavesTwoRunning`, `RunningCount`,
  `OrphaningExactly`).
* Login attempts that overlap are not held to the cap (`OverlappingAttemptsEscape`,
  `FailureKeepsSpacingExactly`); a sweep can overtake a session refresh
  (`SweepOvertakesTouchExactly`); an attach or detach whose timestamp bump fails hides from the
  badge (`FailedTouchMisleadsExactly`); log lines written after the tailer's last read are not
  sent (`LinesMissedExactly`).
* A text with two carriage returns before a newline keeps one of them (`NormalizedExactly`), and a
  byte count just under the next unit is printed as 1024.0 of its own (`PrintsFullUnitExactly`).

## Model

| member | source | states |
|---|---|---|
| `ClosedFlake.AlwaysClosed` | internal/server/handlers_system.go:101-154 | in every state of every run, crashes between any two micro-steps included, every workload and secret path that index.nix names exists and every row has its file, if no workload is re-enabled or re-created while its own destroy job is in flight |
| `ClosedFlake.StepKeepsClosed` | internal/server/handlers_workload.go:420-445 | the invariant behind it, kept by every single micro-step of every handler and of the job |
| `ClosedFlake.ClosedThroughoutExactly` | internal/server/handlers_workload.go:440-445 | in any run at all, without provisos, the flake is closed in every state if and only if no destroy job removes a file that the index names or a row needs |
| `ClosedFlake.StepKeepsFlakeExactly` | internal/nix/stateflake.go:287-295 | no other micro-step of any handler or job loses closedness; this one does if and only if the file was still named or needed |
| `ClosedFlake.RemovalKeepsClosedExactly` | internal/nix/stateflake.go:290-295 | removing a destroyed workload's directory keeps the flake closed if and only if the index does not name it and no row has its name |
| `ClosedFlake.RefusedApplyRegenerates` | internal/server/handlers_system.go:101-160 | an apply that finds another job running has rewritten index.nix and flake.nix and pruned the orphaned ciphertexts all the same, and changed nothing else |
| `ClosedFlake.ReenabledIndexDangles` | internal/server/handlers_workload.go:307-315 | from any state where a destroy job is about to commit: enable, a refused apply, and the commit end with an index that names a removed file |
| `ClosedFlake.ReenablingBreaksTheFlake` | internal/server/handlers_workload.go:307-324 | such a run from a fresh installation, for every workload name and type |
| `ClosedFlake.RecreatedRowLosesFile` | internal/server/handlers_workload.go:440-445 | a workload created under the same name between the deletion of the row and the removal of the file ends without a file |
| `ClosedFlake.RecreatingBreaksTheFlake` | internal/server/handlers_workload.go:94-165 | such a run from a fresh installation |
| `AppliedBadge.AppliedBadgeSound` | internal/server/handlers_workload.go:206-213 | in every run without dry running that never cuts a save of this workload in half: whenever no save of it is between its file and its revision, its applied revision is its newest, and it is live, the live expression is that revision's content, whatever landed during the rebuild |
| `AppliedBadge.AlwaysSound` | internal/server/handlers_system.go:109-180 | the invariant behind it: what is live, captured or about to be marked is the content of a revision at or after the mark |
| `AppliedBadge.MarkKeepsSound` | internal/store/store.go:228-232 | setting one mark of the snapshot after the rebuild keeps it |
| `AppliedBadge.UpdateKeepsSound` | internal/nix/rebuild.go:72-80 | capturing the state directory keeps it, because the files are the newest revisions |
| `AppliedBadge.ApplyMarks` | internal/server/handlers_system.go:101-180 | an undisturbed successful apply, orphans and all, marks the newest revision and makes the files live; in a dry run it marks but makes nothing live |
| `AppliedBadge.TornSaveBadgeExactly` | internal/server/handlers_workload.go:262-273 | after a save cut between file and revision and a successful apply the badge reads applied, and is right if and only if the saved text was the newest revision's anyway |
| `AppliedBadge.DryRunBadgeExactly` | internal/server/handlers_system.go:160-180 | after a successful apply in a dry run the badge of a live workload is right if and only if its newest content was live before |
| `Effects.MountedExactly` | internal/store/secrets.go:103-144 | in every run a workload gets a secret if and only if the last step about the two was an attach, or a creation or save of the secret that names it: a detach, a save of this secret without it, and the end of either take the mount away, and nothing else does |
| `Effects.MountCell` | internal/store/migrations.go:94-98 | the same for one step and one pair, cascades included |
| `Effects.SecretThereExactly` | internal/store/secrets.go:52-97 | a secret's row is there if and only if it was put there and not dropped since |
| `Effects.SecretIsAsPut` | internal/store/secrets.go:82-97 | and it says what the last creation or save of that very secret gave it |
| `Effects.SecretCell` | internal/store/secrets.go:52-97 | no other step changes a secret's row |
| `Effects.EnabledExactly` | internal/server/handlers_workload.go:307-324 | a workload is enabled if and only if the last switch since its creation switched it on; a confirmed destruction switches it off |
| `Effects.WorkloadThereExactly` | internal/store/store.go:98-176 | a workload's row is there if and only if it was created and not destroyed since |
| `Effects.WorkloadIsAsCreated` | internal/store/store.go:98-125 | and it has the name and type it was created with |
| `Effects.WorkloadCell` | internal/store/store.go:98-232 | what each step does to one workload's row: the flag only by a switch, the mark only by its own mark, a new row disabled and unmarked |
| `Effects.RevisionCell` | internal/store/store.go:173-206 | what each step does to one revision: it comes with what was being saved, never changes, and goes with its workload alone |
| `Effects.InputCell` | internal/store/flakes.go:34-92 | what each step does to one flake input |
| `Effects.FileCell` | internal/nix/stateflake.go:263-298 | what each step does to one workload's file |
| `Effects.CiphertextCell` | internal/nix/secrets.go:40-107 | what each step does to one ciphertext |
| `Effects.MountsAlwaysDeliver` | internal/server/handlers_secrets.go:105-140 | in every run each mount row has both its rows, and its workload is of a type that delivers secrets |
| `History.AlwaysBasic` | internal/store/store.go:98-125 | in every run every workload has a revision, every revision a workload, and names are unique |
| `History.FileAlwaysNewest` | internal/server/handlers_workload.go:243-280 | in every run that never cuts a save of the workload in half, its file is its newest revision |
| `History.RevisionsAppendOnly` | internal/store/store.go:179-206 | no step changes a revision, and a new one has an id above all present ones |
| `History.SaveMakesNewest` | internal/server/handlers_workload.go:243-280 | a save adds one newest revision with this content and ports, writes that content, and leaves all else alone |
| `History.RestoreMakesNewest` | internal/server/handlers_workload.go:366-402 | a restore of r makes content and ports equal to r's newest, and keeps r and all others |
| `History.TornSaveExactly` | internal/server/handlers_workload.go:262-273 | a save cut in half leaves the file newest if and only if it saved the newest content again |
| `DestroyJob.DeletionNeedsThreeSuccesses` | internal/server/handlers_workload.go:430-445 | whenever a run deletes a workload's row or a revision of it, a destroy job for that id and name was started in the run, held the slot ever since, and its lock, update and rebuild succeeded in this order |
| `DestroyJob.FileRemovalNeedsThreeSuccesses` | internal/server/handlers_workload.go:430-445 | the same whenever a run removes a workload's file |
| `DestroyJob.EveryDestroyJobExplained` | internal/nix/rebuild.go:58-106 | at every point of every run a destroy job has behind it exactly the successes its stage needs |
| `DestroyJob.OnlyDestroyDeletesRows` | internal/store/store.go:173-177 | the only step after which a row or revision is missing is the commit of that workload's destroy job |
| `DestroyJob.FailedDestroyKeeps` | internal/server/handlers_workload.go:435-442 | over a whole careful run: a destroy job that has ended without deleting its row has kept the row (disabled), the file, and every revision there was when it was under way, unchanged; live changed if and only if the rebuild had switched to something else, and then it does not contain the workload |
| `DestroyJob.KeptWhileDestroying` | internal/server/handlers_workload.go:435-442 | the same for every point while such a job holds the slot, in any run, careful or not, as far as revisions and live go |
| `DestroyJob.DeletedRowIsNotLive` | internal/server/handlers_workload.go:404-454 | in a careful run a workload whose row is deleted is already gone from the live system, unless the process runs dry |
| `DestroyJob.AlwaysLeftOut` | internal/nix/rebuild.go:58-106 | the invariant behind it: what a destroy job captures and switches to does not contain the workload |
| `DestroyJob.RebuiltWithoutExactly` | internal/nix/rebuild.go:82-85 | after the rebuild the workload is not live if and only if the process does not run dry or it was not live before |
| `FlakeCoherence.CoherentAfterStartApply` | internal/server/handlers_system.go:101-107 | whenever a run is at a startApply that has written both files, the index declares secrets if and only if the flake imports agenix |
| `FlakeCoherence.CoherenceLostOnlyByIndexAlone` | internal/server/handlers_workload.go:424-427 | once there, this agreement is lost only where the index is regenerated without the flake |
| `FlakeCoherence.DestroyCoherentExactly` | internal/server/handlers_workload.go:424-427 | a destroy keeps it if and only if the flake last written imports agenix just when secrets exist now |
| `FlakeCoherence.SecretThenDestroyDisagrees` | internal/server/handlers_flake.go:127-145 | a first secret followed by a destroy loses it |
| `FlakeFile.FlakeIsClosed` | internal/nix/flakes.go:45-134 | where the agenix module is imported an agenix input is declared exactly once, and where an input follows nixpkgs a nixpkgs is declared |
| `FlakeFile.DeclaredCounts` | internal/nix/flakes.go:45-99 | how often each name is declared, for every input table |
| `FlakeFile.NamesClashExactlyOnNixpkgs` | internal/nix/flakes.go:72-99 | all declared names are distinct if and only if the user's nixpkgs does not meet the built-in one |
| `FlakeFile.UserNixpkgsClashes` | internal/nix/flakes.go:58-76 | a first secret is enough to make them meet |
| `FlakeFile.FlakeIsCanonical` | internal/nix/flakes.go:46-47 | the declarations, in order, do not depend on the order the inputs came in |
| `FlakeFile.RenderFlake` | internal/nix/flakes.go:45-134 | the program with its flags and loops writes the text whose reading is stated under `FlakeReading` |
| `FlakeReading.FlakeReadsBack` | internal/nix/flakes.go:45-134 | the bytes, read back without the printer, declare exactly the inputs of the table, each with its reference as Nix reads it and its sharing of nixpkgs, nixbox's agenix when secrets exist and the table has none, and nixpkgs when something shares it; they import the agenix module if and only if secrets exist |
| `FlakeReading.InputsReadBack` | internal/nix/flakes.go:69-99 | the same in order, for any list of declarations |
| `FlakeReading.ImportsReadBack` | internal/nix/flakes.go:112-118 | the import list is the base modules, and the agenix module exactly when asked for |
| `FlakeReading.FlakeTextSays` | internal/nix/flakes.go:66-134 | every attribute of the file by its path, in order, and no other |
| `FlakeReading.FlakeSaysTables` | internal/server/handlers_flake.go:127-145 | what a regeneration writes says what the input and secret tables say |
| `FlakeReading.FlakeBytesAlwaysClosed` | internal/nix/flakes.go:45-64 | after every run the bytes declare agenix exactly once where they import its module, and nixpkgs where they share it |
| `FlakeReading.BytesCoherentAfterStartApply` | internal/nix/flakes.go:136-141 | once a startApply has written both files, the bytes of index.nix name secrets if and only if those of flake.nix import agenix |
| `Rows.MountsExactAndClosed` | internal/server/handlers_system.go:235-262 | in every generated index a secret's list under key k is exactly the enabled workloads of the mount-supporting type with that key that have a mount row, and section k names each of them |
| `Rows.NamedByIndexOf` | internal/server/handlers_system.go:202-229 | the generated index names exactly the enabled workloads of registered types |
| `Rows.OpenPortsExactly` | internal/server/handlers_system.go:207-223 | the index opens a port if and only if the newest revision of some enabled workload of a registered type asks for it with that protocol |
| `Rows.IndexSecretExactly` | internal/server/handlers_system.go:235-262 | the index gives a secret its row's owner, group and mode, and lists exactly who gets it |
| `Rows.SnapshotExactly` | internal/server/handlers_system.go:109-126 | the snapshot has every enabled workload and no other, with its newest revision |
| `IndexRows.CollectedIndex` | internal/server/handlers_system.go:202-262 | what the loops over the rows collect means what the rows call for |
| `IndexRows.SecretMeaning` | internal/server/handlers_system.go:244-260 | the entry collected for one secret is the one its rows call for |
| `IndexFile.WriteIndex` | internal/nix/stateflake.go:161-212 | the bytes written are a function of what the arguments mean, free of any order |
| `IndexFile.Collect` | internal/nix/stateflake.go:161-191 | the first loop puts each registered entry in its section and each port, once, under its protocol |
| `IndexFile.WriteIndexSecrets` | internal/nix/stateflake.go:217-247 | the secrets section is a function of what is said of each secret |
| `IndexFile.IndexIsCanonical` | internal/nix/stateflake.go:161-247 | with unique secret names the bytes are unchanged under any permutation of entries, secrets, mount keys and mount lists |
| `IndexFile.OneSectionEach` | internal/nix/stateflake.go:171-177 | with unique names each registered workload is named exactly once, in the section of its type, and an unregistered one nowhere |
| `IndexFile.PortListsAreUnions` | internal/nix/stateflake.go:178-196 | the two lists that are printed are strictly ascending and equal to the unions of the registered entries' ports; what is printed of them is stated under `IndexReading` |
| `IndexReading.IndexReadsBack` | internal/nix/stateflake.go:193-247 | reading the bytes of index.nix attribute by attribute finds, in each section, exactly the files of its workloads; the two port lists, ascending, number by number; exactly the secrets, each with its file, its owner, group and mode by the rules for literals, and its mount lists; nothing else |
| `IndexReading.RenderSays` | internal/nix/stateflake.go:193-247 | every attribute of the file by its path, in order, and no other |
| `IndexReading.BytesSayRows` | internal/server/handlers_system.go:202-262 | the bytes of a regenerated index, read back, are what the tables say: enabled workloads by type, ports of newest revisions, secrets with their rows' identity and who gets them |
| `IndexReading.ApplyBytesSayRows` | internal/server/handlers_system.go:101-108 | so after every run do those that an apply writes |
| `IndexReading.AlwaysNamed` | internal/nix/stateflake.go:193-247 | the hypothesis of that holds of the index on disk after every run: the registered sections, valid names, non-empty mount lists under registered keys |
| `IndexReading.BytesAlwaysClosed` | internal/nix/secrets.go:82-86 | so after every careful run every path in the bytes of index.nix exists |
| `NixLiteral.PrintedLiteralReadsBack` | internal/nix/flakes.go:146-151 | read by Nix's rules, a printed literal ends exactly at its last quote whatever follows, opens no interpolation, and yields the string with carriage returns turned into newlines |
| `NixLiteral.RoundTripExactly` | internal/nix/flakes.go:146-151 | it yields the string itself if and only if that has no carriage return |
| `NixLiteral.PrintedLiteralsInjective` | internal/nix/flakes.go:148-151 | equal texts, with anything after them, come from equal strings, carriage returns included |
| `HostPorts.PortsRoundTrip` | internal/nix/ports.go:60-89 | decoding what was stored gives every valid list back, sorted, and a sorted one as it was, down to decimal digits |
| `HostPorts.ParseHostPorts` | internal/nix/ports.go:28-56 | a submission is refused if and only if a row is malformed; otherwise the result is strictly ascending and exactly the pairs it denotes |
| `HostPorts.RowDeclares` | internal/nix/ports.go:28-50 | a row whose text is a number, in whatever white space, declares it with the protocol beside it, tcp if that is missing or blank; anything else is malformed |
| `HostPorts.PortLeqExactly` | internal/nix/ports.go:91-98 | the order is tcp before udp, then by number |
| `HostPorts.StoredFormIsCanonical` | internal/nix/ports.go:28-70 | accepted submissions that denote the same pairs store the same string |
| `HostPorts.FormatHostPorts` | internal/nix/ports.go:60-69 | the builder loop writes the stored form |
| `HostPorts.DecodeHostPorts` | internal/nix/ports.go:74-89 | the token loop decodes it, skips malformed tokens, and yields valid sorted ports |
| `HostPorts.FieldsAreWords` | internal/nix/ports.go:74-79 | the tokens of any text are its words, whatever white space is between them |
| `HostPorts.TokenExactly` | internal/nix/ports.go:76-86 | a token is a port if and only if it is a number, a slash and a protocol, all in range |
| `HostPorts.AtoiItoa` | internal/nix/ports.go:65-79 | decimal printing and parsing are inverse |
| `Slug.SlugIsAcceptedOrEmpty` | web/src/new-workload.ts:8-11 | for every string and cap the derived ID is empty or accepted by the shared name rule (cap up to 63) and the container rule (cap up to 11) |
| `Slug.SlugOfWords` | web/src/new-workload.ts:8-11 | the derived ID of a text is its words with single dashes between them, cut at the cap, without a dash at the end |
| `Lines.EveryTextIsWoven` | web/src/new-workload.ts:8-11 | every text is such words with gaps between them |
| `Slug.RefittingComposes` | web/src/new-workload.ts:36-40 | re-fitting to a smaller cap equals deriving with it in the first place |
| `JobManager.AlwaysRefines` | internal/jobs/jobs.go:65-112 | for any number of calls interleaved at each atomic operation, the slot is taken by one call at a time, released exactly once per acquisition, and only after the update of a launched job's row was attempted |
| `JobManager.OneFunctionAtATime` | internal/jobs/jobs.go:65-93 | at most one job function runs |
| `JobManager.AlwaysRowsOk` | internal/jobs/jobs.go:94-109 | in every run a settled row reads ok if and only if its exit code is 0, and the job a call is responsible for still reads running |
| `JobManager.SettledRowsStay` | internal/jobs/jobs.go:48-61 | a row leaves "running" at most once, over restarts too |
| `JobManager.OkExactlyOnSuccess` | internal/jobs/jobs.go:93-109 | in every run, with steps of other calls and restarts in between: a settled row reads ok, with code 0, if and only if its own function returned no error and code 0 and that end was recorded; otherwise an unrecorded row is a recovered failure |
| `JobManager.FailedKeepsCode` | internal/jobs/jobs.go:84-109 | a failed row keeps the code its function returned; an error with code 0, and a log that could not be made, read -1 |
| `JobManager.RunningCount` | internal/jobs/jobs.go:65-112 | in every run a serving process has exactly as many running rows as it has orphaned since the last crash, and one more while a call has a job |
| `JobManager.AtMostOneRunningExactly` | internal/jobs/jobs.go:65-112 | so at most one row reads running if and only if at most one is orphaned or worked on |
| `JobManager.RunningIsHeldExactly` | internal/jobs/jobs.go:65-112 | every running row belongs to the call that holds the slot if and only if none was orphaned since the last crash |
| `JobManager.OrphaningExactly` | internal/store/store.go:234-266 | a step orphans a row if and only if it is an insert whose read-back fails, a log path that cannot be stored, or an end that cannot be recorded |
| `JobManager.AtMostOneRunning` | internal/jobs/jobs.go:65-112 | without store errors at most one row of a serving process reads running |
| `JobManager.StoreErrorLeavesTwoRunning` | internal/jobs/jobs.go:72-80 | each of the three failures alone is enough for two running rows |
| `JobManager.CallInOnePiece` | internal/jobs/jobs.go:65-112 | one call taken without interruption leaves the rows that the straight-line program leaves |
| `JobManager.Manager.RecoverStale` | internal/jobs/jobs.go:48-61 | on success no row reads running; rows change only from running to failed with code -1 |
| `JobManager.Manager.StartAndRun` | internal/jobs/jobs.go:65-112 | the row and the flag after one call from start to end, under each fault: its status and code, and that no other row changes |
| `LogTail.Stream` | internal/server/sse.go:258-303 | for every append-only log and every poll schedule the events are those of splitting the log as last read once: each line once and in order, then the unfinished one and the status when the job is over |
| `LogTail.Read` | internal/server/sse.go:264-280 | one round extends the lines sent to those of the longer prefix, and keeps its unfinished line pending |
| `LogTail.Close` | internal/server/sse.go:284-293 | the pending line, if any, and then the status, failed if the store cannot answer |
| `LogTail.ReportExactly` | internal/server/sse.go:264-293 | event by event: the lines of the log as last read, then the unfinished one and the closing event with the status the store gave, failed if it gave none |
| `Lines.SplitRebuilds` | internal/server/sse.go:271-275 | the lines, each with its newline, and the pending rest are the text, byte for byte |
| `Lines.SplitIsUnique` | internal/server/sse.go:271-275 | there is no other way to cut it |
| `Lines.SplitIncrementally` | internal/server/sse.go:270-275 | splitting the pending rest with what came later continues the splitting of the whole |
| `LogTail.FinishedLogIsDeliveredWhole` | internal/server/sse.go:264-293 | if the writer had finished before the last read, every line of the log is sent, an unterminated one included |
| `LogTail.LinesMissedExactly` | internal/server/sse.go:264-286 | the lines sent are all of them if and only if the last read saw the whole log, or all but the newline of a last line it saw |
| `Sessions.AlwaysSliding` | internal/server/handlers_auth.go:21-28 | with requests one at a time, refreshes that succeed and a clock that never goes back: lastUse + TTL - 1h <= expires <= lastUse + TTL for every session after each, and refreshes of one session are more than an hour apart |
| `Sessions.AlwaysBounded` | internal/server/handlers_auth.go:71-90 | however requests interleave, no deadline, written or in flight, passes lastUse + TTL |
| `Sessions.UnusedSessionsExpire` | internal/store/sessions.go:30-44 | so no request is accepted TTL after the session's last use |
| `Sessions.DeletedStaysDeleted` | internal/store/sessions.go:46-55 | a refresh in flight never revives a deleted session |
| `Sessions.SweepsAreInvisible` | internal/store/sessions.go:57-64 | leaving every sweep out of a run changes no answer and no refresh |
| `Sessions.SweepOvertakesTouchExactly` | internal/store/sessions.go:46-64 | a sweep between a check and its refresh changes a later answer if and only if the session had expired by the sweep and the refresh would have revived it |
| `Sessions.RequestIsCheckThenLand` | internal/server/handlers_auth.go:71-90 | a request served in one piece is a check directly followed by its refresh |
| `Sessions.Gate.RequireAuth` | internal/server/handlers_auth.go:60-92 | which requests are served and as whom, which are refused, and the one row that may change |
| `Sessions.Gate.HandleLogin` | internal/server/handlers_auth.go:164-228 | the answer to every attempt, its effect on the limiter, and that only a login that succeeds creates a session and sweeps; a failing sweep does not stop it, and with authentication off nothing happens |
| `Sessions.Gate.HandleLogout` | internal/server/handlers_auth.go:245-262 | logging out deletes the named session and no other |
| `LoginLimiterModule.PrunedCountIsFullCount` | internal/server/loginlimit.go:26-62 | the pruned list and the full history since the last clear have the same failures inside the window, now and later |
| `LoginLimiterModule.AlwaysRepresents` | internal/server/loginlimit.go:26-62 | after any operations under a clock that never goes back stored lists are non-empty, ordered, and the history without entries that had left the window |
| `LoginLimiterModule.CapHolds` | internal/server/handlers_auth.go:171-180 | with attempts one at a time, any max + 1 counted failures of a client in a row span at least a window |
| `LoginLimiterModule.SpacedBoundsEveryWindow` | internal/server/loginlimit.go:8-12 | hence no half-open interval of the window's length ever holds more than max of them |
| `LoginLimiterModule.FailureKeepsSpacingExactly` | internal/server/loginlimit.go:33-37 | recording one more failure keeps that if and only if the client was not blocked at that time |
| `LoginLimiterModule.AttemptByFullHistory` | internal/server/handlers_auth.go:171-190 | an attempt does to the history what counting all of it would decide |
| `LoginLimiterModule.OverlappingAttemptsEscape` | internal/server/handlers_auth.go:171-190 | two attempts that both ask before either is judged pass a cap of one |
| `LoginLimiterModule.LoginLimiter.Prune` | internal/server/loginlimit.go:48-62 | the loop keeps exactly the recent failures, and drops an empty list |
| `LoginLimiterModule.LoginLimiter.Blocked` | internal/server/loginlimit.go:26-30 | blocked if and only if the full history has max failures inside the window |
| `LoginLimiterModule.LoginLimiter.Fail` | internal/server/loginlimit.go:33-37 | one more failure in the history, and the pruned list follows |
| `LoginLimiterModule.LoginLimiter.Clear` | internal/server/loginlimit.go:40-44 | the client's history starts anew |
| `TimestampBadge.BadgeIsLastHeard` | internal/store/secrets.go:31-36 | after any operations under a clock that always moves, a secret reads applied, and a flake input locked, if and only if the last effective thing that happened to it was a mark |
| `TimestampBadge.StampsFollow` | internal/store/secrets.go:82-131 | every operation stamps exactly the secret or input it edits or marks |
| `TimestampBadge.RepeatsChangeNothing` | internal/store/secrets.go:99-123 | repeated attaches and detaches change neither mounts nor badge |
| `TimestampBadge.SameInstantMisleads` | internal/store/secrets.go:32-33 | an edit after a mark is seen if and only if the clock moved in between |
| `TimestampBadge.FailedTouchMisleadsExactly` | internal/store/secrets.go:103-131 | an attach or detach whose second statement fails changes the mounts, and the badge reads as before |
| `TimestampBadge.Store.ReplaceMountRows` | internal/store/secrets.go:133-144 | the inserts succeed if and only if no target repeats and every target exists; then the secret has exactly those mounts, and every other secret keeps its own |
| `TimestampBadge.Store.CreateSecret` | internal/store/secrets.go:52-75 | all or nothing, in one transaction: the row as given, its mounts, and no other row or mount |
| `TimestampBadge.Store.UpdateSecret` | internal/store/secrets.go:82-97 | the same, under the old name; an update of a secret that is gone fails if and only if it names workloads |
| `TimestampBadge.Store.AddSecretMount` | internal/store/secrets.go:103-110 | an existing pair is no change; a new one is an edit, and the only mount that changes |
| `TimestampBadge.Store.RemoveSecretMount` | internal/store/secrets.go:115-123 | a missing pair is no change; no other mount changes |
| `Metrics.UnitOf` | internal/metrics/metrics.go:119-130 | for every 64-bit count from 1024 on the loop ends without overflow at the one power of 1024 with div <= n < 1024 div, and there is a suffix for it |
| `Metrics.TenthsIsNearest` | internal/metrics/metrics.go:116-129 | the number printed is the nearest one in tenths, the even one of two |
| `Metrics.PrintsFullUnitExactly` | internal/metrics/metrics.go:116-129 | the quotient, rounded to tenths, is printed as 1024.0 of a unit or more if and only if it is at least 1023.95 |
| `Metrics.FullUnitPrinted` | internal/metrics/metrics.go:116-129 | such a count exists |
| `FormText.NormalizedExactly` | internal/server/handlers_workload.go:248-254 | stored text ends in a newline, and still has a CRLF if and only if the form's text, so ended, had two carriage returns before a newline |
| `FormText.NormalizedIsTyped` | internal/server/handlers_workload.go:248-254 | stored text is the typed text, so ended, cut at every CRLF and rejoined with newlines; typed text without one is stored as it is |
| `Names.RulesMatch` | internal/nix/stateflake.go:299-333 | the three name rules accept exactly what their regular expressions match |
| `Names.ContainerNameExactly` | internal/nix/types.go:197-206 | the container rule is the shared one with at most 11 characters |
| `Sorting.StrLeqExactly` | internal/nix/stateflake.go:190-192 | the order of names is that of code points |
| `ServerModel.Server.constructor` | internal/nix/stateflake.go:75-123 | a fresh installation: the machine's initial state, with the two files seeded from it. From then on every method keeps the bytes of both files canonical for what they say |
| `ServerModel.Server.StartApply` | internal/server/handlers_system.go:101-160 | a run of the machine, whatever fails; when it reaches the slot, index, flake and ciphertexts are those of the rows, taken or not; it fails if and only if one of its steps fails, and starts a job, with the snapshot of the newest revisions, if and only if nothing failed and the slot was free |
| `ServerModel.Server.RegenerateIndex` | internal/server/handlers_system.go:202-229 | index.nix holds the canonical bytes of what the rows call for, or is untouched if an enabled workload has no revision or the write fails |
| `ServerModel.Server.CollectEntries` | internal/server/handlers_system.go:207-223 | the loop collects one entry per enabled workload, or fails at one without a revision |
| `ServerModel.Server.CollectSecrets` | internal/server/handlers_system.go:235-262 | the loop collects what the rows call for, secret by secret |
| `ServerModel.Server.CollectMounts` | internal/server/handlers_system.go:250-258 | the inner loop restricts mounts to enabled workloads of types that support them |
| `ServerModel.Server.RegenerateFlake` | internal/server/handlers_flake.go:127-145 | flake.nix holds the canonical bytes of the declared inputs, with agenix exactly when secrets exist |
| `ServerModel.Server.TakeSnapshot` | internal/server/handlers_system.go:109-126 | the loop takes the newest revision of every enabled workload |
| `ServerModel.Server.PruneSecrets` | internal/nix/secrets.go:87-107 | exactly the ciphertexts not kept are removed, in any order; a failure part-way never removes a kept one |
| `ServerModel.Server.HandleCreate` | internal/server/handlers_workload.go:94-165 | refused for an unknown type or template, a bad or taken name, or a bad display name; otherwise file first, row second: disabled, unmarked, with the template's content and ports, and no other row changed |
| `ServerModel.Server.HandleSave` | internal/server/handlers_workload.go:243-280 | refused as a whole if a port is malformed; otherwise the normalized text to the file first and to one new revision second, with the ports the form denotes; a syntax error is reported after that |
| `ServerModel.Server.HandleRestore` | internal/server/handlers_workload.go:366-402 | refused unless the revision is this workload's; otherwise its content and ports are saved as one new revision |
| `ServerModel.Server.HandleDestroy` | internal/server/handlers_workload.go:408-463 | refused unless the name was typed again; otherwise disabled, alone, and unlisted, and a destroy job if and only if nothing failed and the slot was free |
| `ServerModel.Server.HandleAddSecret` | internal/server/handlers_secrets.go:142-179 | refused for a bad or taken name, a bad owner, group or mode, an empty value, or a mount not on offer; otherwise ciphertext first, then the row as given with exactly those mounts, every other secret untouched; a repeated mount loses the row only |
| `ServerModel.Server.HandleSaveSecret` | internal/server/handlers_secrets.go:181-204 | the same refusals; the row keeps its name and gets this owner, group, mode and these mounts, every other secret untouched; an empty value keeps the ciphertext |
| `ServerModel.Server.SetWorkloadSecretMount` | internal/server/handlers_secrets.go:310-342 | only for workloads of types that deliver secrets; no other mount changes; if only the timestamp bump fails, the mount stays changed |
| `ServerModel.Server.Rebuild` | internal/nix/rebuild.go:58-106 | success if and only if all three commands exited 0, each run only after the one before; then, unless it was a mere build, what is live is what the index names, as its files say; otherwise nothing is live that was not |
| `ServerModel.Server.MarkAll` | internal/server/handlers_system.go:163-168 | on success exactly the snapshot's marks are set, in any order |
| `ServerModel.Server.CommitDestroy` | internal/server/handlers_workload.go:440-445 | the row with its own revisions and mounts and no others, then the file |
| `ServerModel.Server.RunApplyJob` | internal/server/handlers_system.go:160-180 | the closure of an apply, start to end, and the release of the slot: exit code 0 without error if and only if the commands and every mark succeeded |
| `ServerModel.Server.RunDestroyJob` | internal/server/handlers_workload.go:430-454 | the closure of a destroy, start to end: exit code 0 without error if and only if the commands, the deletion, the removal and the deletion of data succeeded; after the commands the row is gone with its own revisions and mounts, every other mount, secret, input and workload is as it was |

## Left out

Deliberate limits of single members:

- ClosedFlake.AlwaysClosed: one handler runs at a time. The code does not serialize handlers: a prune can remove a ciphertext between internal/server/handlers_secrets.go:170 and :174, so the invariant is not claimed there.
- ClosedFlake.StepKeepsClosed: the micro-steps of a job's commit fall between whole handlers, not inside one; a destroy handler that is overtaken half-way by the commit of an earlier destroy of the same workload, with its id handed out again, is not modelled.
- AppliedBadge.AppliedBadgeSound: about revisions only. The timestamp marks of secrets and flake inputs do not separate an edit during the rebuild from the snapshot, so the theorem does not extend to them.
- DestroyJob.DeletedRowIsNotLive: live is what the last successful switch made live; a switch that fails after activating part of the system is taken to leave it as it was.
- ServerModel.Server.RunApplyJob: the marks of flake inputs and secrets are one fault after those of revisions; what they stamp is in `TimestampBadge`, not in the machine's rows.
- ServerModel.Server.StartApply: of `jobs.Start` only the slot and a failing store are here; the job rows are in `JobManager`.
- ServerModel.Server.constructor: the start on an existing directory, which seeds nothing that is there, is the machine's `Restart`.
- ServerModel.Server.HandleAddSecret: owner, group and mode are those after trimming and defaults.
- Slug.RefittingComposes: Unicode decomposition, stripping of marks and lower-casing are one function parameter, required to leave names alone; a negative maxLength is not modelled.
- LogTail.Stream: an event carries its line as it is; how a browser reads a line with a carriage return is not modelled.
- JobManager.Manager.StartAndRun: one call without interruption; the interleaving is in the state machine beside it.
- Sessions.Gate.RequireAuth: the token hash stands for the cookie; SHA-256 and random tokens are taken to give fresh hashes.
- Metrics.PrintsFullUnitExactly: on exact quotients; from 2^53 on the conversion to a 64-bit float rounds the count first.

What the repository does that the model does not:

- HTTP routing, templates, redirects, messages, the terminal, system metrics: plumbing.
- PAM, group checks, age encryption and random numbers: foreign calls, here parameters or opaque strings.
- Display names are checked but not stored; their length is counted in characters, where the code counts bytes.
- SQLite: tables are maps with the keys, cascades and uniqueness rules of internal/store/migrations.go; a statement or transaction is atomic, and an insert is given any id above all present ones.
- `ORDER BY` in listings: the written files do not depend on it, which is what the canonical-form theorems say.
- The reads of one regeneration or snapshot are one moment; writeFileAtomic is atomic.
- Timestamps and job rows are not part of the apply machine; they have modules of their own.
- Nix evaluation and the output of commands: a command exits with any code or cannot run. Stopping a unit and deleting a container's data in a destroy job touch nothing else that is modelled.
- Registration of workload types at start-up: the three registered types are a constant.
- Schema migrations, settings, name patterns in HTML, environment configuration: correct but easy.
