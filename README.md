# gh-artifact-deployer: the update procedure, modelled in Dafny

The deployer updates one locally installed application from a GitHub Actions
artifact. It lists the repository's artifacts and picks the newest unexpired one
with the configured name. It follows the download redirect and saves the zip to a
temporary file. It copies the running application to `<app>.backup`, stops the
systemd service, and overwrites the application with the first archive entry
whose name has the configured prefix and suffix. Then it starts the service
again. A failure while the application is being replaced copies the backup back.

This project models that procedure, `updateApplication` in `updater.go`, with the
helpers it calls:

- `selection.dfy` (module `Selection`): the artifact resolver. It has the filter,
  the running-latest pass with strict "after" and its parse errors, a loop
  method that mirrors the Go loops, and lemmas for validity, maximality,
  first-among-ties, independence from order and parse failures.
- `archive.dfy` (module `Archive`): the payload entry lookup, meaning the first
  entry in archive order that matches both `strings.HasPrefix` and
  `strings.HasSuffix`.
- `service.dfy` (module `Service`): the classification of `systemctl` exits and
  the in-order command runs that stop at the first failure.
- `updater.dfy` (module `Updater`): the configuration, the environment, the
  failures and the spec functions `FetchPayload`, `Replace`, `Deploy`,
  `Install` and `Attempt` for one attempt. The class `Host` holds the file system
  (`map<string, seq<byte>>`), the trace of `systemctl` argument lists and the
  trace of attempted HTTP requests (a request that could not be built is
  recorded too, though it was never sent). Its methods perform the attempt step by step and are
  proved equal to those functions. The module also has the `/update` handler's
  response mapping.
- `properties.dfy` (module `UpdateProperties`): lemmas about `Install` and
  `Attempt`. They cover failures before the backup, what the backup holds, rollback, service
  failures without rollback, the command and request traces, the files that
  change, and an end-to-end example.

Every outside event is an input, collected in an `Env` value:

- the three HTTP replies, with the artifact list already JSON-decoded;
- the RFC 3339 parser, as a function to an instant;
- the zip reader, as a function from bytes to entries;
- the exit of each `systemctl` command;
- the name `os.CreateTemp` picks;
- whether each file operation fails.

A Go `panic` becomes a `Failed(error)` outcome. `checkError(err, restoreOldApplication)`
becomes "restore, then fail".

## Model

| member | source | states |
|---|---|---|
| `Selection.Filter` | updater.go:122-127 | every kept artifact is in the list, has the configured name and is not expired |
| `Selection.FilterStep` | updater.go:123-126 | one more loop step appends the artifact exactly when it is eligible |
| `Selection.FilterComplete` | updater.go:122-127 | every eligible artifact of the list is kept |
| `Selection.FilterPosition` | updater.go:122-127 | the filter keeps list order: the k-th kept artifact has the same kept artifacts before it as in the list |
| `Selection.Scan` | updater.go:128-138 | the running-latest pass returns an index among those scanned, or a malformed-timestamp error |
| `Selection.ScanErrorPersists` | updater.go:131-134 | a parse error ends the pass: the error stays the result |
| `Selection.ScanLatest` | updater.go:128-138 | a successful pass over two or more candidates parsed all of them and chose a maximal instant; every candidate before the choice is strictly earlier (first among ties wins) |
| `Selection.ScanFails` | updater.go:128-134 | the pass fails exactly when two or more candidates exist and one does not parse; the error names the first such candidate |
| `Selection.ScanUsesOnlyCandidates` | updater.go:128-138 | the pass depends only on the parser's answers for the candidates |
| `Selection.Select` | updater.go:120-143 | a chosen artifact is in the list, has the configured name and is not expired; NotFound carries the configured name |
| `Selection.Latest` | updater.go:128-138 | the result of the pass over all candidates is one of them, or a malformed-timestamp error |
| `Selection.ResolveArtifact` | updater.go:120-143 | filtering, then the running latest for two or more candidates, the single candidate, or NotFound, compute exactly `Select` |
| `Selection.FilterEligible` | updater.go:122-127 | the appending loop builds exactly `Filter` |
| `Selection.PickLatest` | updater.go:128-138 | the running-latest loop, which ends at the first parse error, computes exactly `Latest` |
| `Selection.SelectNotFound` | updater.go:139-143 | selection fails with NotFound if and only if no artifact of the list is eligible |
| `Selection.SelectSingle` | updater.go:139-140 | the only eligible artifact is returned whatever the parser answers |
| `Selection.FilterSingle` | updater.go:122-127 | with one eligible artifact the filtered list is exactly that artifact |
| `Selection.SelectLatest` | updater.go:128-138 | with two or more eligible artifacts the choice parses and has the latest instant of all eligible artifacts |
| `Selection.SelectFirstAmongTies` | updater.go:128-138 | with two or more eligible artifacts, every eligible artifact listed before the choice is strictly earlier (strict `After`: the first of equal latest wins) |
| `Selection.SelectNewest` | updater.go:128-138 | an eligible artifact strictly later than all others is chosen wherever it is listed |
| `Selection.SelectMalformed` | updater.go:128-134 | with two or more eligible artifacts, selection fails if and only if one of them has an unparseable creation time, and the error names such a time |
| `Selection.SelectParsesOnlyEligible` | updater.go:122-138 | parsers that agree on the eligible artifacts give the same selection: others are never parsed |
| `Archive.FirstPayload` | updater.go:187-200 | the result is a matching entry with no matching entry before it; with no result, no entry matches |
| `Archive.LaterEntriesIgnored` | updater.go:188-199 | entries after a match, matching or not, do not change which entry is installed |
| `Archive.EarlierNonPayloadsSkipped` | updater.go:188-189 | non-matching entries in front shift the match but do not change it |
| `Archive.JarExample` | updater.go:189 | `build/app-1.2.3.jar` matches prefix `build/` and suffix `.jar` but not prefix `other/` |
| `Service.Classify` | updater.go:221-230 | success exactly on exit code 0; a launch failure is Unavailable; any other exit is NonZeroExit with its code and arguments |
| `Service.RunCommands` | updater.go:208-216 | the commands issued are a prefix of the list; all before the last succeeded; the run is complete exactly when no command failed; a failure is the last command's |
| `Updater.Receive` | updater.go:253-260 | a reply is used if and only if its status equals the expected one; otherwise the failure names URL, expected and actual status |
| `Updater.FetchPayload` | updater.go:110-155 | one to three requests, the artifact list with API headers first; every failure is one that comes before the backup; a payload arrives only after all three requests, only from a payload reply with status 200, and it is that reply's body; a payload reply with another status fails with UnexpectedStatus naming the payload URL, 200 and the actual status (updater.go:255-259) |
| `Updater.Restore` | updater.go:234-241 | the backup and every other file keep their content and no file disappears; unless the restore fails, the application then holds the backup's content |
| `Updater.Replace` | updater.go:181-206 | every failure is a rollback kind; only the application file changes; a failure with a working restore puts the backup's content back; success installs the first matching entry of the archive; the step succeeds if and only if the application opens, the archive opens, a payload entry exists and its open, copy and close work; a failed open of the application or the archive, or a missing entry, is reported as such |
| `Updater.Deploy` | updater.go:175-216 | stopping, replacing and starting never fail with a pre-backup kind, issue no request, and change no file but the application |
| `Updater.Install` | updater.go:168-173 | reading the application or writing the backup can fail, and then nothing changes and no command is issued; past the backup the files are the old ones with the backup holding the old application and only the application itself possibly different |
| `Updater.Attempt` | updater.go:109-219 | one to three requests with the artifact list first; a completed attempt, or one that failed after the backup, sent all three; a failure before the backup issued no command |
| `Updater.Describe` | updater.go:142 | every failure has a non-empty text; a missing artifact's text starts with "Can't find artifact with name " followed by the configured name, and a wrong status's text starts with "Request [GET " followed by the URL (updater.go:258) |
| `Updater.Respond` | updater.go:88-97 | status 200 with body "OK\n" exactly on completion; otherwise 500 with a body starting "ERROR: " |
| `Updater.Host.DoRequest` | updater.go:243-261 | records the request with or without API headers and returns what `Receive` decides |
| `Updater.Host.RunSystemctl` | updater.go:221-232 | appends the argument list to the command trace and returns the classification of its exit |
| `Updater.Host.RestoreOldApplication` | updater.go:234-241 | the application file becomes the backup's content unless restoring fails |
| `Updater.Host.FetchArtifact` | updater.go:110-155 | list, select, redirect and payload requests, in order, as `FetchPayload` gives them |
| `Updater.Host.ReplaceApplication` | updater.go:181-206 | truncation, the found-flag loop over the archive and the copy leave the files as `Replace` gives them, restoring the backup on every failure |
| `Updater.Host.StartApplication` | updater.go:208-216 | daemon-reload, start, enable and status are issued in order, stopping at the first failure |
| `Updater.Host.InstallUpdate` | updater.go:168-216 | backup, stop, replace, start, as `Install` gives them |
| `Updater.Host.UpdateApplication` | updater.go:109-219 | one attempt leaves outcome, files, commands and requests exactly as `Attempt` gives them; the temporary archive is removed on every exit after its creation |
| `Updater.Host.HandleUpdate` | updater.go:87-101 | a POST runs one attempt and answers with `Respond`; any other method answers 405 and changes nothing |
| `UpdateProperties.AttemptStages` | updater.go:109-166 | an attempt either fails before anything is written, with no file change and no command, or stages the downloaded payload in the temporary file, runs `Install` on it and removes that file again |
| `UpdateProperties.InstallRollback` | updater.go:181-206 | a replacement failure with a working restore leaves the application as it was, the backup holding the same content, and only `stop` issued |
| `UpdateProperties.InstallServiceFailure` | updater.go:175-216 | a `systemctl` failure happens only with the service enabled; the commands are a non-empty prefix of the sequence; a failed `stop` leaves the old application, a later failure the archive's payload |
| `UpdateProperties.InstallCompleted` | updater.go:175-216 | completion installs the archive's first payload, keeps the backup and issued every service command |
| `UpdateProperties.InstallCommands` | updater.go:175-216 | the commands are a prefix of the service sequence, none for a disabled service, and the application changes only after a successful `stop` |
| `UpdateProperties.InstallReplaceFault` | updater.go:181-203 | after a good backup and `stop`, any fault in the replacement makes `Install` fail with a rollback kind |
| `UpdateProperties.InstallStopFailure` | updater.go:175-179 | a failing `stop` is reported as that command's failure, is the only command issued, and leaves the application untouched |
| `UpdateProperties.InstallStartFailure` | updater.go:208-216 | a failing start-sequence command after a good replacement is reported as the last issued command's failure, and the new application stays |
| `UpdateProperties.InstallFaultFree` | updater.go:168-218 | with no fault in the backup, the service commands or the replacement, `Install` completes |
| `UpdateProperties.GoodRepliesStagePayload` | updater.go:110-165 | a 200 artifact list with a selectable artifact, a 302 redirect with a location and a 200 payload reply, with the temporary file created and closed, stage exactly that payload after the list, redirect and payload requests |
| `UpdateProperties.ReplaceFaultRollsBack` | updater.go:181-203 | after a good download, backup and `stop`, a fault injected in the replacement makes the attempt report a rollback failure, never success, and a working restore leaves the old application in place |
| `UpdateProperties.StopFailureReported` | updater.go:175-179 | after a good download and backup, a failing `stop` makes the attempt report that command's failure, with only `stop` issued and the application untouched |
| `UpdateProperties.StartFailureReported` | updater.go:208-216 | after a good replacement, a failing `daemon-reload`, `start`, `enable` or `status` makes the attempt report the last issued command's failure, with the new application kept |
| `UpdateProperties.FaultFreeAttemptCompletes` | updater.go:109-218 | with every download step, file operation and command succeeding, the attempt completes |
| `UpdateProperties.PreBackupFailureChangesNothing` | updater.go:109-173 | a failure before the backup is written leaves every file unchanged and issues no command |
| `UpdateProperties.BackupHoldsPreviousApplication` | updater.go:168-172 | past the backup, whatever the outcome, the backup holds the application's content from before the attempt |
| `UpdateProperties.RollbackRestoresApplication` | updater.go:181-206 | a replacement failure with a working restore leaves the application byte-identical to before, reports the failure, and only `stop` was issued |
| `UpdateProperties.ServiceFailureKeepsBinary` | updater.go:175-216 | a failing `systemctl` command is never rolled back: after `stop` the old binary stays, after a start-phase command the new one stays; the backup remains |
| `UpdateProperties.CompletedInstallsFirstPayload` | updater.go:168-218 | on completion the application is the first matching archive entry, the backup holds the old content, no other file changed, all five commands were issued when the service is enabled, and all three requests were sent |
| `UpdateProperties.CommandTrace` | updater.go:175-216 | the commands are always a prefix of stop, daemon-reload, start, enable, status, and there are none when the service is disabled; the application changes only after a successful `stop` |
| `UpdateProperties.RequestTrace` | updater.go:110-155 | the list request with API headers comes first; the redirect request for the selected artifact follows with the headers; the payload request goes to the redirect location without them; with fewer than three requests nothing changed |
| `UpdateProperties.NoEligibleArtifactFailsEarly` | updater.go:141-142 | with no eligible artifact the attempt fails with NotFound after only the list request, with no file change and no command |
| `UpdateProperties.OnlyApplicationAndBackupChange` | updater.go:157-206 | an attempt either leaves every file as it was, or leaves the old files with the backup holding the old application and only the application itself different; the temporary archive is gone afterwards |
| `UpdateProperties.EndToEndExample` | updater.go:109-219 | one artifact `app` with an unparseable-to-the-parser timestamp, archive with `build/app.jar`, no service: completed, the jar installed, backup kept, no commands, three requests |

## Left out

- Flag parsing and the reading of the configuration and token files (updater.go:58-85) are process wiring. The configuration is a `Config` value.
- The HTTP listener itself (updater.go:86-103) is not modelled. Only the handler's answer for a request method and an outcome is.
- The `http.Client` redirect suppression (updater.go:45-49), the header-copy loop (updater.go:246-252) and the header values are library calls. A request records only whether it carried the API headers.
- JSON decoding of the artifact list, including its `total_count`, is left out. The list arrives decoded; a failed read or decode is a `None` body.
- Zip decompression and CRC checks are left out. An archive is a list of named byte contents, and the zip reader is an input function.
- The RFC 3339 grammar and time-zone arithmetic of `time.Parse` are left out. Parsing is an input function from a string to an instant.
- The progress bar, the four-second settle delay before `status`, and the printing of command output are not modelled.
- File permission bits are not modelled. Reading the old application fails only when the file is missing.
- The temporary file is a new file distinct from the application and its backup. `os.CreateTemp` guarantees this, and `UpdateApplication` requires it.
- The closes of response bodies, the archive and the entry reader (updater.go:113, 149, 156, 186, 197) are not modelled.
- Concurrency between triggers is not modelled.
- `Updater.Host.RestoreOldApplication`: a failed restore leaves the files as they were before it. A real `os.WriteFile` failure could leave the application partly written.
- `Updater.Host.InstallUpdate`: a failed backup write leaves the files unchanged. A real `os.WriteFile` failure could leave a partial backup file.
- When the restore itself panics, Go reports the restore's panic. The model keeps the original failure, and the file contents show whether the restore happened.
- `Updater.Describe`: the texts abbreviate Go's panic messages; the contract promises only a non-empty text that names the artifact or the URL where Go's message does, not the exact wording, the expected and actual status or the wrapped Go error.
- `Updater.Respond`: the body after "ERROR: " is a short fixed text per failure kind. The text of Go's own error values and the status numbers in the request message are not reproduced.
- The model follows the code on these points:
  - there is no separate rollback-failed classification;
  - a failing `status` check fails the attempt;
  - every method other than POST gets 405;
  - the temporary file is removed only if it was created.
