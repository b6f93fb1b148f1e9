# A verified model of pv-migrate

pv-migrate copies Kubernetes volumes, backs them up and restores them. This
project models the parts of it that carry logic over unbounded inputs or runs,
in Dafny, and proves what they are for. `dafny verify dfyconfig.toml` checks it.

## What is modelled

- **Shell commands** (`shell_*.dfy`, `archive_*.dfy` but for `archive_target.dfy`,
  `transfer_cmd.dfy`, `stream_cmd.dfy`, `one_line.dfy`, `command_reading.dfy`, `find_clean.dfy`). A POSIX shell of its own: a character-by-character
  tokenizer with quoting, parameter, command and arithmetic substitution
  (IEEE Std 1003.1, Shell Command Language, sections 2.2 to 2.6), a parser for
  pipelines, and-lists and sequential lists (sections 2.9.2 and 2.9.3), and an
  evaluator with `pipefail` in which every program may answer anything and a
  second shell runs behind ssh. The builders are methods over a growing string,
  proved to write a text that this shell reads as the intended tree. The arguments
  in that tree are then read once more, as tar, its compressor, ssh, rclone, mkdir,
  df, awk and find read theirs: what the two tars of a copy are told fits together,
  and which files the find deletes is evaluated path by path.
- **Quiesce, snapshot, clone** (`flush_*.dfy`, `snapshot_*.dfy`). The database
  client is a state machine that runs what it is sent in order, may echo it, may
  die or lose its connection at any time; what its server holds follows from the
  statements executed. A `Session` is the class around it,
  with its pipe, its output and its one-slot channel, the streaming goroutine
  running in between any two statements. A `World` holds the cluster's snapshots
  and claims, the database and the calls made so far; every call may fail, also
  after having taken effect, and the storage system cuts a snapshot whenever it
  likes. The sequence of `snapshotsource.go` runs against it, deferred closures
  spelled out.
- **The log follower** (`follower.dfy`). Four goroutines, three contexts, a channel
  and the pod's log as a state machine over all interleavings.
- **Streams of lines** (`line_split.dfy`, `line_tail.dfy`, `log_scanner.dfy`) and
  the **compaction in place** (`compaction.dfy`), against specifications of the
  whole text and the whole list.
- **Paths and small languages** (`go_path.dfy`, `volume_paths.dfy`,
  `archive_target.dfy`, `dry_run.dfy`, `extra_args.dfy`). Go's `path.Clean` is a
  walk over components with a stack; pflag is modelled next to the scan that
  predicts it, and both next to the shell that splits the text they read.
- **The strategy ladder** (`ladder.dfy`) and **node topology** (`topology.dfy`).

`outcome.dfy`, `text.dfy`, `trim.dfy` and `decimal.dfy` hold what these share.

Where the code and what is said about it disagree, the model follows the code:

- The comments on `preparePath` and `cleanCmd` (`internal/archive/transfer.go:123-125`,
  `internal/archive/cmd.go:168-173`) have what follows stop when the mkdir or the clean fails; carrying on
  after a clean that stopped half way would leave the volume half emptied and then extract into it. In the local form the
  announcement that `tarCreate` starts with ends that `&&` list, so the extract runs after either failure. It
  is guarded exactly if the mkdir and, when asked for, the clean answer 0: `ArchiveExec.LocalExtractsAnyway`.
- A snapshot whose cut was never seen is taken back (`internal/bucketstorage/snapshotsource.go:371-389`), but that is
  deferred only once its creation was reported to have worked. One that was made although an error was
  reported stays: `SnapshotCalls.LostCreationStays`. Together with a refused deletion that is the only way:
  `SnapshotCalls.UncutSurvives`.
- A sidecar is to be named so that no backup overwrites the metadata of another
  (`internal/bucketstorage/archive.go:365-367`). Two archives that differ only in their extension share one:
  `ArchiveTarget.SidecarsMeet`.
- `FinishBar` looks at what was transferred, not at whether the bar drew
  anything (`internal/progresslog/logger.go:135-138`): `Follower.EmptyTransferStaysOpen`.
- Dry-run detection is to say what rclone ends up with (`internal/bucketstorage/bucketstorage.go:394-402`).
  It reads a flag's value, or an argument behind a bare `--`, as a flag, and misses a `-n` in a bundle that
  ends in a value: `DryRun.ScanMisreads`. It also cuts its text at spaces where a shell reads words, which are
  the same exactly without quotes, escapes and spaces that are no blanks (`ExtraArgs.FieldsAreWords`), so a
  quoted flag is missed: `DryRun.QuotedIsMissed`. When it is right, for every text whose literal words pflag
  accepts, quoted or not: `DryRun.TextIsRight`; argument by argument: `DryRun.ScanAgrees`.
- `tarCreate` names the member behind tar's options without a `--` (`internal/archive/transfer.go:157-158`), so
  a source whose own name starts with a dash is taken for an option: `VolumePaths.MemberIsOption`.
- The clean is to empty the directory but for lost+found (`internal/archive/cmd.go:163-173`). Its `-path` arguments
  are patterns, so it does that exactly for a path without a star, a backslash or a closed bracket:
  `FindClean.CleanEmpties`. A star also keeps files elsewhere; the other two have lost+found deleted.
- A built command is to stay on one line (`internal/shell/quote.go:24-32`). The user's extra rclone arguments are not
  checked for that, so a stream's command does exactly if they do: `StreamCommand.Build`.
- A user, a remote or a member whose name starts with a dash is read as an option by ssh, rclone and tar, none of
  which is given a `--`: `CommandReading.TransferLogsIn`, `CommandReading.StreamRcloneIsRead`,
  `CommandReading.TransferEndsFit`.
- The compaction is right for every list, not only where quiet rows are never
  pods: a pod is only ever dropped in favour of another pod of the same workload.

## Model

| member | source | states |
|---|---|---|
| ShellReading.QuotedWord | internal/shell/quote.go:11-22 | a shell in the middle of a word reads a quoted value as exactly its own characters, all literal, for every value |
| ShellQuote.QuoteOfPlainText | internal/shell/quote.go:16-22 | a value without a single quote is wrapped and otherwise untouched |
| ShellQuote.QuoteKeepsSingleLine | internal/shell/quote.go:24-50 | quoting brings no line break or control character in: a value that fits on one line of YAML still does |
| ShellReading.RenderedScriptIsRead | internal/archive/transfer.go:64-121 | tokenizing and parsing any script made of words, quotes, substitutions, redirections, pipes, `&&` and `;` gives back exactly its tree |
| ShellExec.PipefailZero | internal/archive/transfer.go:102-106 | under pipefail a pipeline has status 0 exactly if every stage has |
| ArchiveParts.CompressProgram | internal/archive/cmd.go:206-256 | a compressor exists exactly for none at level 0, zstd up to 19 and gzip up to 9, and only none has no program |
| ArchiveParts.CheckFields | internal/archive/cmd.go:182-204 | the checks pass exactly if every field is non-empty and fits on one line |
| ArchiveParts.UsedMeasures | internal/archive/transfer.go:147-148 | the substitution that measures used bytes parses to df on the path piped into awk |
| ArchiveParts.PrepareReads | internal/archive/transfer.go:123-134 | the prefix in front of any pipeline parses to mkdir, then find -delete when cleaning, then that pipeline, joined by `&&` |
| ArchiveParts.CleanRuns | internal/archive/cmd.go:163-180 | the clean command parses to one find of exactly these arguments; what they delete is FindClean.CleanEmpties |
| FindClean.CleanEmpties | internal/archive/cmd.go:163-180 | evaluated over the paths below a cleaned directory, the find deletes everything but lost+found and what is in it, and keeps the directory, exactly if the path holds no star, no backslash and no closed bracket; a question mark does no harm |
| FindClean.KeepsExactly | internal/archive/cmd.go:174-180 | the two kept patterns match exactly lost+found and what is in it if and only if every character of the directory stands for itself or for any one |
| OneLine.SingleLineIs | internal/shell/quote.go:50-82 | a value passes the check exactly if all its characters are printable in YAML 1.1 and none breaks a line |
| CommandReading.CompressorIsNamed | internal/archive/cmd.go:206-256 | the program tar is told writes the format it is named for, at the level asked for or 3 for zstd and 6 for gzip; only no compression is no program |
| CommandReading.DecompressorIsNamed | internal/archive/cmd.go:408-420 | the program a restore is told reads the format it is named for |
| CommandReading.PreparedIsRead | internal/archive/transfer.go:123-134 | the parsed preparation makes the directory with those above it, and its clean empties it exactly if the path is harmless |
| CommandReading.MeasureIsRead | internal/archive/transfer.go:147-148 | the parsed measurement asks df for bytes of the path and prints the used column of the line behind the header |
| TransferCommand.TarCreate | internal/archive/transfer.go:136-160 | the builder writes the announcement and the tar command of the model |
| TransferCommand.TarExtract | internal/archive/transfer.go:179-196 | the builder writes the extracting tar command of the model |
| TransferCommand.SshPrefix | internal/archive/transfer.go:198-208 | the prefix is ssh, its options, the port if there is one, and the quoted target |
| TransferCommand.Build | internal/archive/transfer.go:64-121 | accepted exactly if the fields are, and then the string is a single line that a POSIX shell reads as the intended tree: create into extract for pull, push and local, the ssh argument being, read a second time, the remote half with every path a single word |
| TransferCommand.PullRead | internal/archive/transfer.go:116-121 | the pull form parses to prepare, then ssh into extract, with the create as the remote script |
| TransferCommand.PushRead | internal/archive/transfer.go:109-114 | the push form parses to create into ssh, with prepare and extract as the remote script |
| TransferCommand.LocalRead | internal/archive/transfer.go:105-107 | the local form parses to prepare and the announcement as one list, and create into extract as the next |
| CommandReading.TransferEndsFit | internal/archive/transfer.go:71-119 | in all three parsed forms the extract reads the format the create writes, which is the one asked for, zstd by default and none locally; both keep numeric owners and extended attributes and leave out lost+found; the create names the source's member exactly if that does not look like an option, the extract the destination |
| CommandReading.TransferLogsIn | internal/archive/transfer.go:198-208 | the parsed ssh logs in as the user at the host, at the port if one is given, with the five options, and runs the script, exactly if the user's name does not start with a dash |
| ArchiveCommand.Build | internal/archive/cmd.go:97-150 | accepted exactly if the fields are, and then the string is a single line read as the mkdir, the clean on a restore, and the tar command with these arguments |
| CommandReading.ArchiveTarIsRead | internal/archive/cmd.go:112-149 | the parsed tar writes the volume into the archive in the format named, or reads it back, in any format unless the archive is standard input |
| CommandReading.ArchiveFitsItsExtension | internal/archive/cmd.go:139-141 | a backup whose compression was read off its path writes the format of that path's extension |
| StreamCommand.Build | internal/archive/cmd.go:290-325 | accepted exactly if the fields are; the string is a single line exactly if the extra arguments are; while these are plain words it is read as the piped command |
| StreamCommand.BuildBackup | internal/archive/cmd.go:355-377 | the builder writes pipefail, the chunk sizing, tar into rclone rcat and then the extra arguments |
| StreamCommand.BuildRestore | internal/archive/cmd.go:379-406 | the builder writes pipefail, the preparation, rclone cat with the extra arguments into tar |
| StreamCommand.BackupRead | internal/archive/cmd.go:343-377 | the backup string parses to five lists, the chunk size computed from the measured bytes placed before the user's own arguments |
| StreamCommand.FormulaSpelled | internal/archive/cmd.go:346-353 | the arithmetic in the command is the text of (used * 5 / 4 / 9000 / 1048576) + 1 |
| StreamCommand.ChunkValue | internal/archive/cmd.go:346-353 | and has that value, division being that of whole numbers |
| StreamCommand.ChunkHoldsVolume | internal/archive/cmd.go:327-341 | 9000 parts of the chunk hold the used bytes and a quarter more, the chunk is at least 5 MiB, and above that no smaller one would do |
| StreamCommand.RestoreRead | internal/archive/cmd.go:379-406 | the restore string parses to the guarded pipeline from rclone into tar |
| CommandReading.StreamTarIsRead | internal/archive/cmd.go:355-406 | the parsed tar of a backup writes the format named, and that of a restore reads this format and no other |
| CommandReading.StreamFitsItsExtension | internal/archive/target.go:105-113 | with the compression read off the path, both are the format of the path's extension |
| CommandReading.StreamRcloneIsRead | internal/archive/cmd.go:370-396 | the parsed rclone writes the remote in a backup and reads it in a restore, with the job's progress flags, exactly if the remote does not look like an option; the chunk size stands before the user's words |
| CommandReading.ChunkIsEnough | internal/archive/cmd.go:343-353 | evaluated for any measured size, the parsed formula and floor give a chunk of at least 5 MiB of which 9000 hold the size and a quarter more, and no larger one than that takes |
| ArchiveExec.TransferExitZero | internal/archive/transfer.go:102-121 | exit status 0 of any transfer means both tars ran on their own side and exited 0, whatever the programs answer |
| ArchiveExec.TransferGuarded | internal/archive/transfer.go:105-134 | in pull and push the extract never starts unless mkdir, and the clean if asked, succeeded before on the same side |
| ArchiveExec.LocalExtractsAnyway | internal/archive/transfer.go:105-107 | in the local form the extract always runs, and it is guarded exactly if the mkdir and, when asked for, the clean answer 0; after a failed mkdir or a clean that stopped half way it extracts all the same |
| ArchiveExec.PipefailIsNeeded | internal/archive/transfer.go:102-121 | of every built transfer, without its first list, there is a run that exits 0 in which the tar that reads the source was started and failed every time |
| ArchiveExec.ArchiveRuns | internal/archive/cmd.go:97-180 | the archive command is guarded by its mkdir and clean, and status 0 means tar exited 0 |
| ArchiveExec.StreamRestoreRuns | internal/archive/cmd.go:379-406 | a streamed restore never extracts after a failed preparation, and status 0 means both ends of the pipe exited 0 |
| ArchiveExec.StreamBackupRuns | internal/archive/cmd.go:355-377 | status 0 of a streamed backup means tar and rclone both exited 0 |
| FlushClient.StepKeeps | internal/flush/spec.go:141-152 | every event of the client or its server keeps the invariant: the marker is in the output only if the probe has executed, and the lock is what the executed statements leave |
| FlushClient.RunKeepsInv | internal/flush/spec.go:174-190 | the same over whole runs, and nothing printed or broken is taken back |
| FlushClient.ProbeIsClean | internal/flush/spec.go:141-157 | the probe's text does not hold the marker it makes the server print |
| FlushClient.IdentifyIsClean | internal/flush/spec.go:154-155 | nor does the identity query |
| FlushClient.LockIsClean | internal/flush/spec.go:222-251 | nor does any lock or unlock statement |
| FlushClient.LockTable | internal/flush/spec.go:222-251 | each lock's unlock statement lets go of exactly what its lock statement takes; the probe does neither |
| FlushSpec.ProbeSaysMarker | internal/flush/spec.go:146-157 | the probe selects a concatenation whose value is the marker |
| FlushSpec.IdentifySaysServer | internal/flush/spec.go:154-155 | the identity query selects the version and the comment between the prefix and the end that are looked for |
| FlushSpec.AnswerIsRead | internal/flush/spec.go:159-172 | so what is read from a client that has answered it is the server's version and comment, whatever else was printed before and after |
| FlushClient.MarkerConfirms | internal/bucketstorage/snapshotsource.go:668-676 | a client that was given only identify, lock and probe and whose output holds the marker has executed the lock statement without error |
| FlushClient.ConfirmedHolds | internal/flush/session.go:3-7 | from then on what that statement takes is held at every moment at which the session is alive |
| FlushClient.UnlockDooms | internal/bucketstorage/snapshotsource.go:680-692 | a session that was not alive when the unlock was sent can never end cleanly |
| FlushClient.CleanVouches | internal/bucketstorage/snapshotsource.go:680-692 | a clean exit after the unlock vouches that the session was alive at every moment before it |
| FlushClient.CleanIsUnlocked | internal/bucketstorage/snapshotsource.go:680-692 | and then the client has executed the script and the unlock, which leave nothing held |
| FlushSpec.IdentityIsRead | internal/flush/spec.go:159-172 | the identity is what stands between the first prefix and the first end after it, for any output; it was not said exactly if there is no prefix, and cut short exactly if no end follows |
| FlushSpec.VersionIsRead | internal/flush/spec.go:291-322 | a version printed as two numbers and anything else reads back as those numbers, also behind a proxy's 5.5.5- prefix |
| FlushSpec.ServerIsRead | internal/flush/spec.go:263-285 | a version and a comment as a server tells them are read as that server: its kind, its numbers |
| FlushSpec.ChosenLockFits | internal/flush/spec.go:253-285 | a lock is chosen exactly if the version can be read, and it is then the one lock that fits: the server has it, and it is the global read lock only where there is no other |
| FlushSpec.ChosenFitsWhatIsSaid | internal/bucketstorage/snapshotsource.go:695-719 | a lock chosen on an output fits the identity that output says, whichever it is, and none is chosen on one that cannot be read |
| FlushPair.LockMarkerMeansTaken | internal/flush/spec.go:363-367 | the lock marker is in the output exactly if the server took the lock |
| FlushPair.ReleaseMarkerMeansNone | internal/flush/spec.go:368-376 | the release marker is in the output exactly if a lock was undone and the count it left is zero |
| FlushSession.Session.Open | internal/flush/session.go:67-86 | a new session is streaming to a client that was given nothing |
| FlushSession.Session.Pass | internal/flush/session.go:72-83 | however the streaming goroutine runs between two statements, its one send finds the channel empty, output only grows and a reported end stays |
| FlushSession.Session.Peek | internal/flush/session.go:90-95 | taking the value and putting it back never blocks and leaves the channel as it was |
| FlushSession.Session.Write | internal/flush/session.go:88-103 | a write reaches the client unless it fails; after the end every write fails with the same exit |
| FlushSession.Session.WriteSecret | internal/flush/session.go:105-122 | the password line fails under the same conditions, is no statement, and is written exactly if it did not fail |
| FlushSession.Session.WaitFor | internal/flush/session.go:124-153 | nil means the marker is in the output; what was there already is found; an end is reported only of a session that has ended, with its exit |
| FlushSession.Session.Close | internal/flush/session.go:155-167 | closes stdin and returns the exit, the same one at every later call; success means a clean exit |
| SnapshotWorld.World.Pass | internal/snapshot/snapshot.go:132-167 | time passing keeps a confirmed lock held or visibly broken, and every snapshot cut since the quiesce cut under the lock or with it broken |
| SnapshotWorld.World.Create | internal/snapshot/snapshot.go:96-130 | makes an uncut snapshot under a free name or fails, possibly with the change made all the same |
| SnapshotWorld.World.WaitForCut | internal/snapshot/snapshot.go:132-167 | nil means the snapshot exists and has been cut |
| SnapshotWorld.World.DeleteSnapshot | internal/snapshot/snapshot.go:243-253 | removes that snapshot and no other, one that is gone being no error |
| SnapshotWorld.World.Run | internal/flush/session.go:209-239 | success means a client was started, was given the password if there is one and nothing else, had its stdin closed and exited 0 |
| SnapshotWorld.World.QuiesceSession | internal/bucketstorage/snapshotsource.go:637-693 | success means the client was given the password before any statement, and has executed the statement of a lock that fits the identity its output says: one the server has, and the heavy one only if it has no other |
| SnapshotWorld.World.QuiescePair | internal/bucketstorage/snapshotsource.go:735-782 | success means the lock command ran to a clean exit, and the count was raised by one or a restart has since dropped it |
| SnapshotWorld.World.ReleaseSession | internal/bucketstorage/snapshotsource.go:680-692 | success means the session had been alive all along since the lock was confirmed, and the matching unlock has been executed |
| SnapshotWorld.World.ReleasePair | internal/bucketstorage/snapshotsource.go:755-769 | success means the count was one before and is zero after |
| SnapshotWorld.World.Hold | internal/bucketstorage/snapshotsource.go:427-436 | success means the server obeyed the kind asked for: a session holds the lock that fits it, or a client of this call ran its command to a clean exit, the one-shot kind included |
| SnapshotWorld.World.Quiesce | internal/bucketstorage/snapshotsource.go:400-464 | hands back an unused release and a lock that fits the server and is held or broken from here on; without --flush one that does nothing |
| SnapshotWorld.World.ReleaseLock | internal/bucketstorage/snapshotsource.go:446-463 | a release that succeeds vouches that every snapshot cut since the quiesce was cut while the database was locked |
| SnapshotWorld.World.Unlock | internal/bucketstorage/snapshotsource.go:446-463 | the release runs at the first call only |
| SnapshotSource.CreateAndCut | internal/bucketstorage/snapshotsource.go:361-398 | makes exactly the calls between the lock and the deferred release, deleting a snapshot that never cut and keeping one that did |
| SnapshotSource.CutSnapshot | internal/bucketstorage/snapshotsource.go:332-398 | makes exactly the modelled calls for every pattern of answers; nil means the snapshot is cut and the database was locked at that moment, the pair kind's count having been zero before and being zero after; on every path the client that was started has ended |
| SnapshotSource.EnsureSnapshot | internal/bucketstorage/snapshotsource.go:129-143 | the class is checked before the quiesce; a snapshot named with --from-snapshot is handed on under that name, otherwise a new one that was cut under the lock |
| SnapshotSource.CloneSnapshot | internal/bucketstorage/snapshotsource.go:207-235 | the clone counts as created as soon as its claim does, found again or not |
| SnapshotSource.RollbackSnapshotSource | internal/bucketstorage/snapshotsource.go:260-281 | tries the claim if it was created and then the snapshot, whatever became of the claim |
| SnapshotSource.PrepareSnapshotSource | internal/bucketstorage/snapshotsource.go:102-176 | makes exactly the modelled calls; on success the clone is there and was cloned from the snapshot the user named, or from one that was not there before and was cut under the lock; a snapshot that was seen cut and is still there is the one that was cut |
| SnapshotSource.RemoveSnapshotSource | internal/bucketstorage/snapshotsource.go:303-330 | deletes the clone and, only if that worked, the snapshot |
| SnapshotSource.ReleaseSnapshotSource | internal/bucketstorage/snapshotsource.go:784-810 | tears down unless the run is detached or told to leave things in place |
| SnapshotSource.Run | internal/bucketstorage/bucketstorage.go:237-242 | after a whole run the cluster holds exactly what the calls account for, whatever was answered, and the modelled leftovers if the deletions worked; a clone that is left comes from the named snapshot or from one the calls created and saw cut; a snapshot seen cut was cut under the lock if the run could go on, and one left uncut had its creation misreported or its deletion refused |
| SnapshotSource.DeleteLabeled | internal/snapshot/snapshot.go:265-305 | on success removes exactly the claims and snapshots that carry the label |
| SnapshotCalls.NewSnapshotIsCloned | internal/bucketstorage/snapshotsource.go:129-165 | without --from-snapshot the class comes before the lock, the lock before the snapshot and the snapshot before the wait, and whatever is waited for and cloned is a snapshot this run created and saw cut |
| SnapshotCalls.GivenSnapshotIsCloned | internal/bucketstorage/snapshotsource.go:189-194 | with --from-snapshot exactly the named snapshot is waited for and cloned, nothing is locked, and no snapshot is made or deleted |
| SnapshotCalls.NamesAreOwn | internal/bucketstorage/snapshotsource.go:146-196 | two releases share neither a snapshot nor a clone |
| SnapshotCalls.QuiescedIsReleasedOnce | internal/bucketstorage/snapshotsource.go:350-398 | once quiesced, every run releases exactly once, after the cut wait and before the readiness wait, and goes on only if that succeeded |
| SnapshotCalls.RunIsAccountedFor | internal/bucketstorage/snapshotsource.go:102-330 | for every pattern of answers the cluster gains the snapshot and the clone the run made and did not delete again, and nothing else changes |
| SnapshotCalls.LeftoversAreExact | internal/bucketstorage/snapshotsource.go:371-398 | whatever fails but a deletion, what is left is exactly: a cut snapshot that was to be kept, whose lock release failed, or that stays with its clone on request, and a snapshot or clone whose creation took effect and was reported failed |
| SnapshotCalls.UncutSurvives | internal/bucketstorage/snapshotsource.go:361-389 | a snapshot no wait saw cut is left behind exactly if its creation took effect and was reported failed, or its deletion was refused |
| SnapshotCalls.LostCreationStays | internal/bucketstorage/snapshotsource.go:361-364 | a run in which a creation reported failed leaves an uncut snapshot, though every deletion works |
| SnapshotCalls.RunDeletesItsOwn | internal/bucketstorage/snapshotsource.go:260-330 | every deletion is of something the run made before, and the clone is deleted before the snapshot it reads |
| SnapshotCalls.GivenSnapshotSurvives | internal/bucketstorage/snapshotsource.go:189-194 | a snapshot named with --from-snapshot is never deleted, whatever it is called |
| SnapshotCalls.CleanupFinishes | internal/bucketstorage/snapshotsource.go:292-301 | whatever was answered during a run, a cleanup by label that succeeds brings the cluster back to where it was, but for a snapshot that was to be kept |
| Follower.StepKeeps | internal/progresslog/logger.go:76-112 | every step of every goroutine keeps the invariant of the protocol |
| Follower.BarIsFinishedOnce | internal/progresslog/logger.go:124-145 | in every interleaving the bar is finished at most once, stays at 99 or below before, and shows 100 exactly from then on, the lines of a stream asked for again being only new ones; the two owners of the writer never overlap; after a success it is finished exactly if the handler saw the success or something was transferred |
| Follower.AnswerIsThePods | internal/k8s/job.go:223-254 | in every interleaving a wait that is not broken off answers success exactly if the pod succeeded, having told the follower, and failure exactly if it failed, having written the end of its log; the line of a bar that drew something is ended exactly where no success finishes it |
| Follower.FailedPodIsNoSuccess | internal/k8s/job.go:230-236 | for a pod that failed no success is ever told, the bar is never finished and stays at 99 or below |
| Follower.TokenIsTakenOnce | internal/progresslog/logger.go:76-122 | the token is sent with the success and taken at most once, by the handler or by the loop, or is still there |
| Follower.FollowerIsToldOnce | internal/k8s/job.go:195-217 | whatever a follower returns is told by the first stop and by no other, every later one telling nil; Start itself never returns an error |
| Follower.MarkNeverBlocks | internal/progresslog/logger.go:114-122 | the success token always finds room |
| Follower.JoinIsNeverStuck | internal/k8s/job.go:199-215 | once stopped, some goroutine of the follower can always move towards its end |
| Follower.JoinOnlyNears | internal/k8s/job.go:199-215 | and no step of any goroutine leads away from it |
| Follower.EmptyTransferStaysOpen | internal/progresslog/logger.go:135-138 | a bar drawn by an update that transferred nothing, at any percentage, can be left unfinished by a successful job |
| LineTail.Tail.Write | internal/strategy/linetail.go:25-46 | however the text is cut into writes, the kept lines are the last non-blank trimmed ones of the whole text and the buffer its unfinished rest |
| LineTail.Tail.Record | internal/strategy/linetail.go:63-70 | shifting in place keeps the last lines |
| LineTail.Tail.Lines | internal/strategy/linetail.go:48-61 | the lines are those, followed by the unfinished rest if it is not blank |
| Trim.TrimSpaceIs | internal/strategy/linetail.go:37-56 | what trimming cuts off is blank at the two ends, and what stays has nothing more to cut off |
| LineTail.TailIsTheEnd | internal/strategy/linetail.go:48-61 | seen as one list, that is the end of all the lines, with room for one more while the last is unfinished |
| LineSplit.SplitAppend | internal/strategy/linetail.go:29-43 | cutting a text in two anywhere changes none of its pieces but the unfinished one |
| LogScanner.ScanCRLF | internal/progresslog/logger.go:187-208 | given a break or the end it always advances, by an unbroken token and one separator, a CRLF seen whole being one |
| LogScanner.TokenIsPiece | internal/progresslog/logger.go:194-201 | a token with its separator is one piece of the text, and loses no other byte |
| LogScanner.Scanner.Scan | internal/progresslog/logger.go:230-240 | for any buffering the next token is the next piece, or empty |
| LogScanner.TailLogs | internal/progresslog/logger.go:230-252 | for any buffering the non-empty tokens are the non-empty pieces of the whole text, and the tokens together are its bytes without the breaks; cancelled at any moment, they are the beginning of that |
| LogScanner.FindLast | internal/progresslog/logger.go:210-228 | the progress found is that of the last line that parses, none exactly if none does, whatever the buffering, for a parser that makes nothing of an empty line |
| Compaction.KeptPod | internal/k8s/diagnostics.go:386-396 | a workload that has a pod in the list has one that is kept, a row of kind pod whose name goes on behind the workload's and a dash |
| Compaction.DroppedIsCovered | internal/k8s/diagnostics.go:369-386 | a row goes exactly if it is quiet, has no events, and some pod of its name is kept |
| Compaction.KeptAsItWas | internal/k8s/diagnostics.go:377-380 | a kept row is unchanged but for the title of a quiet row with events |
| Compaction.HalfwayAnswers | internal/k8s/diagnostics.go:369-396 | the partly overwritten slice answers the pod question as the original list |
| Compaction.HasPodOfWorkload | internal/k8s/diagnostics.go:388-396 | true exactly if some row is a pod of the workload |
| Compaction.DropShadowedQuietFacts | internal/k8s/diagnostics.go:369-386 | the compaction in place yields exactly the filtered and retitled original list, for every list |
| GoPath.CleanStays | internal/strategy/paths.go:70-71 | cleaning a path keeps the place it leads to, and cleaning twice changes nothing |
| GoPath.PathSteps | internal/strategy/paths.go:70-71 | what a path means, step by step: a name goes down, two dots go up but not above the root, one dot or another slash stays |
| VolumePaths.ContentsAreWanted | internal/strategy/paths.go:84-90 | contents are asked for exactly by a path that ends in a slash or in the name of the directory itself |
| VolumePaths.MountedStaysIn | internal/strategy/paths.go:44-82 | a path is accepted exactly if all resolved it leads into the volume, and what is handed on is that place without ".." and with the slash that asks for contents where they are meant |
| VolumePaths.TarSourceIsTheTree | internal/archive/transfer.go:162-177 | directory and member together are the place the path means, inside the volume, and the member is "." exactly where the contents are meant |
| VolumePaths.MemberIsOption | internal/archive/transfer.go:157-158 | the member looks like an option to tar exactly if the path means a directory or file, not contents, whose own name starts with a dash |
| VolumePaths.MountedIsResolved | internal/strategy/paths.go:70-82 | every accepted path is handed on in the form that the clean command's patterns need |
| VolumePaths.DataIsResolved | internal/bucketstorage/bucketstorage.go:802-816 | and so is every data path |
| VolumePaths.DataPathStaysIn | internal/bucketstorage/bucketstorage.go:802-816 | --path is accepted exactly if it is relative and never leads above the root, and then it is that path below the mount; without one it is the mount |
| VolumePaths.ArchiveStaysIn | internal/bucketstorage/archive.go:114-131 | the archive path of a target with an extension is accepted exactly if it does not lead out, and is a file inside the claim with that extension |
| VolumePaths.ArchiveDirectoryIsMade | internal/archive/cmd.go:113-117 | the mkdir of every built backup, read as mkdir reads it, makes the directory the archive's own path lies in, those above it included, and it lies inside the mount |
| VolumePaths.RootWouldPass | internal/bucketstorage/archive.go:120-131 | without the extension the claim's root itself would pass, spelled "//" |
| ExtraArgs.FieldsAreWords | internal/rclone/cmd.go:76-78 | of a text that a shell reads as literal words, the scan's fields are those words exactly if it holds no quote, no escape and no space but blanks |
| DryRun.QuotedIsMissed | internal/bucketstorage/bucketstorage.go:404 | any quoted argument without a space reaches rclone as itself, and the scan never sees a dry run in it |
| DryRun.HasRcloneDryRun | internal/bucketstorage/bucketstorage.go:397-421 | the loop is the left-to-right scan of the text's fields, the last occurrence winning |
| DryRun.ApplyAssignedFlag | internal/bucketstorage/bucketstorage.go:423-447 | an assigned value goes to --dry-run or to the last letter of a bundle, a bare n before it counting as true |
| DryRun.HeardIsParsed | internal/bucketstorage/bucketstorage.go:397-454 | for every command line pflag accepts, the dry run it ends up with is what the scan makes of the flags pflag hears in it, whatever the scan makes of the rest |
| DryRun.ScanIsRight | internal/bucketstorage/bucketstorage.go:397-421 | for every such line the scan is right exactly if the last argument that says something to it says what the last heard flag that does says |
| DryRun.TextIsRight | internal/bucketstorage/bucketstorage.go:397-421 | of the text itself, quoted or not: the scan of its fields is right exactly if the last field that says something says what the last flag heard in the shell's words does |
| DryRun.SaysIsSpelled | internal/bucketstorage/bucketstorage.go:404-454 | an argument says something exactly if it is --dry-run or a bundle with an n, bare, or with a boolean assigned to that flag or to an n in last place |
| DryRun.ScanAgrees | internal/bucketstorage/bucketstorage.go:397-454 | so it is right about any line whose separate and attached values, and what follows a bare "--", say nothing to it; positional arguments never do |
| DryRun.SeparateValue | internal/bucketstorage/bucketstorage.go:397-421 | about a flag and its separate value it is right exactly if the value, read as an argument, changes nothing |
| DryRun.AttachedValue | internal/bucketstorage/bucketstorage.go:397-421 | about one flag it is right exactly if a value attached to a bundle changes nothing |
| DryRun.BehindDashes | internal/bucketstorage/bucketstorage.go:397-421 | about what follows a bare "--" it is right exactly if all of it together changes nothing |
| DryRun.ScanMisreads | internal/bucketstorage/bucketstorage.go:397-421 | it sees a dry run in `-o -n` and `-- -n` that pflag does not, and misses the one in `-no5` |
| ArchiveTarget.ExpandTime | internal/archive/target.go:126-161 | the loop is the expansion, with its two errors |
| ArchiveTarget.DateIsWritten | internal/archive/target.go:115-124 | a date and a time in strftime's letters expand to their fields in that order |
| ArchiveTarget.EscapesAreKnown | internal/archive/target.go:126-161 | behind any text that expands, a lone percent sign and one before any character but the seven are refused, each as what it is, and one before those never is |
| ArchiveTarget.ExpandCat | internal/archive/target.go:126-161 | a text expands piece by piece, what comes before never changing what comes after |
| ArchiveTarget.DoubledIsLiteral | internal/archive/target.go:126-161 | a text with its percent signs doubled expands to itself at any time |
| ArchiveTarget.RefusedLocations | internal/archive/target.go:176-198 | an s3 location is accepted exactly if its first slash has something on both sides, any other exactly unless it begins with a colon |
| ArchiveTarget.PrintedIsRead | internal/archive/target.go:176-198 | a printed location is read back as itself exactly unless its spelling is ambiguous |
| ArchiveTarget.ReadIsPrinted | internal/archive/target.go:176-198 | every accepted value is its location printed |
| ArchiveTarget.ParseInvertsPrint | internal/archive/target.go:67-101 | a whole target printed with percent signs doubled is parsed back to itself exactly unless its spelling is ambiguous |
| ArchiveTarget.OrderDoesNotMatter | internal/archive/target.go:43-54 | no order of the extension table changes the compression or the stem read from a path |
| CommandReading.ExtensionIsRead | internal/archive/target.go:43-113 | the compression read from a path is the format its extension stands for, and there is none exactly if there is no extension |
| ArchiveTarget.SidecarsMeet | internal/bucketstorage/archive.go:365-376 | two archives share a sidecar exactly if they differ in nothing but their extensions |
| Ladder.Dedup | internal/migrator/migrator.go:536-550 | the loop keeps each strategy at its first mention |
| Ladder.FirstMentionsKeepOrder | internal/migrator/migrator.go:536-550 | none is left out, made up or repeated, and the order of first mention stays |
| Ladder.Cluster.Cleanup | internal/strategy/strategy.go:145-172 | tries every release on both sides; without an error they are all gone and nothing else is |
| Ladder.CleanupAttempt | internal/migrator/migrator.go:256-278 | leaves everything in place exactly for --no-cleanup, a detached run, or a failure that is to be kept; otherwise a cleanup without an error removes the attempt's releases, all of them and nothing else |
| Ladder.RunAttempt | internal/migrator/migrator.go:223-254 | what an attempt leaves is at most its own releases, and none of them after a clean cleanup |
| Ladder.Run | internal/migrator/migrator.go:77-112 | the strategies run are the shortest prefix of the order that ends in success, cancellation or exhaustion; nil exactly if one succeeded; with cleanup on and uninstalls working no earlier release exists when the next starts |
| Topology.IntersectNodes | internal/pvc/info.go:396-422 | the loops compute the intersection, nil meaning no constraint |
| Topology.IntersectPermits | internal/pvc/info.go:396-422 | a node is permitted exactly if both constraints permit it |
| Topology.IntersectIsMeet | internal/pvc/info.go:396-422 | the intersection is the loosest constraint tighter than both |
| Topology.RequireNodes | internal/pvc/info.go:424-453 | the loop builds one term for each node |
| Topology.RequirePermits | internal/pvc/info.go:424-453 | those terms are satisfied exactly by the nodes permitted, and each has one value |
| Topology.InfoPinsItsNode | internal/pvc/info.go:235-319 | a claim is refused exactly if its volume fits no node, and held to the node it is mounted on exactly if only one node can have it attached; without a constraint that node is a preference |
| Topology.InfoIsConsistent | internal/pvc/info.go:235-319 | a claim's affinity requires exactly its pinned nodes, which lie within those its volume allows |
| Topology.CloneIsConsistent | internal/bucketstorage/snapshotsource.go:237-258 | a clone without a topology gets the source volume's, one with its own keeps it, either is consistent, and a pod with the inherited one may run exactly where the source volume may be used, not only where it is attached |
| Topology.SchedulableMeansANode | internal/bucketstorage/archive.go:194-212 | the check passes exactly if nothing constrains the pod or some node suits both claims |
| Topology.AffinityIsBoth | internal/bucketstorage/archive.go:223-238 | a node satisfies the required terms exactly if both claims permit it; where neither is constrained the data claim's preference comes first |

## Left out

- Kubernetes, Helm, exec and watch calls: each is a step that succeeds or fails as it likes. Objects of a run are not removed by anyone else while it lasts.
- Error texts, narration, colours, key generation, port forwarding and tunnels, regular expressions and JSON of progress lines, chart templates.
- UTF-8 validity in CheckSingleLine: the model works on characters, so every string is valid.
- ShellReading.RenderedScriptIsRead: covers words, quotes, `$name`, `${name}`, substitutions, redirections to a file descriptor, `|`, `&&` and `;`; not `||`, background lists, compound commands, here-documents, comments, aliases, globbing or field splitting of unquoted expansions, none of which the built strings contain.
- StreamCommand.Build: the extra rclone arguments are pasted unquoted, so what the string is read as is stated only while they are plain words; an operator or an open quote in them changes the command.
- FindClean.CleanEmpties: of a bracket expression only where it ends matters, which is read without its character classes and without escapes inside; a file name is any name but the empty one and the two dotted ones.
- CommandReading.TransferEndsFit: options are those the built commands use, an unknown one failing; what zstd, pigz, tar and rclone then do with the data is not part of this model.
- StreamCommand.BackupRead: stated, as Build is, while the extra arguments are plain words.
- StreamCommand.RestoreRead: stated, as Build is, while the extra arguments are plain words.
- StreamCommand.ChunkHoldsVolume: the shell's 64-bit wrap-around, which takes a volume of more than an exbibyte.
- ArchiveExec.TransferExitZero: the remote half either runs to its end or ssh reports a failure; a connection that breaks in the middle is one of the answers ssh can give.
- FlushClient.StepKeeps: what a client prints of its own accord does not hold the marker, and a piece of echoed statement ends at a character the marker does not hold; the marker is told apart from nothing else.
- FlushClient.MarkerConfirms: for the built-in clients; a client given with --flush-command may do anything.
- FlushSession.Session.Write: a line that reached the client only in part is treated as not sent, as the failed write reports it.
- SnapshotWorld.World.QuiescePair: nobody else locks or unlocks the server during the run, and a lock command whose exec fails may leave the lock behind, as in the source, where no release is returned then.
- SnapshotCalls.LeftoversAreExact: stated for runs whose deletions work; RunIsAccountedFor covers the others.
- FlushSpec.ChosenLockFits: which server has which statement is taken from the comments of the source, not from the servers.
- LogScanner.TailLogs: the scanner's limit of 64 KiB on one token.
- Follower.FollowerIsToldOnce: a follower that ends with an error is let do so only between two attempts.
- Follower.BarIsFinishedOnce: that a stream asked for with TailLines 0 of a pod that has ended has no lines is taken from the cluster's API; the bar's own rendering and rate; a line parser is any partial function from lines to updates.
- ExtraArgs.FieldsAreWords: words that a shell would still expand, by globbing, a tilde or a substitution, are not literal, and texts with operators are no words.
- LineTail.Tail.Write: bytes that are not UTF-8; trimming is over the characters `unicode.IsSpace` names.
- Topology.CloneIsConsistent: the clone is a value here, where the source assigns its fields.
- Timeouts and polling intervals: a wait is a bounded number of looks, any of which may be the last.
- The bucket workflow's own rclone command, credentials and secrets, detach messages, metadata files, and request copying: no logic over unbounded inputs.
