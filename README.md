# texmacsautobuild: a verified model of the build driver's deterministic core

The build driver checks out TeXmacs and prepares patches. It drives remote build machines over SSH, one worker per target, and publishes source packages to the Open Build Service. Most of that is process and network plumbing. This project models in Dafny the deterministic logic underneath it, and proves what that logic promises:

- **Shell** (`autobuild/ssh.py`): the remote-shell session. The model covers:
  - per-chunk normalisation: CRLF to LF, terminal escape sequences removed, the echoed sentinel command rewritten to `---END---`;
  - line assembly with a carry-over buffer;
  - the empty-line and carriage-return display filter;
  - the sentinel stop rule of the read loop;
  - command framing with doubled backslashes;
  - the batch launcher, which connects for the first command only.

  The session is a class whose fields are the source's fields, plus the log, the strings sent and the batches of chunks still to arrive.
- **Lease** (`autobuild/machine.py`): a machine is held or free. The local Proxmox machine queries the VM status when it is used, starts the VM unless it is running, and records in `to_release` that it did. On release it shuts the VM down only if it started it. Ping polling runs over a given sequence of answers. `MachineLock` is modelled as enter and exit methods.
- **Target** (`autobuild/texmacsmachine.py`): the per-target worker, modelled as a class.
  - **Queue:** the job queue is FIFO. `build()` and `test()` append to it, `join()` clears the run flag, and one worker step pops the head and runs it.
  - **Jobs:** the build job runs its four stages in order under one lease; the test job runs one stage under its own lease. The lease is released even when a stage raises.
  - **Trace:** a trace records each acquisition, each stage start and each release. The lemmas prove that any run of jobs holds at most one lease at a time and starts stages only under a lease.
- **Versions** (`autobuild/texmacsrepo.py`, `autobuild/tmstatic.py`):
  - both `highestVersion` variants: `texmacsrepo.py` pads version 2 with two zeros, `tmstatic.py` pads nothing;
  - the change-log scan for `\((\d+\.\d+(\.\d+)?)\)` and its fold from `"0.0.0"`;
  - the `<TeXmacs|…>` line scan and its fold from the previous version;
  - the working copy that re-reads its version after every checkout and update.
- **Svn** (`autobuild/svn.py`, and the identical `SVN.up` of `autobuild/tmstatic.py`):
  - revision extraction from the output of `svn up`;
  - the `has_been_updated` / `revision` state machine;
  - `duplicate`.
- **Dsc** (`autobuild/tmstatic.py` `update_dsc`, `autobuild/__main__.py` checksum fields): the line-by-line `.dsc` rewriter, driven by the section state, and the extraction of checksum and size fields from tool output.
- **Obs** (`autobuild/openbuildservice.py`):
  - `is_building`;
  - the five `"  "`→`" "` passes of `download_binaries`;
  - its directory names;
  - the commands it issues per line. A failure in one line is caught and does not affect the others.
- **Patch** (`autobuild/__main__.py`):
  - `create_patch`: the path exclusions, the alphanumeric normalisation, the Android/Qt relevance test and the change counter;
  - the `tmrepo` placeholder substitution.
- **Text**: the Python `str` operations the scripts use, with Python's edge cases:
  - `find` returns -1 when absent;
  - a slice clamps its bounds and counts negative stops from the end;
  - `replace` is leftmost and non-overlapping.

Everything outside the program's own logic is an oracle, passed in as a parameter. That covers:

- the text a command prints: `svn up`, `osc`, `qm`/`pct status`, `sha1sum`, `stat`, `diff`;
- successive ping answers;
- the chunks the channel delivers;
- the directory walk and file contents of `create_patch`;
- which stage of a job raises.

The commands the code would run are recorded as strings.

## Behaviour of the code worth knowing

- **Stop test.** The read loop tests for the sentinel in each normalised chunk, not in the assembled stream. A sentinel split over two chunks is missed (`Shell.SplitSentinelMissed`). Conversely, a chunk that ends inside the echoed sentinel command, before its closing quote, escapes the rewrite to `---END---` and stops the read early, possibly before the output of the command has arrived (`Shell.EchoCutStops`).
- **Returned text.** The returned text is every complete line of the read joined with `"\n"`. The sentinel line and the rewritten echo `---END---` are not removed from it. `launch_ssh_commands` joins the per-command outputs with `"\n"`.
- **Raising stage.** A stage that raises is not caught inside the worker. `_thread_main` has no handler, so the exception ends the worker thread rather than only the current job. `Target.Worker.Step` marks the worker dead. `_thread_main` pops the head before running it and `wait()` only tests the queue's length, so a raise in the last queued job still lets `wait()` return, with the worker dead. A raise in any earlier job leaves jobs queued that never run, and `wait()` then never returns, so `Target.Worker.Wait` requires that no job but the last raises.
- **IndexError in highestVersion.** `highestVersion` raises an `IndexError` when version 1 is longer than the padded version 2 and agrees with it all along. The model returns `None` there, and `Versions.HighestRaises` states exactly when this happens. Because of that, `tmstatic.py`'s variant does not raise merely because version 1 is longer: it returns as soon as a component differs (`Versions.HighestEarly`).
- **`tmp` in `root_purged`.** `root_purged` removes every `tmp` in the path, not only the leading directory. A directory `tmp/atmp` purges to `a` (`Patch.RootPurgedInner`).

## Model

| member | source | states |
|---|---|---|
| Shell.DisplayLine | autobuild/ssh.py:54-63 | definition: a line ending in "\r" leaves the state as it is; an empty line is logged and sets the flag unless the flag is already set; any other line is logged and clears the flag |
| Shell.FeedChars | autobuild/ssh.py:65-72 | definition: the reference line assembly, one character at a time: a "\n" closes the carried line and appends it, any other character extends the carry |
| Shell.StripAnsi | autobuild/ssh.py:77 | definition: `ansi_escape.sub`, removing left to right each ESC followed by one of `@`..`Z`, `\`, `-`, `_`, or by `[`, parameter bytes, intermediate bytes and one final byte |
| Shell.NormalizeChunk | autobuild/ssh.py:89-93 | definition: CRLF becomes LF, escape sequences are removed, then the echoed sentinel command, when given, becomes ---END--- |
| Shell.StopCount | autobuild/ssh.py:79-97 | definition: the chunks a read consumes, up to and including the first whose normalised text contains the end marker, or all of them |
| Shell.CommandFrames | autobuild/ssh.py:129-130 | definition: the command with its backslashes doubled and CRLF, then the sentinel echo |
| Shell.Session.constructor | autobuild/ssh.py:11-19 | a new session has an empty line buffer, carry and log, the skip flag clear and no default shell |
| Shell.Session.SetDefaultShell | autobuild/ssh.py:51-52 | the default shell becomes the given one |
| Shell.Session.DisplayChannelText | autobuild/ssh.py:54-63 | a line ending in "\r" is never logged and leaves the flag; an empty line is logged only when the flag is clear, and sets it; any other line is logged and clears it. The flag stays equal to "the last logged line is empty" and no two logged lines in a row are both empty |
| Shell.DisplayEmptyRun | autobuild/ssh.py:57-60 | in a run of empty lines only the first is logged, none when the last logged line was already empty, and the flag is set afterwards |
| Shell.DisplayLinesValid | autobuild/ssh.py:54-63 | displaying any run of lines keeps the flag in step with the log and never logs two empty lines in a row |
| Shell.DisplayLinesVisible | autobuild/ssh.py:54-63 | the log only grows, and its new non-empty lines are exactly the displayed lines that are non-empty and do not end in "\r", in order |
| Shell.DisplayLinesAppend | autobuild/ssh.py:69-71 | displaying two runs of lines one after the other is displaying their concatenation |
| Shell.Session.ProcessChannelText | autobuild/ssh.py:65-72 | the buffer becomes the character-by-character assembly of the chunk onto the old buffer; `current_line` holds no newline; `lines` is only appended to; the display sees exactly the appended lines |
| Shell.Session.AppendLines | autobuild/ssh.py:69-71 | the complete pieces are appended to `lines` in order and each is displayed |
| Shell.FeedCharsSplit | autobuild/ssh.py:66-72 | the split-based assembly (all pieces but the last appended, the last kept as the carry) equals the character-by-character assembly |
| Shell.FeedCharsText | autobuild/ssh.py:65-72 | the old carry followed by the chunk equals the newly appended lines, each followed by "\n", followed by the new carry; the new carry has no newline; the old lines are a prefix of the new ones |
| Shell.FeedCharsNoNewline | autobuild/ssh.py:66-67 | a chunk without newline appends no line and only extends the carry |
| Shell.FeedCharsAppend | autobuild/ssh.py:65-72 | feeding two chunks one after the other gives the same lines and carry as feeding their concatenation: how the text is cut does not matter |
| Shell.FeedCharsLines | autobuild/ssh.py:75-76 | from an empty buffer, the lines and the carry joined with "\n" give back the text, and none of them holds a newline |
| Shell.ReadBufferLines | autobuild/ssh.py:75-100 | the lines a read collects and its carry, joined with "\n", are the normalised text of the consumed chunks, and none holds a newline |
| Shell.Session.ReadChannelUntil | autobuild/ssh.py:74-101 | the buffer is reset; chunks are consumed up to and including the first whose normalised text contains `end`, or all of them; the buffer is the assembly of their normalised text; the result is the complete lines joined with "\n"; the trailing partial line is displayed but not returned |
| Shell.Session.ReadLoop | autobuild/ssh.py:79-97 | the loop consumes exactly the stop count of chunks and leaves the buffer and log as the assembly and display of their normalised text |
| Shell.Session.ReadStep | autobuild/ssh.py:87-97 | one chunk is normalised, assembled and displayed; the loop stops after it exactly when its normalised text contains `end` |
| Shell.StopCountStops | autobuild/ssh.py:95-97 | no chunk before the last consumed one contains `end`; when chunks remain, the last consumed one does; with no `end` every chunk is consumed |
| Shell.NormalizeAllStep | autobuild/ssh.py:88-93 | the normalised text of one more chunk is the old text followed by that chunk normalised on its own |
| Shell.NormalizeLine | autobuild/ssh.py:89-93 | a line without "\r" or ESC that ends in CRLF normalises to the line with LF and the echoed sentinel command rewritten |
| Shell.NormalizeShortens | autobuild/ssh.py:89-93 | normalisation never lengthens a chunk |
| Shell.EchoDoesNotStop | autobuild/ssh.py:92-97 | the echoed sentinel command normalises to `---END---` and does not stop the read |
| Shell.SentinelStops | autobuild/ssh.py:95-97 | the sentinel line printed by the echo stops the read |
| Shell.ShortChunkDoesNotStop | autobuild/ssh.py:95-97 | a chunk shorter than the sentinel never stops the read |
| Shell.EchoCutStops | autobuild/ssh.py:92-97 | a chunk holding the echoed sentinel command cut before its closing quote is left unrewritten and stops the read |
| Shell.SplitSentinelMissed | autobuild/ssh.py:95-97 | a sentinel split over two chunks is not recognised and the read runs on through later chunks |
| Shell.StripAnsiNoEsc | autobuild/ssh.py:77 | text without ESC is unchanged by escape removal |
| Shell.StripAnsiSkipsPrefix | autobuild/ssh.py:77 | text before the first ESC is kept as it is |
| Shell.StripAnsiFe | autobuild/ssh.py:77 | a two-character escape ESC followed by 0x40-0x5A or 0x5C-0x5F is removed |
| Shell.StripAnsiCsi | autobuild/ssh.py:77 | a control sequence ESC '[' with parameter bytes 0x30-0x3F, intermediate bytes 0x20-0x2F and a final byte 0x40-0x7E (section 5.4 of ECMA-48) is removed |
| Shell.StripAnsiShortens | autobuild/ssh.py:90 | removing escape sequences never lengthens the text |
| Shell.Session.Receive | autobuild/ssh.py:87 | a read receives the next batch of chunks, and that batch leaves the inbox |
| Shell.Session.ReadNext | autobuild/ssh.py:74-101 | one read_channel_until over the next batch: its result is that batch's read result, and the inbox moves on by one |
| Shell.Session.Connect | autobuild/ssh.py:104-126 | a connection is opened; the sentinel echo is sent and, with a default shell, the escaped shell and a second echo; the banner drain and one read per echo consume their batches |
| Shell.Session.SyncEcho | autobuild/ssh.py:119-120 | the sentinel echo is sent and the next batch is read up to the sentinel |
| Shell.Session.LaunchDefaultShell | autobuild/ssh.py:122-126 | the default shell with doubled backslashes and "\n", then the sentinel echo, are sent, and one batch is read |
| Shell.Session.RunCommand | autobuild/ssh.py:128-134 | the command with doubled backslashes and CRLF, then the sentinel echo with CRLF, are sent; the result is the read of the next batch |
| Shell.Session.LaunchSshCommand | autobuild/ssh.py:103-134 | with a reset, a connect and its startup frames and reads come first; then the command frames; the result is the read of the batch after the startup reads |
| Shell.Session.LaunchSshCommands | autobuild/ssh.py:138-139 | exactly one connection, for the first command only; everything sent is the startup frames followed by each command's frames in order; the result is the per-command outputs joined with "\n" |
| Shell.Session.LaunchFirst | autobuild/ssh.py:139 | the first command resets the connection and yields the first output |
| Shell.Session.LaunchNext | autobuild/ssh.py:139 | each later command reuses the connection and appends its output in order |
| Text.UnescapeEscape | autobuild/ssh.py:129 | doubling the backslashes of a command can be undone, so different commands are framed differently |
| Text.EscapeLength | autobuild/ssh.py:129 | doubling adds exactly one character per backslash |
| Text.JoinSplit | autobuild/ssh.py:68-72 | joining the pieces of a split with the separator gives back the text |
| Text.SplitJoin | autobuild/ssh.py:100 | splitting a join of separator-free pieces gives back the pieces |
| Lease.VmId | autobuild/machine.py:29 | definition: the last field of the address split at "." |
| Lease.UseCommands | autobuild/machine.py:32-43 | definition: the qm and pct status queries, then, unless the status says "running", the qm and pct starts, each run as root on 127.0.0.1 |
| Lease.ReleaseCommands | autobuild/machine.py:56-63 | definition: the qm and pct shutdowns when to_release is set, and nothing otherwise |
| Lease.Machine.Plain | autobuild/machine.py:8-10 | a plain machine starts free, with nothing issued |
| Lease.Machine.LocalProxmox | autobuild/machine.py:21-22 | the Proxmox machine is named "local_proxmox" and starts free |
| Lease.Machine.PollUntil | autobuild/machine.py:46-48 | the probes stop at the first answer that equals the wanted one, and one ping is issued per probe |
| Lease.Machine.Use | autobuild/machine.py:24-52 | the lock is taken; a plain machine does nothing else; the Proxmox machine issues both status queries for the VM id, and, unless the combined status says "running", both start commands and `to_release` set; it then pings until the first success |
| Lease.Machine.Release | autobuild/machine.py:54-68 | the lock is freed last; the Proxmox machine issues both shutdowns and pings until the first failure exactly when `to_release` is set, and otherwise issues nothing |
| Lease.MachineLock.constructor | autobuild/machine.py:72-74 | the lock remembers its machine and address |
| Lease.MachineLock.Enter | autobuild/machine.py:76-78 | entering uses the machine, with the same effects as `use` |
| Lease.MachineLock.Exit | autobuild/machine.py:80-82 | exiting releases the machine, whether or not the body raised, and never suppresses the exception |
| Lease.VmIdIsLastField | autobuild/machine.py:28-29 | the VM id holds no "." and ends the address; when the address has a ".", the id follows the last one; an address without "." is its own id |
| Lease.VmIdOf | autobuild/machine.py:29 | the id of "prefix.id" is id |
| Lease.StartIffShutdown | autobuild/machine.py:34-63 | start commands are issued exactly when release will issue the shutdowns; a running VM gets only the two status queries |
| Target.StagesRun | autobuild/texmacsmachine.py:104-126 | definition: the stages of the job in the order _build or _test calls them, cut after the one that raises |
| Target.JobTrace | autobuild/texmacsmachine.py:104-126 | definition: the lease acquired, the stages started, and the lease released, on every exit path of the with block |
| Target.Worker.constructor | autobuild/texmacsmachine.py:16-38 | a new worker has an empty queue, the run flag set and an empty trace |
| Target.Worker.Build | autobuild/texmacsmachine.py:128-129 | exactly one build job is appended at the tail and the earlier jobs are unchanged |
| Target.Worker.Test | autobuild/texmacsmachine.py:131-132 | exactly one test job is appended at the tail and the earlier jobs are unchanged |
| Target.Worker.Join | autobuild/texmacsmachine.py:48-50 | the run flag is cleared, after which a step pops nothing |
| Target.Worker.RunStage | autobuild/texmacsmachine.py:108-117 | a stage start is recorded, and it raises exactly when the oracle says so |
| Target.Worker.RunBuild | autobuild/texmacsmachine.py:104-119 | the lease is taken, the four stages start in order up to the one that raises, and the lease is released on every path; the machine ends free |
| Target.Worker.RunBuildStages | autobuild/texmacsmachine.py:107-119 | the body of the `with` block: the stages run in order and stop after the one that raises |
| Target.Worker.RunTest | autobuild/texmacsmachine.py:121-126 | the test stage runs under its own acquisition and release of the lease |
| Target.Worker.Step | autobuild/texmacsmachine.py:40-46 | with the run flag set and a non-empty queue, the head is removed, its job trace is appended, the machine's issued commands grow by exactly that job's lease commands and `to_release` is decided by the status, and a raising job ends the worker; otherwise the queue, trace, liveness, issued commands and `to_release` all stay as they were |
| Target.Worker.Wait | autobuild/texmacsmachine.py:40-54 | when it returns, the queue is empty, the trace is the traces of the queued jobs in their order, and the worker is alive unless it was dead already or the last queued job raised; an empty queue returns at once |
| Target.Worker.WaitStep | autobuild/texmacsmachine.py:41-44 | one pass runs the head job of the waiting queue and shortens the queue |
| Target.BuildStagesInOrder | autobuild/texmacsmachine.py:104-119 | a build that does not raise starts all four stages in order; one that raises starts the stages up to and including the raising one; either way a prefix of the four |
| Target.BuildRan | autobuild/texmacsmachine.py:108-117 | the stage starts of a build, case by case on which stage raises |
| Target.JobHeld | autobuild/texmacsmachine.py:104-126 | one job takes the lease once and gives it back once, and its trace is exclusive |
| Target.LeaseExclusive | autobuild/texmacsmachine.py:106-119 | stage starts between one acquisition and its release form an exclusive trace ending with no lease held |
| Target.ExclusiveAppend | autobuild/texmacsmachine.py:41-44 | an exclusive trace ending with no lease, followed by an exclusive trace, is exclusive |
| Target.JobsTraceAppend | autobuild/texmacsmachine.py:41-44 | running two runs of jobs one after the other concatenates their traces |
| Target.JobsExclusive | autobuild/texmacsmachine.py:40-46 | whatever the jobs meet, a run of jobs never holds two leases at once, starts stages only under a lease, and ends holding none |
| Target.SystemCommand | autobuild/texmacsmachine.py:77-82 | the command `system` hands to launch_command has every backslash doubled: halving them gives back the command, and it is longer by the number of backslashes |
| Svn.UpState | autobuild/svn.py:28-40 | definition: with a reported revision that differs, it becomes the revision and the flag is whether one was known; otherwise the revision stays and the flag is cleared |
| Svn.Revision | autobuild/svn.py:28-31 | a revision is found exactly when the output contains "At revision" |
| Svn.Repository.constructor | autobuild/svn.py:8-13 | a new working copy has seen no revision and is not updated |
| Svn.Repository.Up | autobuild/svn.py:23-40 | revision and flag take the values the output determines; without "At revision" the flag is cleared and the revision kept |
| Svn.Repository.Duplicate | autobuild/svn.py:51-56 | the copy has the same url, the new dst, the copied updated flag and no revision |
| Svn.UpdatedIff | autobuild/svn.py:32-38 | the flag is raised exactly when a revision was known and the output reports a different one; the revision changes only to the reported one |
| Svn.FirstObservationNoUpdate | autobuild/svn.py:35 | the first revision ever seen is never an update and is recorded |
| Svn.UpAgainNoUpdate | autobuild/svn.py:32-38 | the same output seen twice: the second update reports no change and keeps the revision |
| Svn.RevisionOf | autobuild/svn.py:29-31 | "…At revision N.…" reports N when nothing before the phrase starts with "A" and N holds no "." |
| Versions.Compare | autobuild/texmacsrepo.py:48-54 | definition: the comparison of component i onward over the length of version 1: the first larger or smaller component decides, a tie gives version 1, and running past version 2 is the IndexError |
| Versions.Highest | autobuild/texmacsrepo.py:26-54 | definition: an unparsable version 1 gives version 2, then an unparsable version 2 gives version 1, else the comparison with the padding zeros added to version 2 |
| Versions.Fold | autobuild/texmacsrepo.py:68-70 | definition: highestVersion applied to the running version and each candidate in order, ending at the first IndexError |
| Versions.FindAll | autobuild/texmacsrepo.py:66-67 | definition: the leftmost-first matches of the change-log pattern, the scan resuming after each match |
| Versions.TagCandidates | autobuild/tmstatic.py:197-201 | definition: the candidate of each line holding the tag, in the order of the lines |
| Versions.Components | autobuild/texmacsrepo.py:31-32 | a parsed version has one component per dotted field |
| Versions.HighestVersion | autobuild/texmacsrepo.py:26-54 | the method computes highestVersion: parse both, pad, compare over version 1's length, with an IndexError as None |
| Versions.HighestIsArgument | autobuild/texmacsrepo.py:26-54 | the result is always one of the two arguments |
| Versions.HighestUnparsable | autobuild/texmacsrepo.py:30-40 | an unparsable version 1 yields version 2; otherwise an unparsable version 2 yields version 1; `highestVersion("", v)` is v |
| Versions.CompareDefined | autobuild/texmacsrepo.py:48-52 | the comparison never runs out of version 2 when version 1 is not longer |
| Versions.CompareNone | autobuild/texmacsrepo.py:42-49 | the comparison runs past version 2 exactly when version 1 is longer and agrees with it along the way |
| Versions.HighestRaises | autobuild/texmacsrepo.py:42-49 | highestVersion raises exactly when version 1 is longer than the padded version 2 and agrees with it all along |
| Versions.HighestDefined | autobuild/texmacsrepo.py:42-49 | with version 1 no longer than the padded version 2 there is always a result |
| Versions.CompareLex | autobuild/texmacsrepo.py:48-52 | the comparison loop is the lexicographic order over version 1's length, the first differing component deciding |
| Versions.HighestLex | autobuild/texmacsrepo.py:42-54 | the result is version 2 exactly when version 1 is lexicographically below the padded version 2 |
| Versions.HighestSelf | autobuild/texmacsrepo.py:48-54 | a version compared with itself is a tie and yields itself |
| Versions.HighestTie | autobuild/texmacsrepo.py:48-54 | a tie over version 1's length yields version 1: ("2.1", "2.1.5") gives "2.1", padded or not |
| Versions.HighestIndexError | autobuild/texmacsrepo.py:42-49 | ("1.0.0.0", "1") raises even with the two padding zeros |
| Versions.HighestStaticIndexError | autobuild/tmstatic.py:177-182 | without padding, ("1.0", "1") raises |
| Versions.HighestEarly | autobuild/tmstatic.py:177-184 | without padding, ("2.0", "1") does not raise and yields "2.0", because the first component decides |
| Versions.ComponentsJoin | autobuild/texmacsrepo.py:31-32 | numbers joined with "." parse back into their values |
| Versions.DigitRun | autobuild/texmacsrepo.py:66 | the run is a maximal run of digits |
| Versions.MatchAt | autobuild/texmacsrepo.py:66 | a match ends after its closing parenthesis, inside the text |
| Versions.VersionAt | autobuild/texmacsrepo.py:66 | the version group ends just before a ")" |
| Versions.TailAt | autobuild/texmacsrepo.py:66 | the tail of the version group ends just before a ")" |
| Versions.TailShape | autobuild/texmacsrepo.py:66 | the tail is one run of digits, or two runs separated by "." |
| Versions.VersionShape | autobuild/texmacsrepo.py:66 | every version group has two or three numeric components |
| Versions.MatchShape | autobuild/texmacsrepo.py:66 | every match has two or three numeric components |
| Versions.FindAllShape | autobuild/texmacsrepo.py:66-67 | every version `findall` yields has two or three numeric components |
| Versions.ScanExample | autobuild/texmacsrepo.py:64-66 | "(2.1.2)" is scanned as 2.1.2 |
| Versions.ParseTexmacsVersion | autobuild/texmacsrepo.py:56-72 | the method folds highestVersion from "0.0.0" over the matches in order |
| Versions.FoldDefined | autobuild/texmacsrepo.py:68-70 | folding from a version of at most three components over the scanned matches never raises, and yields the start or a match |
| Versions.ChangeLogVersionFound | autobuild/texmacsrepo.py:66-72 | the change-log scan never raises; it yields "0.0.0" or one of the matches, and "0.0.0" when there is none |
| Versions.TexmacsRepo.constructor | autobuild/texmacsrepo.py:11-13 | a new working copy has the empty version |
| Versions.TexmacsRepo.Co | autobuild/texmacsrepo.py:18-20 | after checkout the version is the change-log version |
| Versions.TexmacsRepo.Up | autobuild/texmacsrepo.py:22-24 | after update the revision state moves as `svn up` says, and the version is the change-log version |
| Versions.TagCandidate | autobuild/tmstatic.py:198-201 | a line yields a candidate exactly when it contains the version tag |
| Versions.TagCandidateOf | autobuild/tmstatic.py:198-201 | a line holding the tag, then a version V free of ">", then ">" yields V |
| Versions.ParseTagVersion | autobuild/tmstatic.py:186-202 | the method folds highestVersion from the old version over the candidates of the lines in order |
| Versions.FoldIsCandidate | autobuild/tmstatic.py:196-202 | the fold yields the old version or one of the candidates |
| Versions.TagVersionFirst | autobuild/tmstatic.py:165-169 | with no previous version the first candidate is taken as it is |
| Dsc.Next | autobuild/tmstatic.py:133-144 | definition: a Checksums-Sha1, Checksums-Sha256 or Files header opens its section; any other line keeps the current one |
| Dsc.RewriteLine | autobuild/tmstatic.py:145-156 | definition: an indented non-header line naming the file, inside a section, becomes " checksum size file\n" with that section's checksum; every other line is copied |
| Dsc.Rewrite | autobuild/tmstatic.py:131-156 | definition: each line rewritten in the section the lines before it leave open, in order |
| Dsc.SumsOf | autobuild/tmstatic.py:118-125 | the checksums hold no space and the size holds no newline |
| Dsc.SumsOfOutputs | autobuild/__main__.py:138-145 | "SUM  name" gives SUM for each tool, and "1234\n" gives the size 1234 |
| Dsc.UpdateDsc | autobuild/tmstatic.py:131-156 | the loop writes the line-by-line rewrite of the file, driven by the section state from "none" |
| Dsc.UpdateLine | autobuild/tmstatic.py:133-156 | one pass gives the next section state and the line written |
| Dsc.RewriteLength | autobuild/tmstatic.py:131-156 | exactly one output line per input line |
| Dsc.RewriteAt | autobuild/tmstatic.py:132-156 | output line i is input line i rewritten in the section the earlier lines leave open |
| Dsc.UpdateLines | autobuild/tmstatic.py:133-156 | header lines are copied verbatim; a line changes only when it is an indented entry naming the file inside a section, and then it becomes " sum size file\n" with that section's checksum |
| Dsc.NoSectionBeforeHeader | autobuild/tmstatic.py:131-145 | before any header the state is "none", so nothing is rewritten |
| Dsc.EntryShape | autobuild/tmstatic.py:148-154 | a rewritten entry is indented, is no header, and ends with the file name and a newline |
| Dsc.EntryNamesFile | autobuild/tmstatic.py:148-154 | a rewritten entry names the file |
| Dsc.RewriteIdempotent | autobuild/tmstatic.py:145-156 | rewriting the output again with the same sums changes nothing |
| Obs.IsBuilding | autobuild/openbuildservice.py:85-87 | definition: the results contain "(building)", "(finished)" or "(dispatching)" |
| Obs.Collapse | autobuild/openbuildservice.py:64-65 | definition: five passes of replacing "  " by " " |
| Obs.DirName | autobuild/openbuildservice.py:66 | definition: the collapsed line with its spaces turned into "_", joined to the destination |
| Obs.LineCommands | autobuild/openbuildservice.py:60-78 | definition: nothing for an "Invalid" line or a failing chdir; otherwise the getbinaries command, then, when the listing succeeds with fewer than three entries, the removal of the directory |
| Obs.IsBuildingOf | autobuild/openbuildservice.py:85-87 | results containing "(building)", "(finished)" or "(dispatching)" anywhere are building |
| Obs.NotBuilding | autobuild/openbuildservice.py:85-87 | results without "(" are not building |
| Obs.DownloadBinaries | autobuild/openbuildservice.py:56-78 | the commands issued are each line's commands, in order |
| Obs.DownloadLine | autobuild/openbuildservice.py:60-78 | a line naming "Invalid" issues nothing; otherwise the collapsed line is fetched into its directory, which is removed when it lists fewer than three entries; a failure issues nothing more |
| Obs.InvalidSkipped | autobuild/openbuildservice.py:61-62 | a line containing "Invalid" issues no command |
| Obs.DownloadAppend | autobuild/openbuildservice.py:63-78 | the commands for two runs of lines are the commands of each, so a failing line does not affect the others |
| Obs.CollapseIsFivePasses | autobuild/openbuildservice.py:64-65 | the loop applies exactly five passes |
| Obs.CollapseShortens | autobuild/openbuildservice.py:64-65 | collapsing never lengthens the line |
| Obs.PassKeepsWords | autobuild/openbuildservice.py:65 | a pass leaves the non-space characters as they are, in order |
| Obs.CollapseKeepsWords | autobuild/openbuildservice.py:64-65 | collapsing leaves the non-space characters as they are, in order |
| Obs.PassRun | autobuild/openbuildservice.py:65 | a pass halves a run of spaces, rounding up |
| Obs.CollapseRun | autobuild/openbuildservice.py:64-65 | five passes collapse any run of 1 to 32 spaces to one space |
| Obs.CollapseRunTight | autobuild/openbuildservice.py:64-65 | 33 spaces are too many: two remain |
| Obs.CollapseWord | autobuild/openbuildservice.py:64-65 | space-free text passes through unchanged |
| Obs.DirComponentNoSpace | autobuild/openbuildservice.py:66 | the directory component holds no space |
| Obs.TwoFields | autobuild/openbuildservice.py:64-66 | two fields separated by up to 32 spaces collapse to "w1 w2" and give the directory "w1_w2" |
| Patch.TmRepo | autobuild/__main__.py:18 | definition: every placeholder "*username*" is replaced by the user name |
| Patch.RootPurged | autobuild/__main__.py:298-300 | definition: every "tmp" removed from the walked directory, then one leading "/" |
| Patch.Skipped | autobuild/__main__.py:306-317 | definition: the path exclusions: hidden directories and files, "~" backups, configure, ".log" files, ice-9, and the TeXmacs tree outside TeXmacs/progs |
| Patch.Normalize | autobuild/__main__.py:320 | definition: the lower-cased alphanumeric characters of the text, in order |
| Patch.Relevant | autobuild/__main__.py:321-323 | definition: the name mentions Android, Java, JNI or Qt in one of the listed spellings, or the normalised remote content contains both "android" and "qt" |
| Patch.Copies | autobuild/__main__.py:306-352 | definition: a file not excluded is copied when it is new and relevant, or when it exists, differs after normalisation, is relevant and has a non-empty diff |
| Patch.CreatePatch | autobuild/__main__.py:285-357 | the paths copied are, in walk order, those of the files passing every test, and the counter is their number |
| Patch.Visit | autobuild/__main__.py:301-352 | one file adds its patched path and one change exactly when it passes the tests |
| Patch.Consider | autobuild/__main__.py:298-340 | the tests of one file, in the source's order, decide exactly the copy predicate |
| Patch.CopiesIff | autobuild/__main__.py:306-352 | a file is copied exactly when its path is not excluded, it is relevant and, if a local copy exists, the normalised contents differ and diff prints something; a relevant new file needs no diff |
| Patch.PickLength | autobuild/__main__.py:318-352 | a file adds one path when it is copied and none otherwise |
| Patch.CopiedBound | autobuild/__main__.py:297-352 | the counter never exceeds the number of files walked |
| Patch.CopiedNone | autobuild/__main__.py:286-357 | when no file passes, the patch is empty and the counter zero |
| Patch.CopiedAppend | autobuild/__main__.py:297-352 | the patch of a walk is the patch of its parts, in order |
| Patch.NormalizeChars | autobuild/__main__.py:333-334 | normalised text holds only lower-case letters and digits, and is no longer than the text |
| Patch.NormalizeIdempotent | autobuild/__main__.py:333-334 | normalising twice is normalising once |
| Patch.NormalizeAppend | autobuild/__main__.py:333-334 | normalisation works character by character |
| Patch.NormalizeIgnores | autobuild/__main__.py:333-334 | inserting a non-alphanumeric character does not change the normalised text |
| Patch.NormalizeCase | autobuild/__main__.py:333-334 | an upper-case letter normalises like its lower-case one |
| Patch.RootPurgedTop | autobuild/__main__.py:298-300 | the walk's top directory purges to "" and "tmp/rest" to rest, when rest holds no "tmp" |
| Patch.RootPurgedInner | autobuild/__main__.py:298 | every "tmp" goes: "tmp/atmp" purges to "a" |
| Patch.TmRepoPlaceholder | autobuild/__main__.py:18 | the placeholder is replaced by the user name |
| Patch.TmRepoPlain | autobuild/__main__.py:18 | a path without the placeholder is kept |

## Left out

- I/O is not modelled: paramiko's connect and its retry with relaxed algorithms, `invoke_shell`, `recv`, UTF-8 and latin-1 decoding, and clocks. The read loop runs over a given batch of chunks, and a batch running out stands for the timeout.
- Processes, files and the directory walk are oracles or parameters:
  - processes: `launch_command`, `os.system`, ssh, rsync, svn, osc, qm/pct, ping, the checksum tools, diff;
  - files: reading and writing them;
  - directories: `os.walk`, `listdir`, `abspath`.
- Threads and locks are not modelled. The worker thread is modelled by explicit steps, and `wait()` by running the queued jobs. A lock is a held flag, and using a held machine is a precondition rather than blocking, so exclusion between threads is not captured.
- Shell.Session.ReadChannelUntil: the deadlines of `timeout` are not modelled. A read ends when its batch of chunks runs out.
- `splitlines` in `download_binaries` is taken as given: the lines are a parameter.
- The model does not build the `rsync` and `cp` commands `create_patch` issues, nor the directory copy into `tmp`. It records the patched paths, in order.
- A `diff` that raises is modelled as an empty diff, which is what the code then compares.
- Lease.Machine.PollUntil requires that the wanted answer eventually comes: the source polls forever otherwise.
- Lease.Machine.Use and Lease.Machine.Release take the two status outputs and the ping answers as oracles.
- Target.Worker.Wait requires that no queued job but the last raises, and that every lease returns. When an earlier job raises, the source's worker thread dies with jobs still queued and `wait()` never returns. With jobs queued it also requires a running worker, for the same reason.
- Target.Worker.Step runs a whole job. The interleaving in which `wait()` returns while the last popped job is still running is not modelled.
- The abstract stage methods (`duplicate_and_copy_patch`, `copy_src_to_remote`, …) are modelled by name, with an oracle saying which one raises. The per-target command lists are configuration and are not modelled.
- Versions.Components accepts decimal digit strings only. Python's `int()` also accepts signs, surrounding blanks and underscores.
- Patch.Normalize: `isalnum` and `lower` are taken on ASCII only.
- `__str__`, `make_tgz`, `co` of the plain SVN and OBS clients, `commit`, `add` and the logging setup only run commands or format text, so they are not modelled.
- The polling `main()` loops of `tmstatic.py` and `__main__.py` are not modelled.
