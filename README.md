# A verified model of the thus installation process

`thus/installation/process.py` is the back end of the thus installer. It runs
as a separate process and reports to the front end through a bounded event
queue. It mounts the live images and copies them onto the target with rsync,
mounts the target partitions and the chroot special directories, writes
`/etc/fstab` and `/etc/crypttab`, patches configuration files of the new
system, and unmounts everything at the end. This project models the parts of
that file that are logic rather than plumbing and proves what they do.

The external world becomes explicit inputs:

- An external command is its argument vector. The oracle `fails` says which
  commands exit with a non-zero status, so that `subprocess.check_call`
  raises `CalledProcessError`.
- Whether a file exists is a predicate (`present`, `isMounted`).
- The contents of `/proc/mounts`, of the configuration files and of rsync's
  output are sequences of lines.
- The partition UUID lookup (`fs.get_info(...)['UUID']`) is a function.

The modules follow the program's structure:

- `Strings`: the Python string operations the code relies on (`in`,
  `startswith`, `split`, `rstrip`, `'%d' %`, `os.path.join`).
- `Events`: the event datatype, and the bounded channel with a non-blocking
  `put_nowait` (the `multiprocessing.Queue`). `Delivered` says which events of
  a batch a channel takes. `wait_for_empty_queue` is a bounded polling loop.
- `Fstab`, `FstabLemmas`: `auto_fstab`. A method with the source's loop and
  `continue`s is proved equal to a specification function. The lemmas give
  the option table, the pass field, the swap and LUKS cases, the `btrfs` and
  `ruuid` settings, and the layout of the file.
- `CopyProgress`: the `xfr#N, ir-chk=R/T` regular expression as a leftmost
  match, and the copy thread's loop over rsync's lines as a function `RunOf`.
- `Actions`: the command lists and event lists of the mount, unmount and
  teardown code, as values, with the lemmas saying which paths are mounted
  and unmounted, and in which order.
- `Selectors`: `find_desktop_environment`, the display-manager detection,
  `check_source_folder`, and the group list of the new user.
- `TextPatch`: the per-line rewrites of `locale.gen`, of the display
  managers' autologin configuration and of `keyboard.conf`.
- `Extraction`: `install_system` as a value: the commands it runs, the events
  it queues, and whether it ends the process.
- `Installer`: the class `InstallationProcess` with its status flags (`running`,
  `error`, `special_dirs_mounted`). It records every command run
  (`trace`) and every event queued (`log`). Its methods are proved against
  the functions of `Actions` and `Extraction`. The class `FileCopyThread` is
  the copy thread, whose `offset` carries the progress from one image to the
  next.

Where the code does something other than it appears to, or the model departs
from the code as written, the list below says how:

- `run_installation` calls `chroot_run_umount_special_dirs`, a name that is
  bound nowhere; `run` names `pyalpm`, which is not imported. As written, the
  teardown raises `NameError` at that call (process.py:485), outside every
  `try`, before unmounting anything, queuing `finished` or changing `running`
  and `error`. That error escapes `run`: `except subprocess.CalledProcessError`
  does not match it, and evaluating the next handler's tuple raises a second
  `NameError` on `pyalpm`, so no fatal event is queued. `Teardown`,
  `UnmountEverything` and `FinishInstallation` model the teardown that the name
  evidently means, a call of `chroot_umount_special_dirs`. The `pyalpm.error`
  handler is left out.
- `self.dest_dir` is set to `""` in the constructor and never changes. The
  teardown unmounts `"" + path` for the partitions and `""` for the target.
  It reports the target's failure with the loop variable `p` left over from
  the live-media loop. And `install_system` begins with `os.mkdir("")`, as
  `""` never exists; that call always raises `FileNotFoundError`, which the
  handler turns into a fatal event, so `install_system` as written never gets
  past its first lines. The model keeps all four: `InstallSystemRun` ends
  fatally with `MkdirEmptyError` for the empty target, and describes the rest
  of the run for any other target.
- `os.path.join(DEST_DIR, path)` with an absolute `path` (every
  `mount_devices` key but `""` and `swap`) gives `path` itself, not a
  directory under `/install`. `PathJoin` models POSIX `os.path.join`, so the
  advanced-mode mounts go to `/home`, not `/install/home`.
- The broad `except Exception` of `run_installation` sets `all_ok = True`: any
  unexpected exception counts as success and the teardown runs
  (`FinishInstallation`).
- `queue_fatal_event` ends the process with `os._exit(0)`. The model sets the
  flag `exited`, and nothing runs after it.
- The live media mount points are the set `{"source", "source_desktop"}`, whose
  iteration order Python leaves open. It is the parameter `desktopFirst`.
- `mount_point is not "/"` is an identity test of strings. It is modelled as
  inequality.

## Model

| member | source | states |
|---|---|---|
| Events.EventChannel.PutNowait | thus/installation/process.py:240-247 | the event is appended exactly when the queue is not full; a full queue is left as it was (`queue.Full`) |
| Events.DeliveredPrefix | thus/installation/process.py:240-247 | a batch of events reaches the channel in order: the first ones that fit are appended and every later one is dropped |
| Events.DeliveredAppend | thus/installation/process.py:240-247 | delivering two batches one after the other delivers their concatenation |
| Events.Room | thus/installation/process.py:240-247 | no more events are taken than offered |
| Events.PollLimit | thus/installation/process.py:249-256 | the loop polls at least once and never fewer times than the timeout, and exactly the timeout when it is at least 1 |
| Events.WaitForEmptyQueue | thus/installation/process.py:249-256 | without a queue it does not poll; with one it stops at the first empty check or after `PollLimit(timeout)` polls, and every earlier check found the queue non-empty |
| Installer.InstallationProcess.constructor | thus/installation/process.py:184-229 | the process starts running, without error and with no special directories mounted, and queues the `Installing using the '<mode>' method` event |
| Installer.InstallationProcess.QueueEvent | thus/installation/process.py:240-247 | the event is logged, and the channel takes it exactly when it is not full |
| Installer.InstallationProcess.QueueFatalEvent | thus/installation/process.py:231-238 | afterwards neither `IsRunning` nor `IsOk` holds, the error is queued and the process has exited |
| Installer.InstallationProcess.IsRunning | thus/installation/process.py:724-726 | the flag `running`; proved false after `QueueFatalEvent` and after `FinishInstallation` |
| Installer.InstallationProcess.IsOk | thus/installation/process.py:728-730 | the negation of the flag `error`; proved false after a fatal event and true after a successful teardown |
| Installer.InstallationProcess.CheckCall | thus/installation/process.py:649 | runs the command; the result is false exactly when the command fails |
| Installer.InstallationProcess.RunChecked | thus/installation/process.py:365-378 | runs the commands in order up to and including the first failing one; the result says whether all succeeded |
| Actions.UntilFailure | thus/installation/process.py:648-665 | the commands run are a prefix of the list: all of it when all succeed, otherwise up to the first failure, which is the last one run |
| Actions.UntilFailureAt | thus/installation/process.py:648-665 | a run whose i-th command is the first to fail stops right after it |
| Actions.SpecialUmountOrder | thus/installation/process.py:676-679 | the directories unmounted, `dev/pts` first and `sys/firmware/efi` only with EFI; `SpecialUmountsAll` and `SpecialUmountChildFirst` prove it covers every mount and unmounts a child before its parent |
| Actions.SpecialMounts | thus/installation/process.py:648-665 | the commands of the special mounts, `sys`, `proc`, `dev`, `dev/pts` and the EFI bind mount under the target; `SpecialMountPoints` proves which paths they mount |
| Installer.InstallationProcess.ChrootMountSpecialDirs | thus/installation/process.py:635-667 | already mounted: only the debug event and nothing run; otherwise the special mounts until the first failure, and the flag is set exactly when all succeeded |
| Installer.InstallationProcess.MountSpecialDirs | thus/installation/process.py:641-667 | runs the special mounts until the first failure and sets the flag exactly when all succeeded |
| Actions.SpecialMountPoints | thus/installation/process.py:641-665 | the special mounts mount exactly `sys`, `proc`, `dev`, `dev/pts` and, with EFI, `sys/firmware/efi` under the target, in that order |
| Actions.MountThenChmod | thus/installation/process.py:641-661 | a mount followed by its `chmod 555` contributes exactly the one mount point |
| Actions.BasicMountPoints | thus/installation/process.py:641-661 | the mount points of the four basic mounts, in order |
| Actions.MountPointsAppend | thus/installation/process.py:641-665 | the mount points of two command lists concatenate |
| Actions.Under | thus/installation/process.py:642-682 | one path per special directory |
| Actions.UnderSnoc | thus/installation/process.py:642-682 | one more directory appends its path under the target |
| Actions.UnderFour | thus/installation/process.py:676-682 | each directory is joined to the target |
| Actions.UnderFive | thus/installation/process.py:676-682 | each directory is joined to the target, the EFI one included |
| Actions.NestedSpecial | thus/installation/process.py:642-679 | the only nestings among the special directories are `dev/pts` in `dev` and `sys/firmware/efi` in `sys` |
| Actions.NestedSpecialOnly | thus/installation/process.py:642-679 | a nesting between two special directories is `dev/pts` under `dev` or `sys/firmware/efi` under `sys` |
| Actions.SpecialUmountsAll | thus/installation/process.py:676-682 | the unmount list holds each mounted special directory exactly once |
| Actions.SpecialUmountChildFirst | thus/installation/process.py:676-682 | no special directory is unmounted before one that lies under it |
| Actions.SpecialMountParentFirst | thus/installation/process.py:642-665 | no special directory is mounted before one it lies under |
| Installer.InstallationProcess.UmountWithFallback | thus/installation/process.py:683-697 | `umount p`, then `umount -l p` exactly when the first fails; failed exactly when both fail |
| Actions.UmountEachSnoc | thus/installation/process.py:683-697 | unmounting one more path appends that path's attempts |
| Actions.UmountsAppend | thus/installation/process.py:683-697 | the plain and the lazy unmounts of two traces concatenate |
| Actions.LazyUmountTargets | thus/installation/process.py:683-697 | one path: a plain attempt, and a lazy one exactly when the plain one fails |
| Actions.UmountEachTargets | thus/installation/process.py:683-697 | every path gets a plain unmount in order, and exactly the paths whose plain unmount failed get a lazy one |
| Actions.UnableWarningsIff | thus/installation/process.py:683-697 | an `Unable to umount` warning names a path exactly when both of its attempts failed |
| Actions.PrefixCancel | thus/installation/process.py:692-697 | two messages with one prefix are equal exactly when their rests are |
| Installer.InstallationProcess.ChrootUmountSpecialDirs | thus/installation/process.py:669-699 | not mounted: only the debug event; otherwise each special directory in unmount order with the lazy fallback and its warning; the flag is clear afterwards either way |
| Installer.InstallationProcess.UmountAllWarning | thus/installation/process.py:681-697 | each path with the fallback, and a warning for each path both attempts failed on |
| Actions.RootAndBoot | thus/installation/process.py:365-378 | the first command mounts the root partition at `/install` |
| Installer.InstallationProcess.MountTargetPartitions | thus/installation/process.py:345-409 | automatic mode mounts nothing here; alongside and advanced modes need a `/` entry, mount root at `/install` and then `/boot` when given, and a failure of either ends the stage; advanced mode then mounts the other partitions |
| Installer.InstallationProcess.MountAdvanced | thus/installation/process.py:381-409 | one mount or `swapon` per `mount_devices` entry, in order; a failure is only a warning and the loop goes on |
| Actions.AdvancedCommandsSnoc | thus/installation/process.py:381-409 | one more entry appends that entry's command |
| Actions.AdvancedStep | thus/installation/process.py:381-409 | one partition of advanced mode: nothing for `""`, a mount for a partition other than root, boot and swap, `swapon` for the swap; `AdvancedMounts` and `AdvancedSwapon` prove what the whole loop runs |
| Actions.AdvancedMounts | thus/installation/process.py:381-400 | a partition is mounted at a directory exactly when a non-empty path maps to it, it is none of root, boot and swap, and the directory is that path joined to `/install` |
| Actions.AdvancedSwapon | thus/installation/process.py:401-409 | `swapon` runs only on the swap partition, and does when a non-empty path maps to it |
| Actions.Lookup | thus/installation/process.py:346-363 | a key is found exactly when an entry has it, and the value is that entry's |
| Actions.LookupEntry | thus/installation/process.py:346-363 | with distinct keys, an entry's key looks up that entry's value |
| Installer.InstallationProcess.UmountReported | thus/installation/process.py:491-501 | the debug `Unmounting` event, the unmount with fallback, and the failure report exactly when both attempts fail |
| Installer.InstallationProcess.UmountSourceDirs | thus/installation/process.py:484-501 | each live media mount point that is mounted is unmounted and reported, in set order, with failures as warnings |
| Actions.MountedOnlyIff | thus/installation/process.py:486-490 | a live media mount point is unmounted exactly when it is mounted |
| Actions.MountedOnlySnoc | thus/installation/process.py:486-490 | one more mount point is kept exactly when it is mounted |
| Actions.UmountListsSnoc | thus/installation/process.py:491-501 | one more path appends its events and its commands |
| Installer.InstallationProcess.UmountDeviceDirs | thus/installation/process.py:502-519 | each unmountable `mount_devices` path is unmounted with fallback and reported, failures as debug events |
| Actions.DeviceDirsSnoc | thus/installation/process.py:503-506 | one more entry is kept exactly when its path is neither `/`, `swap` nor empty |
| Actions.DeviceDirsIff | thus/installation/process.py:503-506 | every `mount_devices` path but `/`, `swap` and `""` is unmounted, and nothing else is |
| Installer.InstallationProcess.UmountTarget | thus/installation/process.py:520-533 | the target is unmounted, with fallback, exactly when it is mounted; its failure is reported with the live-media loop's last path |
| Installer.InstallationProcess.UnmountEverything | thus/installation/process.py:484-533 | the special directories, the live media, the partitions and the target, in that order, with all their events; the special-dirs flag is clear afterwards (the teardown as intended, with `chroot_umount_special_dirs` at :485) |
| Installer.InstallationProcess.UmountLiveMedia | thus/installation/process.py:484-501 | the chroot's special directories come down first, then every mounted live-media directory, with their events; the special-dirs flag is clear afterwards |
| Installer.InstallationProcess.UmountInstalled | thus/installation/process.py:502-533 | the `mount_devices` listing is logged, every partition under the target is unmounted, then the target itself, with their events |
| Installer.InstallationProcess.Teardown | thus/installation/process.py:484-538 | everything is unmounted, then `finished` is queued, the process is no longer running and has no error (the teardown as intended; as written :485 raises `NameError`) |
| Actions.TargetUnmountedLast | thus/installation/process.py:520-533 | when the target is mounted, nothing is unmounted after it |
| Actions.UnableWarningsNoOutcome | thus/installation/process.py:683-697 | unmount warnings are neither errors nor `finished` |
| Actions.UmountReportsNoOutcome | thus/installation/process.py:491-519 | unmount reports are neither errors nor `finished` |
| Actions.NoOutcomeAppend | thus/installation/process.py:484-538 | two runs of events without an outcome concatenate into one without an outcome |
| Actions.TeardownEndsFinished | thus/installation/process.py:484-538 | the teardown's last event is `finished`, and none before it is an error or `finished` |
| Actions.TeardownEvents | thus/installation/process.py:484-538 | the events of the teardown, the unmount reports then `finished`; `TeardownEndsFinished` and `NoOutcomeAppend` prove that only the last is an outcome |
| Installer.InstallationProcess.FinishInstallation | thus/installation/process.py:449-538 | `CalledProcessError` and `InstallError` are fatal with their texts and unmount nothing; any other exception counts as success like completion, and the teardown as intended runs |
| Selectors.ScanFromCases | thus/installation/process.py:540-548 | the scan raises exactly when a line has fewer than two fields, and finds nothing exactly when no line names the mount point |
| Selectors.ScanMountsCases | thus/installation/process.py:540-548 | the same for the whole of `/proc/mounts` |
| Selectors.CheckSourceFolder | thus/installation/process.py:540-548 | `IndexError` at the first short line; otherwise the device of the last line whose second field is the mount point, or none |
| Selectors.ScanMounts | thus/installation/process.py:540-548 | `check_source_folder` over the lines of `/proc/mounts`: the device of the last line mounted at the point, or an `IndexError` for a line with fewer than two fields; `ScanMountsCases` proves the cases |
| Extraction.MountSourceCases | thus/installation/process.py:572-584 | an image is loop-mounted exactly when nothing is mounted at its mount point; the step is fatal exactly when a line is short or the mount fails |
| Extraction.MountSource | thus/installation/process.py:572-584 | mounting one live image: the scan error, nothing if already mounted, else the loop mount and its failure; `MountSourceCases` proves the three cases |
| Extraction.InstallSystemRun | thus/installation/process.py:550-630 | the commands, events and fatality of `install_system`, from the empty target through the missing images, the mounts and the copy; `InstallSystemOutcome` proves its outcome |
| Extraction.InstallSystemOutcome | thus/installation/process.py:550-630 | the empty target ends the run at once with the error of `os.mkdir("")` and no command; a fatal run queues only its error; a run that goes through needs both images, reports no error or `finished`, and mounts each image only where nothing was mounted |
| Extraction.ExtractionEventKinds | thus/installation/process.py:586-619 | the extraction queues only `info`, `percent` and `progress-info`; every copy `percent` is a multiple of 100 files over a non-zero total |
| Extraction.ExtractionNoOutcome | thus/installation/process.py:586-619 | the extraction reports neither an error nor `finished` |
| Extraction.ExtractionEndsFull | thus/installation/process.py:614-619 | the extraction always ends with the full bar and its `total/total ( 100.00 % )` label |
| Installer.InstallationProcess.InstallSystem | thus/installation/process.py:550-630 | the commands and events of `InstallSystemRun`; a fatal run ends the process with the error flags set, a run that goes through leaves the flags alone |
| Installer.InstallationProcess.MountSourceImage | thus/installation/process.py:572-584 | scans `/proc/mounts` and runs the loop mount only when nothing is mounted there; the fatal text as `MountSource` says |
| Installer.InstallationProcess.Extract | thus/installation/process.py:586-619 | queues exactly the extraction events: indexing, both copies, and the full bar |
| Installer.InstallationProcess.QueueIndexing | thus/installation/process.py:589-598 | queues the two indexing announcements and the announcement of the root image, in order |
| Installer.InstallationProcess.QueueClosing | thus/installation/process.py:618-619 | queues the full bar and its `total/total ( 100.00 % )` label |
| Installer.InstallationProcess.CopyImages | thus/installation/process.py:598-613 | the second copy starts from the offset the first one left |
| Installer.FileCopyThread.UpdateProgress | thus/installation/process.py:130-133 | queues `num/total`, or raises `ZeroDivisionError` when the total is zero and queues nothing |
| Installer.FileCopyThread.Publish | thus/installation/process.py:154-156 | a count that is a multiple of 100 is queued after the counts already reported, unless `update_progress` raised |
| Installer.FileCopyThread.ReadLine | thus/installation/process.py:147-156 | one line of rsync's output moves the thread to the next state of the `run` loop, queuing the count it publishes, if any |
| Installer.FileCopyThread.Run | thus/installation/process.py:135-165 | queues a `percent` for each published count, in order, and leaves as offset the last count, or the old offset when the thread raised |
| Actions.PercentEventsSnoc | thus/installation/process.py:130-133 | one more count appends its event |
| CopyProgress.DigitRun | thus/installation/process.py:148 | the longest run of digits at the start of a string |
| CopyProgress.Matches | thus/installation/process.py:148 | one match attempt per position of the line |
| CopyProgress.FirstFromLeftmost | thus/installation/process.py:148 | the first attempt that matches is found, and none before it matches |
| CopyProgress.FirstFromSkips | thus/installation/process.py:148 | failing attempts are skipped |
| CopyProgress.FindReportLeftmost | thus/installation/process.py:148-152 | a line yields a report exactly when the expression matches somewhere, and then it is the leftmost match (`m[0]`) |
| CopyProgress.ProgressLineRoundTrip | thus/installation/process.py:148-152 | parsing a printed progress line gives back its remaining and total counts |
| CopyProgress.FirstMatchAt | thus/installation/process.py:148 | the leftmost `xfr#` that starts a match gives the report |
| CopyProgress.MatchAtTag | thus/installation/process.py:148 | a match at the position of `xfr#` parses what follows it |
| CopyProgress.TailMatches | thus/installation/process.py:148 | the text after `xfr#` matches the rest of the expression |
| CopyProgress.NumberThen | thus/installation/process.py:148 | a number followed by a non-digit separator is read whole |
| CopyProgress.DigitRunOf | thus/installation/process.py:148 | the digit run of a number followed by a non-digit is the number |
| CopyProgress.NoTagInPrefix | thus/installation/process.py:148 | no `xfr#` starts inside a prefix that holds none |
| CopyProgress.MatchAt | thus/installation/process.py:148 | the regular expression matched at one position: `xfr#`, digits, `, ir-chk=`, digits, `/`, digits; `MatchAtTag` and `ProgressLineRoundTrip` prove what it accepts |
| CopyProgress.FindReport | thus/installation/process.py:148 | the first element of `re.findall` on a line; `FindReportLeftmost` proves it is the match at the least position |
| CopyProgress.Step | thus/installation/process.py:147-157 | one rsync line of the copy thread: the count is the total minus the remaining plus the offset, and a multiple of 100 is published; `StepPublishes` proves it |
| CopyProgress.RunOf | thus/installation/process.py:136-165 | the copy thread over all lines; `RunPublishesMultiples`, `CrashIsFinal` and `RunWithZeroTotal` prove what it publishes and when it stops |
| CopyProgress.RunOfSnoc | thus/installation/process.py:136-158 | one more line is one more iteration of the loop |
| CopyProgress.CrashIsFinal | thus/installation/process.py:136-158 | once `update_progress` has raised, later lines change nothing |
| CopyProgress.RunPublishesMultiples | thus/installation/process.py:136-165 | with a non-zero total, the published counts are exactly the multiples of 100 among the counts `R..T` gives, in order, and the final count is the last count or 0 |
| CopyProgress.RunWithZeroTotal | thus/installation/process.py:130-158 | with a zero total nothing is published, and the thread raises exactly when some count is a multiple of 100 |
| CopyProgress.NonMatchingLineIgnored | thus/installation/process.py:148-158 | a line without a progress report changes nothing |
| CopyProgress.PublishedAreMultiples | thus/installation/process.py:156-157 | every published count is a multiple of 100 |
| CopyProgress.FortyOfHundredPublishesNothing | thus/installation/process.py:150-157 | `ir-chk=40/100` gives 60 files and publishes nothing |
| CopyProgress.PublishedCanDecrease | thus/installation/process.py:150-157 | the published counts need not grow when rsync's own total grows |
| CopyProgress.TwoReports | thus/installation/process.py:150-157 | `0/200` then `200/300` publish 200 and then 100 |
| CopyProgress.StepPublishes | thus/installation/process.py:154-156 | a count that is a multiple of 100 is published, with a non-zero total, and becomes the copied count |
| CopyProgress.RunOfTwo | thus/installation/process.py:136-158 | a run of two lines is two iterations |
| Fstab.DetectSsd | thus/installation/process.py:854-858 | the partition counts as an SSD exactly when some SSD device name occurs in its path |
| Fstab.MountOptionList | thus/installation/process.py:860-878 | the option table by file system and SSD; `OptionsStartWithDefaults`, `TrimOnlyOnSsd`, `AccessTimeOption` and `OrderedDataOnlyExt` prove its properties |
| Fstab.PassField | thus/installation/process.py:880-885 | the pass field, `1` only for a root that is neither btrfs nor f2fs; `NormalEntry` proves the line that carries it |
| Fstab.EntryEffectOf | thus/installation/process.py:774-892 | the lines, crypttab text and flags of one `mount_devices` entry; `SwapEntry`, `NormalEntry`, `HomeOnLuksEntry`, `AdvancedLuksEntry` and `NoFilesystemSkipped` prove its cases |
| Fstab.FstabOf | thus/installation/process.py:759-905 | the generated `fstab` with its crypttab and flags; `FstabLayout` proves its header, entries and tmpfs line, and `AutoFstab` computes it |
| Fstab.FsTypeIdempotent | thus/installation/process.py:838-840 | normalising a filesystem type is idempotent, and it keeps whether the type names FAT |
| Fstab.EntriesSnoc | thus/installation/process.py:774-892 | one more entry adds its own contribution |
| Fstab.ProcessEntry | thus/installation/process.py:774-892 | one iteration of the loop, each `continue` included, agrees with `EntryEffectOf` |
| Fstab.AutoFstab | thus/installation/process.py:759-905 | the loop builds exactly `FstabOf`: the text, the crypttab lines and the `btrfs` and `ruuid` settings |
| FstabLemmas.OptionsStartWithDefaults | thus/installation/process.py:860-878 | every option string begins with `defaults,rw` |
| FstabLemmas.TrimOnlyOnSsd | thus/installation/process.py:860-878 | `discard` appears exactly for an SSD holding ext4, JFS, XFS or btrfs |
| FstabLemmas.AccessTimeOption | thus/installation/process.py:860-878 | `noatime` on every SSD and on f2fs, `relatime` everywhere else |
| FstabLemmas.OrderedDataOnlyExt | thus/installation/process.py:860-869 | `data=ordered` only for ext3 and ext4 off SSDs |
| FstabLemmas.NoFilesystemSkipped | thus/installation/process.py:779-783 | a partition without an `fs_devices` entry contributes nothing |
| FstabLemmas.SwapEntry | thus/installation/process.py:785-795 | a swap partition gives exactly `UUID=<uuid> swap swap <opts> 0 0`, with `discard` exactly when the path is listed as an SSD |
| FstabLemmas.EmptyMountPointSkipped | thus/installation/process.py:845-847 | an ordinary entry without a mount point adds no line |
| FstabLemmas.NormalEntry | thus/installation/process.py:838-892 | an ordinary entry: `vfat` for FAT types, the options of its type and SSD status, pass `1` exactly for `/` not on btrfs or f2fs, and `ruuid` for `/` |
| FstabLemmas.NormalLineShape | thus/installation/process.py:890 | a general-branch line holds the UUID, mount point, type and options, then dump `0`, and ends with the pass field |
| FstabLemmas.HomeOnLuksEntry | thus/installation/process.py:799-821 | automatic-mode encrypted home: the mapper line, and the key file `none` exactly when a root LUKS password is set |
| FstabLemmas.HomeCrypttabText | thus/installation/process.py:804-816 | the home crypttab line uses key file `none` with a root LUKS password and `/etc/luks-keys/home` without one |
| FstabLemmas.AdvancedLuksEntry | thus/installation/process.py:823-836 | advanced-mode LUKS volume other than `/`: the volume name is the path without `/dev/mapper/`, and the line names the mapper path |
| FstabLemmas.CombineAssoc | thus/installation/process.py:774-892 | contributions combine associatively |
| FstabLemmas.CombineEmpty | thus/installation/process.py:774-892 | the empty contribution is neutral |
| FstabLemmas.FoldAppend | thus/installation/process.py:774-892 | folding two runs of entry effects combines their contributions in order |
| FstabLemmas.EffectsAppend | thus/installation/process.py:774-892 | the effects of two tables are those of each, in order |
| FstabLemmas.EntriesAppend | thus/installation/process.py:774-892 | the entries of two tables contribute in order |
| FstabLemmas.EntriesSingle | thus/installation/process.py:774-892 | a single entry contributes its own effect |
| FstabLemmas.SkipsPartitionWithoutFilesystem | thus/installation/process.py:779-783 | dropping an entry without a filesystem leaves the whole output unchanged |
| FstabLemmas.BtrfsSetting | thus/installation/process.py:842-843 | `btrfs` is set exactly when an ordinary entry has a btrfs type |
| FstabLemmas.FoldBtrfsSound | thus/installation/process.py:842-843 | a set `btrfs` flag comes from some entry effect that sets it |
| FstabLemmas.FoldBtrfsComplete | thus/installation/process.py:842-843 | any entry effect that sets `btrfs` sets the flag of the whole loop |
| FstabLemmas.EffectBtrfs | thus/installation/process.py:842-843 | an entry sets `btrfs` exactly when it reaches the general branch with a btrfs type |
| FstabLemmas.EffectRootUuid | thus/installation/process.py:887-888 | an entry records `ruuid` exactly when it is `/` and ordinary |
| FstabLemmas.FoldRuuidLast | thus/installation/process.py:887-888 | a set `ruuid` is the one of the last entry effect recording one |
| FstabLemmas.FoldRuuidComplete | thus/installation/process.py:887-888 | any entry effect recording a root UUID sets `ruuid` |
| FstabLemmas.RootUuidWritten | thus/installation/process.py:887-888 | `ruuid` is written exactly when an ordinary `/` entry exists |
| FstabLemmas.RootUuidLast | thus/installation/process.py:887-888 | `ruuid` holds the UUID of the last ordinary `/` entry |
| FstabLemmas.JoinSnocEmpty | thus/installation/process.py:899 | joining with a final empty piece adds the separator |
| FstabLemmas.JoinAppend | thus/installation/process.py:899 | joining two runs of lines |
| FstabLemmas.JoinLayout | thus/installation/process.py:899 | joining a header, lines and a last line |
| FstabLemmas.FstabLayout | thus/installation/process.py:762-899 | the file is the 8 header lines, one line per contributing entry in order, then the tmpfs line, each ended by a newline |
| FstabLemmas.LinesRoundTrip | thus/installation/process.py:899 | splitting the file on newlines gives back its lines and a final empty piece |
| FstabLemmas.Ext4Type | thus/installation/process.py:838-878 | ext4 is none of the types tested first |
| FstabLemmas.GeneralEffect | thus/installation/process.py:838-892 | the effect of an ordinary entry, spelled out |
| FstabLemmas.ScenarioSsd | thus/installation/process.py:854-858 | SSD detection in a three-partition layout |
| FstabLemmas.ScenarioRoot | thus/installation/process.py:860-892 | in that layout `/` gets the ext4 options of its SSD status and pass 1 |
| FstabLemmas.RootLineText | thus/installation/process.py:890 | the text of the `/` line |
| FstabLemmas.ScenarioBoot | thus/installation/process.py:860-892 | in that layout `/boot` gets the non-SSD ext4 options and pass 0 |
| FstabLemmas.ScenarioOptions | thus/installation/process.py:860-878 | the ext4 options off and on SSDs |
| FstabLemmas.ScenarioSwap | thus/installation/process.py:785-795 | in that layout swap gets `defaults` |
| FstabLemmas.ScenarioEntries | thus/installation/process.py:774-892 | a three-entry table contributes its entries in order |
| Selectors.FindDesktopEnvironment | thus/installation/process.py:965-970 | none exactly when no entry of `desktop_environments` is installed; otherwise the first installed entry |
| Selectors.DetectDesktopManager | thus/installation/process.py:1303-1345 | the display manager; `DetectIsLastPresent` proves that it is the last present one in the order the code tests them |
| Selectors.LastPresentSpec | thus/installation/process.py:1303-1345 | `none` exactly when no binary is present; otherwise the last check whose binary is present |
| Selectors.DetectIsLastPresent | thus/installation/process.py:1303-1345 | the chain of checks in the order slim, sddm, lightdm, gdm, mdm, lxdm, kdm picks the last display manager found |
| Selectors.DetectedIsPresent | thus/installation/process.py:1303-1345 | the display manager chosen is `none` exactly when none of the seven binaries is present, and otherwise one that is present and not followed by a present check |
| Selectors.LastPresentSnoc | thus/installation/process.py:1303-1345 | one more check overrides the earlier ones when its binary is present |
| Selectors.DefaultGroupsList | thus/installation/process.py:1209-1213 | the group list is the six base groups plus `autologin` exactly when `require_password` is `False` |
| Selectors.GroupsText | thus/installation/process.py:1209-1213 | the `-G` text is the groups joined by commas |
| Selectors.BaseGroupsText | thus/installation/process.py:1209 | the base group text is the six base groups joined by commas |
| Selectors.JoinSnoc | thus/installation/process.py:1209-1213 | joining one more group |
| Selectors.DefaultGroups | thus/installation/process.py:1209-1213 | the `-G` argument of `useradd`; `DefaultGroupsList` proves its groups, with `autologin` exactly when no password is required |
| TextPatch.LocaleLineChanges | thus/installation/process.py:950-954 | a line changes exactly when it contains the locale and starts with `#`, and then it loses only that `#` |
| TextPatch.LocaleLine | thus/installation/process.py:950-954 | the rewrite of one `locale.gen` line; `LocaleLineChanges` proves that only a commented line naming the locale changes, by its `#` |
| TextPatch.UncommentLocaleGen | thus/installation/process.py:942-958 | one output line per input line, each the line's rewrite |
| TextPatch.AutologinLines | thus/installation/process.py:1038-1115 | one output line per input line, each the line's rewrite |
| TextPatch.AutologinLine | thus/installation/process.py:1038-1115 | the rewrite of one configuration line per display manager; `AutologinOnlyTriggered` and the per-manager lemmas prove what changes |
| TextPatch.AutologinConf | thus/installation/process.py:1027-1115 | only mdm, gdm, kdm, lxdm, lightdm and slim are modelled, and any other name, sddm included, gives `Untouched`; for those six an existing file is rewritten line by line; mdm and gdm get a fresh file when theirs is missing; the others fail to open it |
| Installer.InstallationProcess.SetAutologin | thus/installation/process.py:1027-1115 | queues the announcement, then edits the file as `AutologinConf` says |
| TextPatch.AutologinOnlyTriggered | thus/installation/process.py:1038-1115 | only a line holding one of the display manager's triggers changes |
| TextPatch.SlimLine | thus/installation/process.py:1103-1115 | `auto_login` lines become `auto_login yes`, lines with only `default_user` name the user, and others are kept |
| TextPatch.KdmLine | thus/installation/process.py:1066-1078 | the enable line wins over the user line; others are kept |
| TextPatch.TwoRewrites | thus/installation/process.py:1073-1077 | of two rewrites in a row, the first wins when its replacement cannot trigger the second |
| TextPatch.NoTriggerInReplacement | thus/installation/process.py:1073-1077 | a replacement lacking a character of a trigger does not contain it |
| TextPatch.LightdmIdempotent | thus/installation/process.py:1090-1102 | enabling LightDM's automatic login twice changes nothing more, for a user name without `#` |
| TextPatch.RewriteKeyboardConf | thus/installation/process.py:1394-1404 | one output line per input line, each the line's rewrite |
| TextPatch.KeyboardLineCases | thus/installation/process.py:1397-1404 | `XKBLAYOUT=` lines become `XKBLAYOUT="<layout>"`, `XKBVARIANT=` lines become `XKBVARIANT="<variant>"` exactly when the variant is non-empty and are kept otherwise, and every other line is kept without its line ending; each is followed by one `\n` |
| TextPatch.KeyboardLine | thus/installation/process.py:1397-1404 | one rewritten `keyboard.conf` line; `KeyboardLineCases`, `KeyboardLineEnds` and `KeyboardLineIdempotent` prove it |
| TextPatch.KeyboardEntry | thus/installation/process.py:1398-1403 | the line before its `\n`: the layout line, the variant line when a variant is set, else the stripped line unchanged; `KeyboardLineCases` proves the cases |
| TextPatch.VariantIsNotLayout | thus/installation/process.py:1397-1404 | a line that sets `XKBVARIANT` never also counts as setting `XKBLAYOUT`, so the two rewrites never compete |
| TextPatch.KeyboardLineEnds | thus/installation/process.py:1398-1404 | every line written is the line's entry followed by one `\n` |
| TextPatch.KeyboardLineIdempotent | thus/installation/process.py:1397-1404 | rewriting `keyboard.conf` twice gives what rewriting it once gives |
| Strings.PathJoinShape | thus/installation/process.py:388 | POSIX `os.path.join`: an absolute second part replaces the first |
| Strings.Fields | thus/installation/process.py:545 | `str.split()` gives non-empty fields |
| Strings.RStrip | thus/installation/process.py:1397 | `rstrip` removes exactly the trailing characters of the set |
| Strings.NatToStringRoundTrip | thus/installation/process.py:619 | `%d` of a number reads back as that number |

## Left out

- Running the external programs. `subprocess`, `mount`, `umount`, `swapon`,
  `chmod` and `os.system` become the command trace and the `fails` oracle.
  File reads, writes, `os.mkdir`, `os.makedirs`, `os.chmod` and
  `shutil.copy` are left out; the files' contents are inputs and results.
- `fs.get_info`, `misc.mount_info` and `os.path.exists` become the inputs
  `uuidOf`, `isMounted` and `present`.
- The `unsquashfs -l | wc -l` counts, rsync's output and the text of a
  `CalledProcessError` (`errorText`) are inputs. The rsync and unsquashfs
  processes themselves are not in the trace, which holds only what
  `subprocess.check_call` runs.
- `logging` calls, `traceback` printing and the `print` fallback of
  `queue_event` without a queue: they only write to logs and the console.
- Concurrency: the `multiprocessing.Process` and `Thread` machinery,
  `FileCopyThread.kill` and process polling, `callback_queue.join`, and the
  front end draining the queue (an oracle in `WaitForEmptyQueue`). The copy
  threads are started and joined at once, so they run in sequence; `Run`
  is then a plain method.
- Floating point: a progress ratio is a pair `Percent(num, den)`.
  `int(float(a) + float(b))` of two line counts is their sum.
- QueueFatalEvent: without a queue, `callback_queue.join()` raises
  `AttributeError` before `os._exit`; the model ends the process either way.
  Where the code passes an exception object (`install_error` in `run`, `err`
  in `install_system`), the model queues its `str()` text, such as
  `MkdirEmptyError` and `ScanError`.
- SetAutologin: a missing kdm, lxdm, lightdm or slim file raises
  `FileNotFoundError`. The model reports it as `MissingFile` and does not
  model the exception reaching `run`. Its sddm branch, and the `info` event
  that branch queues, are left out as the next line says.
- AutologinConf: the sddm branch is not modelled; for `sddm` the model returns
  `Untouched`. The code queues `SDDM config file exists` when `etc/sddm.conf`
  is a file, and otherwise creates it with `sddm --example-config` in the
  chroot. It then rewrites every line matching `\s*(?:#\s*)?User=` to
  `User=<username>`, and every commented `Session=` line, or one with an empty
  value, to `Session=<desktop_file>.desktop` when a desktop environment is
  found. The example configuration's text comes from a program outside this
  model.
- InstallSystem: `directory_times` is always empty, so its restore loop does
  nothing and is left out.
- InstallSystemOutcome: for a non-empty target, and for `/source` and
  `/source_desktop`, `os.mkdir` is assumed to succeed; its failure is not
  modelled. The run from the image checks on is proved for a non-empty target,
  which the constructor never sets.
- ChrootUmountSpecialDirs: the `except Exception` branch of the unmount loop
  is not modelled. The `fails` oracle yields only `CalledProcessError`, and the
  warning that branch queues is the same as the one after a failed lazy unmount.
- Strings.IsSpace: only the ASCII whitespace `' '`, `\t`, `\n`, `\r`, `\v`
  and `\f`. Python's `str.split()` also splits on `\x1c`-`\x1f`, `\x85`,
  `\xa0` and the other Unicode spaces, which `/proc/mounts` does not hold.
- Strings.IsDigit: `\d` is taken as the ASCII digits; Python's `\d` on a
  `str` also matches other Unicode decimal digits, which rsync does not print.
- FileCopyThread.Run: rsync's output is taken as text; the `UnicodeDecodeError`
  of `line.decode()` on bytes that are not UTF-8 is not modelled.
- Actions.DictRepr: it is `str()` of the dictionary only for keys and values
  without quotes or backslashes, which Python would escape or quote with `"`.
- The rest of `run_installation`: partitioning (`auto_partition`), package
  installation, `configure_system` beyond the pieces above, the boot loader,
  `chroot`, `alsa_mixer_setup`, `copy_network_config`, `enable_services`,
  the password hashing of `crypt.crypt`, and the busy waits on
  `timezone_done` and `user_info_done`. They call modules that are not part
  of this model, or are I/O with no logic of their own.
- The `pyalpm.error` handler of `run`: the name is unbound in the file.
