/**
 * The installation process itself: its status flags, the events it queues
 * for the front end, the external commands it runs, and the copy threads
 * that report the extraction's progress.
 */
module Installer {
  import opened Strings
  import opened Wrappers
  import opened Events
  import opened Actions
  import opened CopyProgress
  import opened Extraction
  import Fstab
  import Selectors
  import TextPatch

  /**
   * How the `try` block of `run_installation` (installing, configuring and
   * installing the boot loader) ends.
   */
  datatype StageOutcome =
    | Completed
    | CalledProcessFailed(output: string)   // `subprocess.CalledProcessError`, with its `output`
    | InstallFailed(value: string)          // `InstallError`, with its `value`
    | OtherException                        // any other exception

  /** Regrouping of concatenations, for chaining the `Reported` and `trace` steps. */
  lemma SplitFive<T>(a: seq<T>, b: seq<T>, c: seq<T>, d: seq<T>, e: seq<T>)
    ensures a + b + c + d + e == (a + b) + (c + d + e)
  {
  }

  /** Regrouping of concatenations, for chaining the `Reported` and `trace` steps. */
  lemma SplitFour<T>(a: seq<T>, b: seq<T>, c: seq<T>, d: seq<T>)
    ensures a + b + c + d == (a + b) + (c + d)
  {
  }

  /** Regrouping of concatenations, for chaining the `Reported` and `trace` steps. */
  lemma AppendAssoc<T>(a: seq<T>, b: seq<T>, c: seq<T>)
    ensures a + b + c == a + (b + c)
  {
  }

  class InstallationProcess {
    /** `callback_queue`; `null` stands for `None`. */
    const channel: EventChannel?
    /** The `partition_mode` setting. */
    const mode: Fstab.PartitionMode
    /** The `efi` setting. */
    const efi: bool
    /** `self.dest_dir`: the constructor sets it to the empty string and nothing changes it. */
    const destDir: string
    const mountDevices: Fstab.MountDevices
    /** Which external commands exit with a non-zero status. */
    const fails: Command -> bool

    var running: bool
    var error: bool
    /** `os._exit` has been called: the process is gone. */
    var exited: bool
    var specialDirsMounted: bool
    /** Every command run with `subprocess.check_call` so far, in order. */
    var trace: seq<Command>
    /** Every event queued so far, in order, whether or not the channel took it. */
    var log: seq<Event>

    ghost predicate Valid()
      reads channel
    {
      (channel != null ==> channel.Valid()) && DistinctKeys(mountDevices)
    }

    /** What the channel holds after the events `evs` were queued since the previous state. */
    twostate predicate Reported(evs: seq<Event>)
      reads this, channel
    {
      log == old(log) + evs
      && (channel != null ==> channel.items == Delivered(old(channel.items), channel.maxSize, evs))
    }

    constructor (channel: EventChannel?, mode: Fstab.PartitionMode, efi: bool,
                 mountDevices: Fstab.MountDevices, fails: Command -> bool)
      requires channel != null ==> channel.Valid()
      requires DistinctKeys(mountDevices)
      modifies channel
      ensures Valid()
      ensures this.channel == channel && this.mode == mode && this.efi == efi && destDir == ""
      ensures this.mountDevices == mountDevices && this.fails == fails
      ensures running && !error && !exited && !specialDirsMounted && trace == []
      ensures log == [Info("Installing using the '" + ModeName(mode) + "' method")]
      ensures channel != null ==> channel.items == Delivered(old(channel.items), channel.maxSize, log)
    {
      this.channel := channel;
      this.mode := mode;
      this.efi := efi;
      destDir := "";
      this.mountDevices := mountDevices;
      this.fails := fails;
      running := true;
      error := false;
      exited := false;
      specialDirsMounted := false;
      trace := [];
      log := [];
      new;
      QueueEvent(Info("Installing using the '" + ModeName(mode) + "' method"));
    }

    /**
     * `queue_event`: hands the event to the channel without blocking; a full
     * channel drops it. Without a channel the event is printed instead.
     */
    method QueueEvent(e: Event)
      requires Valid()
      modifies this`log, channel
      ensures Valid()
      ensures Reported([e])
      ensures channel != null ==> (channel.items == if old(channel.Full()) then old(channel.items) else old(channel.items) + [e])
    {
      log := log + [e];
      if channel != null {
        var accepted := channel.PutNowait(e);
      }
    }

    /**
     * `queue_fatal_event`: marks the installation as failed and stopped,
     * queues the error and ends the process.
     */
    method QueueFatalEvent(txt: string)
      requires Valid()
      modifies this`running, this`error, this`exited, this`log, channel
      ensures Valid()
      ensures !IsRunning() && !IsOk() && exited
      ensures Reported([Error(txt)])
    {
      error := true;
      running := false;
      QueueEvent(Error(txt));
      exited := true;
    }

    /** `is_running` */
    predicate IsRunning()
      reads this
    {
      running
    }

    /** `is_ok` */
    predicate IsOk()
      reads this
    {
      !error
    }

    /** `subprocess.check_call(cmd)`: runs the command; `ok` is false where it raises `CalledProcessError`. */
    method CheckCall(cmd: Command) returns (ok: bool)
      modifies this`trace
      ensures trace == old(trace) + [cmd]
      ensures ok == !fails(cmd)
    {
      trace := trace + [cmd];
      ok := !fails(cmd);
    }

    /** Consecutive `check_call` statements: each command in turn until one fails. */
    method RunChecked(cmds: seq<Command>) returns (ok: bool)
      modifies this`trace
      ensures trace == old(trace) + UntilFailure(cmds, fails)
      ensures ok == AllSucceed(cmds, fails)
    {
      for i := 0 to |cmds|
        invariant AllSucceed(cmds[..i], fails)
        invariant trace == old(trace) + cmds[..i]
      {
        var succeeded := CheckCall(cmds[i]);
        assert cmds[..i + 1] == cmds[..i] + [cmds[i]];
        if !succeeded {
          UntilFailureAt(cmds, fails, i + 1);
          return false;
        }
      }
      assert cmds[..|cmds|] == cmds;
      return true;
    }

    /** `umount p`, retried as `umount -l p` when it fails; `failed` when the retry fails too. */
    method UmountWithFallback(p: string) returns (failed: bool)
      modifies this`trace
      ensures trace == old(trace) + LazyUmount(p, fails)
      ensures failed == UmountFailed(p, fails)
    {
      var ok := CheckCall(["umount", p]);
      failed := false;
      if !ok {
        var lazy := CheckCall(["umount", "-l", p]);
        failed := !lazy;
      }
    }

    /**
     * `chroot_mount_special_dirs`: does nothing but say so when the special
     * directories are mounted already; otherwise mounts them, and they count
     * as mounted only when every command succeeded (`ok` is false where a
     * `CalledProcessError` escapes).
     */
    method ChrootMountSpecialDirs() returns (ok: bool)
      requires Valid()
      modifies this`specialDirsMounted, this`trace, this`log, channel
      ensures Valid()
      ensures old(specialDirsMounted) ==>
                ok && specialDirsMounted && trace == old(trace) && Reported([Debug("Special dirs already mounted.")])
      ensures !old(specialDirsMounted) ==>
                && trace == old(trace) + UntilFailure(SpecialMounts(destDir, efi), fails)
                && ok == AllSucceed(SpecialMounts(destDir, efi), fails)
                && specialDirsMounted == ok
                && Reported([])
    {
      if specialDirsMounted {
        QueueEvent(Debug("Special dirs already mounted."));
        return true;
      }
      ok := MountSpecialDirs();
    }

    /** The mounting half of `chroot_mount_special_dirs`. */
    method MountSpecialDirs() returns (ok: bool)
      modifies this`specialDirsMounted, this`trace
      ensures trace == old(trace) + UntilFailure(SpecialMounts(destDir, efi), fails)
      ensures ok == AllSucceed(SpecialMounts(destDir, efi), fails)
      ensures specialDirsMounted == (old(specialDirsMounted) || ok)
    {
      ok := RunChecked(SpecialMounts(destDir, efi));
      if ok {
        specialDirsMounted := true;
      }
    }

    /**
     * `chroot_umount_special_dirs`: when the special directories are
     * mounted, unmounts each in turn with the lazy fallback and warns about
     * each one neither attempt released; afterwards they count as unmounted
     * whatever failed.
     */
    method ChrootUmountSpecialDirs()
      requires Valid()
      modifies this`specialDirsMounted, this`trace, this`log, channel
      ensures Valid()
      ensures !specialDirsMounted
      ensures trace == old(trace) + SpecialUmountTrace(destDir, efi, old(specialDirsMounted), fails)
      ensures Reported(SpecialUmountEvents(destDir, efi, old(specialDirsMounted), fails))
    {
      if !specialDirsMounted {
        QueueEvent(Debug("Special dirs are not mounted. Skipping."));
        return;
      }
      UmountAllWarning(Under(destDir, SpecialUmountOrder(efi)));
      specialDirsMounted := false;
    }

    /** The loop of `chroot_umount_special_dirs` over the joined paths `dirs`. */
    method UmountAllWarning(dirs: seq<string>)
      requires Valid()
      modifies this`trace, this`log, channel
      ensures Valid()
      ensures trace == old(trace) + UmountEach(dirs, fails)
      ensures Reported(UnableWarnings(dirs, fails))
    {
      for i := 0 to |dirs|
        invariant Valid()
        invariant trace == old(trace) + UmountEach(dirs[..i], fails)
        invariant Reported(UnableWarnings(dirs[..i], fails))
      {
        var mydir := dirs[i];
        var failed := UmountWithFallback(mydir);
        UmountEachSnoc(dirs, i, fails);
        assert dirs[..i + 1][..i] == dirs[..i];
        ghost var warned := UnableWarnings(dirs[..i], fails);
        AppendAssoc(old(trace), UmountEach(dirs[..i], fails), LazyUmount(mydir, fails));
        if failed {
          AppendAssoc(old(log), warned, [Warning("Unable to umount " + mydir)]);
          QueueEvent(Warning("Unable to umount " + mydir));
          assert UnableWarnings(dirs[..i + 1], fails) == warned + [Warning("Unable to umount " + mydir)];
          if channel != null {
            DeliveredAppend(old(channel.items), channel.maxSize, warned, [Warning("Unable to umount " + mydir)]);
          }
        } else {
          assert UnableWarnings(dirs[..i + 1], fails) == warned + [];
          assert warned + [] == warned;
        }
      }
      assert dirs[..|dirs|] == dirs;
    }

    /**
     * The mounting of the target partitions in `run_installation`: in the
     * alongside and advanced modes root is mounted at the target and boot,
     * when given, below it; the advanced mode then mounts every other
     * partition and turns on swap, where a failure is only logged.
     */
    method MountTargetPartitions() returns (outcome: MountOutcome)
      modifies this`trace
      ensures mode.Automatic? ==> outcome == NotNeeded && trace == old(trace)
      ensures !mode.Automatic? && Lookup(mountDevices, "/").None? ==> outcome == RootMissing && trace == old(trace)
      ensures !mode.Automatic? && Lookup(mountDevices, "/").Some? ==>
                var root := Lookup(mountDevices, "/").value;
                var first := RootAndBoot(root, mountDevices);
                && (!AllSucceed(first, fails) ==>
                      trace == old(trace) + UntilFailure(first, fails)
                      && outcome == (if fails(first[0]) then RootMountFailed else BootMountFailed))
                && (AllSucceed(first, fails) ==>
                      outcome == Mounted
                      && trace == old(trace) + first
                         + (if mode.Advanced?
                            then AdvancedCommands(mountDevices, root, LookupOrEmpty(mountDevices, "/boot"), LookupOrEmpty(mountDevices, "swap"))
                            else []))
    {
      if mode.Automatic? {
        return NotNeeded;
      }
      var rootEntry := Lookup(mountDevices, "/");
      if rootEntry.None? {
        return RootMissing;
      }
      var root := rootEntry.value;
      var boot := LookupOrEmpty(mountDevices, "/boot");
      var swap := LookupOrEmpty(mountDevices, "swap");
      var first := RootAndBoot(root, mountDevices);
      var ok := RunChecked(first);
      if !ok {
        if fails(first[0]) {
          return RootMountFailed;
        }
        return BootMountFailed;
      }
      if mode.Advanced? {
        MountAdvanced(root, boot, swap);
      }
      return Mounted;
    }

    /**
     * The advanced-mode loop: every entry with a path whose partition is not
     * root, boot or swap is mounted at the path joined to the target, the swap
     * partition is turned on; a failure is only logged and the loop goes on.
     */
    method MountAdvanced(root: string, boot: string, swap: string)
      modifies this`trace
      ensures trace == old(trace) + AdvancedCommands(mountDevices, root, boot, swap)
    {
      for i := 0 to |mountDevices|
        invariant trace == old(trace) + AdvancedCommands(mountDevices[..i], root, boot, swap)
      {
        AdvancedCommandsSnoc(mountDevices, i, root, boot, swap);
        var (path, part) := mountDevices[i];
        if path != "" {
          if part != root && part != boot && part != swap {
            var mountOk := CheckCall(["mount", part, PathJoin(DestDir, path)]);
          } else if part == swap {
            var swapOk := CheckCall(["swapon", swap]);
          }
        }
      }
      assert mountDevices[..|mountDevices|] == mountDevices;
    }

    /**
     * One unmount of the teardown: announces it, unmounts with the lazy
     * fallback and, when both attempts fail, says so as a warning or as
     * debug output.
     */
    method UmountReported(p: string, asWarning: bool)
      requires Valid()
      modifies this`trace, this`log, channel
      ensures Valid()
      ensures trace == old(trace) + LazyUmount(p, fails)
      ensures Reported(UmountReport(p, fails, asWarning))
    {
      QueueEvent(Debug("Unmounting " + p));
      var failed := UmountWithFallback(p);
      if failed {
        var report := if asWarning then Warning("Can't unmount " + p) else Debug("Can't unmount " + p);
        QueueEvent(report);
        if channel != null {
          DeliveredAppend(old(channel.items), channel.maxSize, [Debug("Unmounting " + p)], [report]);
        }
      }
    }

    /**
     * The teardown's loop over the live media mount points, `sourceDirs` in
     * the set's iteration order: each one reported as mounted is unmounted.
     */
    method UmountSourceDirs(sourceDirs: seq<string>, isMounted: string -> bool)
      requires Valid()
      modifies this`trace, this`log, channel
      ensures Valid()
      ensures trace == old(trace) + UmountEach(MountedOnly(sourceDirs, isMounted), fails)
      ensures Reported(UmountReports(MountedOnly(sourceDirs, isMounted), fails, true))
    {
      ghost var done: seq<string> := [];
      for i := 0 to |sourceDirs|
        invariant Valid()
        invariant done == MountedOnly(sourceDirs[..i], isMounted)
        invariant trace == old(trace) + UmountEach(done, fails)
        invariant Reported(UmountReports(done, fails, true))
      {
        var p := sourceDirs[i];
        MountedOnlySnoc(sourceDirs, i, isMounted);
        if isMounted(p) {
          UmountReported(p, true);
          UmountListsSnoc(done, p, fails, true);
          AppendAssoc(old(trace), UmountEach(done, fails), LazyUmount(p, fails));
          AppendAssoc(old(log), UmountReports(done, fails, true), UmountReport(p, fails, true));
          if channel != null {
            DeliveredAppend(old(channel.items), channel.maxSize, UmountReports(done, fails, true), UmountReport(p, fails, true));
          }
          done := done + [p];
        } else {
          assert done + [] == done;
        }
      }
      assert sourceDirs[..|sourceDirs|] == sourceDirs;
    }

    /**
     * The teardown's loop over `mount_devices`: every path but root, swap and
     * the empty one is unmounted below `dest_dir`.
     */
    method UmountDeviceDirs()
      requires Valid()
      modifies this`trace, this`log, channel
      ensures Valid()
      ensures trace == old(trace) + UmountEach(DeviceDirs(mountDevices, destDir), fails)
      ensures Reported(UmountReports(DeviceDirs(mountDevices, destDir), fails, false))
    {
      ghost var done: seq<string> := [];
      for i := 0 to |mountDevices|
        invariant Valid()
        invariant done == DeviceDirs(mountDevices[..i], destDir)
        invariant trace == old(trace) + UmountEach(done, fails)
        invariant Reported(UmountReports(done, fails, false))
      {
        var path := mountDevices[i].0;
        var mountDir := destDir + path;
        DeviceDirsSnoc(mountDevices, i, destDir);
        if path != "/" && path != "swap" && path != "" {
          UmountReported(mountDir, false);
          UmountListsSnoc(done, mountDir, fails, false);
          AppendAssoc(old(trace), UmountEach(done, fails), LazyUmount(mountDir, fails));
          AppendAssoc(old(log), UmountReports(done, fails, false), UmountReport(mountDir, fails, false));
          if channel != null {
            DeliveredAppend(old(channel.items), channel.maxSize, UmountReports(done, fails, false), UmountReport(mountDir, fails, false));
          }
          done := done + [mountDir];
        } else {
          assert done + [] == done;
        }
      }
      assert mountDevices[..|mountDevices|] == mountDevices;
    }

    /** The unmount of the target itself, whose failure names `lastSource`, the earlier loop's last path. */
    method UmountTarget(lastSource: string, isMounted: string -> bool)
      requires Valid()
      modifies this`trace, this`log, channel
      ensures Valid()
      ensures trace == old(trace) + TargetUmount(destDir, isMounted, fails)
      ensures Reported(TargetEvents(destDir, lastSource, isMounted, fails))
    {
      if isMounted(destDir) {
        QueueEvent(Debug("Unmounting " + destDir));
        var failed := UmountWithFallback(destDir);
        if failed {
          QueueEvent(Debug("Can't unmount " + lastSource));
          if channel != null {
            DeliveredAppend(old(channel.items), channel.maxSize, [Debug("Unmounting " + destDir)], [Debug("Can't unmount " + lastSource)]);
          }
        }
      }
    }

    /**
     * The success-path end of `run_installation`: unmounts everything, then
     * reports success and marks the installation as finished and without
     * error. `desktopFirst` is the iteration order of the set of live media
     * mount points, which Python leaves unspecified.
     */
    method Teardown(desktopFirst: bool, isMounted: string -> bool)
      requires Valid()
      modifies this`running, this`error, this`specialDirsMounted, this`trace, this`log, channel
      ensures Valid()
      ensures !IsRunning() && IsOk() && !specialDirsMounted
      ensures trace == old(trace) + TeardownTrace(destDir, efi, old(specialDirsMounted), mountDevices, desktopFirst, isMounted, fails)
      ensures Reported(TeardownEvents(destDir, efi, old(specialDirsMounted), mountDevices, desktopFirst, isMounted, fails))
    {
      ghost var unmounts := UnmountEvents(destDir, efi, specialDirsMounted, mountDevices, desktopFirst, isMounted, fails);
      ghost var done := [Finished("Installation finished successfully.")];
      assert TeardownEvents(destDir, efi, specialDirsMounted, mountDevices, desktopFirst, isMounted, fails) == unmounts + done;
      UnmountEverything(desktopFirst, isMounted);
      QueueEvent(Finished("Installation finished successfully."));
      AppendAssoc(old(log), unmounts, done);
      if channel != null {
        DeliveredAppend(old(channel.items), channel.maxSize, unmounts, done);
      }
      running := false;
      error := false;
    }

    /**
     * The unmounting part of the teardown: the special directories, the
     * live media, the partitions of `mount_devices`, and the target last.
     */
    method UnmountEverything(desktopFirst: bool, isMounted: string -> bool)
      requires Valid()
      modifies this`specialDirsMounted, this`trace, this`log, channel
      ensures Valid()
      ensures !specialDirsMounted
      ensures trace == old(trace) + TeardownTrace(destDir, efi, old(specialDirsMounted), mountDevices, desktopFirst, isMounted, fails)
      ensures Reported(UnmountEvents(destDir, efi, old(specialDirsMounted), mountDevices, desktopFirst, isMounted, fails))
    {
      var sourceDirs := SourceDirs(desktopFirst);
      ghost var specials := SpecialUmountEvents(destDir, efi, specialDirsMounted, fails);
      ghost var sources := UmountReports(MountedOnly(sourceDirs, isMounted), fails, true);
      ghost var listing := [Debug("Mounted devices: " + DictRepr(mountDevices))];
      ghost var devices := UmountReports(DeviceDirs(mountDevices, destDir), fails, false);
      ghost var target := TargetEvents(destDir, sourceDirs[1], isMounted, fails);
      ghost var t1 := SpecialUmountTrace(destDir, efi, specialDirsMounted, fails);
      ghost var t2 := UmountEach(MountedOnly(sourceDirs, isMounted), fails);
      ghost var t3 := UmountEach(DeviceDirs(mountDevices, destDir), fails);
      ghost var t4 := TargetUmount(destDir, isMounted, fails);
      assert TeardownTrace(destDir, efi, specialDirsMounted, mountDevices, desktopFirst, isMounted, fails) == t1 + t2 + t3 + t4;
      assert UnmountEvents(destDir, efi, specialDirsMounted, mountDevices, desktopFirst, isMounted, fails)
             == specials + sources + listing + devices + target;

      UmountLiveMedia(sourceDirs, isMounted);
      UmountInstalled(sourceDirs[1], isMounted);
      AppendAssoc(old(log), specials + sources, listing + devices + target);
      AppendAssoc(old(trace), t1 + t2, t3 + t4);
      if channel != null {
        DeliveredAppend(old(channel.items), channel.maxSize, specials + sources, listing + devices + target);
      }
      SplitFive(specials, sources, listing, devices, target);
      SplitFour(t1, t2, t3, t4);
    }

    /** The first half of the teardown: the chroot's special directories, then the live media. */
    method UmountLiveMedia(sourceDirs: seq<string>, isMounted: string -> bool)
      requires Valid()
      modifies this`specialDirsMounted, this`trace, this`log, channel
      ensures Valid()
      ensures !specialDirsMounted
      ensures trace == old(trace) + (SpecialUmountTrace(destDir, efi, old(specialDirsMounted), fails)
                                     + UmountEach(MountedOnly(sourceDirs, isMounted), fails))
      ensures Reported(SpecialUmountEvents(destDir, efi, old(specialDirsMounted), fails)
                       + UmountReports(MountedOnly(sourceDirs, isMounted), fails, true))
    {
      ghost var specials := SpecialUmountEvents(destDir, efi, specialDirsMounted, fails);
      ghost var t1 := SpecialUmountTrace(destDir, efi, specialDirsMounted, fails);
      ChrootUmountSpecialDirs();
      UmountSourceDirs(sourceDirs, isMounted);
      AppendAssoc(old(log), specials, UmountReports(MountedOnly(sourceDirs, isMounted), fails, true));
      AppendAssoc(old(trace), t1, UmountEach(MountedOnly(sourceDirs, isMounted), fails));
      if channel != null {
        DeliveredAppend(old(channel.items), channel.maxSize, specials, UmountReports(MountedOnly(sourceDirs, isMounted), fails, true));
      }
    }

    /** The second half: the `mount_devices` listing, the partitions, then the target itself. */
    method UmountInstalled(lastSource: string, isMounted: string -> bool)
      requires Valid()
      modifies this`trace, this`log, channel
      ensures Valid()
      ensures trace == old(trace) + (UmountEach(DeviceDirs(mountDevices, destDir), fails) + TargetUmount(destDir, isMounted, fails))
      ensures Reported([Debug("Mounted devices: " + DictRepr(mountDevices))]
                       + UmountReports(DeviceDirs(mountDevices, destDir), fails, false)
                       + TargetEvents(destDir, lastSource, isMounted, fails))
    {
      ghost var listing := [Debug("Mounted devices: " + DictRepr(mountDevices))];
      ghost var devices := UmountReports(DeviceDirs(mountDevices, destDir), fails, false);
      ghost var target := TargetEvents(destDir, lastSource, isMounted, fails);
      ghost var t3 := UmountEach(DeviceDirs(mountDevices, destDir), fails);
      QueueEvent(Debug("Mounted devices: " + DictRepr(mountDevices)));
      UmountDeviceDirs();
      AppendAssoc(old(log), listing, devices);
      if channel != null {
        DeliveredAppend(old(channel.items), channel.maxSize, listing, devices);
      }
      UmountTarget(lastSource, isMounted);
      AppendAssoc(old(log), listing + devices, target);
      AppendAssoc(old(trace), t3, TargetUmount(destDir, isMounted, fails));
      if channel != null {
        DeliveredAppend(old(channel.items), channel.maxSize, listing + devices, target);
      }
    }

    /**
     * `install_system`: creates the target directory (which fails for the
     * empty `destDir` the constructor sets), checks that both live images
     * exist, loop-mounts each one where nothing is mounted yet, and extracts
     * them. Every failure is fatal: it ends the process, so nothing runs
     * after it.
     */
    method InstallSystem(media: LiveMedia, present: string -> bool, mounts1: seq<string>, mounts2: seq<string>,
                         errorText: Command -> string, x: CopyInput)
      requires Valid()
      modifies this`running, this`error, this`exited, this`trace, this`log, channel
      ensures Valid()
      ensures var r := InstallSystemRun(destDir, media, present, mounts1, mounts2, fails, errorText, x);
              && trace == old(trace) + r.commands
              && Reported(r.events)
              && (r.fatal ==> exited && !IsRunning() && !IsOk())
              && (!r.fatal ==> running == old(running) && error == old(error) && exited == old(exited))
    {
      if destDir == "" {
        QueueFatalEvent(MkdirEmptyError);
        return;
      }
      if !present(media.image) {
        QueueFatalEvent(BaseMissing);
        return;
      }
      if !present(media.desktopImage) {
        QueueFatalEvent(DesktopMissing);
        return;
      }
      var fatal := MountSourceImage(mounts1, "/source", media.image, media.mediaType, errorText);
      if fatal.Some? {
        QueueFatalEvent(fatal.value);
        return;
      }
      ghost var first := trace;
      fatal := MountSourceImage(mounts2, "/source_desktop", media.desktopImage, media.mediaType, errorText);
      AppendAssoc(old(trace), first[|old(trace)|..], trace[|first|..]);
      if fatal.Some? {
        QueueFatalEvent(fatal.value);
        return;
      }
      Extract(x);
    }

    /** Mounting one live image, as `MountSource` describes it; `fatal` is the text of the error, if any. */
    method MountSourceImage(mounts: seq<string>, mountPoint: string, image: string, mediaType: string,
                            errorText: Command -> string) returns (fatal: Option<string>)
      modifies this`trace
      ensures var m := MountSource(mounts, mountPoint, image, mediaType, fails, errorText);
              trace == old(trace) + m.commands && fatal == m.fatal
    {
      var scan := Selectors.CheckSourceFolder(mounts, mountPoint);
      match scan
      case IndexError(_) =>
        fatal := Some(ScanError);
      case Scanned(Some(_)) =>
        fatal := None;
      case Scanned(None) =>
        var cmd := LoopMount(image, mountPoint, mediaType);
        var ok := CheckCall(cmd);
        fatal := if ok then None else Some(errorText(cmd));
    }

    /**
     * The extraction: counts the files, copies the base image and then the
     * desktop image, the second copy thread taking up where the first one
     * stopped, and shows the full bar at the end.
     */
    method Extract(x: CopyInput)
      requires Valid()
      modifies this`log, channel
      ensures Valid()
      ensures Reported(ExtractionEvents(x))
    {
      var total := x.baseCount + x.desktopCount;
      ghost var copying := CopyEvents(total, x.baseOutput, x.desktopOutput);
      QueueIndexing();
      CopyImages(total, x.baseOutput, x.desktopOutput);
      AppendAssoc(old(log), IndexingEvents, copying);
      if channel != null {
        DeliveredAppend(old(channel.items), channel.maxSize, IndexingEvents, copying);
      }
      QueueClosing(total);
      AppendAssoc(old(log), IndexingEvents + copying, ClosingEvents(total));
      if channel != null {
        DeliveredAppend(old(channel.items), channel.maxSize, IndexingEvents + copying, ClosingEvents(total));
      }
    }

    /** The announcements before the first copy thread starts. */
    method QueueIndexing()
      requires Valid()
      modifies this`log, channel
      ensures Valid()
      ensures Reported(IndexingEvents)
    {
      QueueEvent(Info("Indexing files to be copied..."));
      QueueEvent(Info("Indexing files to be copied ..."));
      if channel != null {
        DeliveredAppend(old(channel.items), channel.maxSize, [IndexingEvents[0]], [IndexingEvents[1]]);
      }
      QueueEvent(Info("Extracting root-image ..."));
      if channel != null {
        DeliveredAppend(old(channel.items), channel.maxSize, IndexingEvents[..2], [IndexingEvents[2]]);
      }
      assert IndexingEvents[..2] + [IndexingEvents[2]] == IndexingEvents;
    }

    /** The forced 100 % after both copies, whether or not a thread reached it. */
    method QueueClosing(total: nat)
      requires Valid()
      modifies this`log, channel
      ensures Valid()
      ensures Reported(ClosingEvents(total))
    {
      QueueEvent(Percent(1, 1));
      QueueEvent(ProgressInfo(FullProgressText(total)));
      if channel != null {
        DeliveredAppend(old(channel.items), channel.maxSize, [Percent(1, 1)], [ProgressInfo(FullProgressText(total))]);
      }
    }

    /** The two copy threads, one after the other (each is joined before the next starts). */
    method CopyImages(total: nat, baseOutput: seq<string>, desktopOutput: seq<string>)
      requires Valid()
      modifies this`log, channel
      ensures Valid()
      ensures Reported(CopyEvents(total, baseOutput, desktopOutput))
    {
      ghost var first := PercentEvents(RunOf(baseOutput, 0, total).published, total);
      ghost var second := PercentEvents(RunOf(desktopOutput, FinalOffset(baseOutput, 0, total), total).published, total);
      assert CopyEvents(total, baseOutput, desktopOutput) == first + [Info("Extracting desktop-image ...")] + second;
      var t := new FileCopyThread(this, total, 0);
      t.Run(baseOutput);
      QueueEvent(Info("Extracting desktop-image ..."));
      AppendAssoc(old(log), first, [Info("Extracting desktop-image ...")]);
      if channel != null {
        DeliveredAppend(old(channel.items), channel.maxSize, first, [Info("Extracting desktop-image ...")]);
      }
      var t2 := new FileCopyThread(this, total, t.offset);
      t2.Run(desktopOutput);
      AppendAssoc(old(log), first + [Info("Extracting desktop-image ...")], second);
      if channel != null {
        DeliveredAppend(old(channel.items), channel.maxSize, first + [Info("Extracting desktop-image ...")], second);
      }
    }

    /**
     * `set_autologin`: announces the change, then edits the display
     * manager's configuration file, whose lines are `conf` (`None` when it
     * does not exist).
     */
    method SetAutologin(dm: string, user: string, conf: Option<seq<string>>) returns (r: TextPatch.ConfEdit)
      requires Valid()
      modifies this`log, channel
      ensures Valid()
      ensures Reported([Info(dm + ": Enable automatic login for user " + user + ".")])
      ensures TextPatch.AutologinEdit(dm, user, conf, r)
    {
      QueueEvent(Info(dm + ": Enable automatic login for user " + user + "."));
      r := TextPatch.AutologinConf(dm, user, conf);
    }

    /**
     * How `run_installation` ends once its main stage is over: an
     * `CalledProcessError` or an `InstallError` is fatal and ends the process
     * with nothing unmounted; any other exception is taken for success, like
     * completion, and the teardown runs. `ok` is the value returned.
     */
    method FinishInstallation(stage: StageOutcome, desktopFirst: bool, isMounted: string -> bool) returns (ok: bool)
      requires Valid()
      modifies this`running, this`error, this`exited, this`specialDirsMounted, this`trace, this`log, channel
      ensures Valid()
      ensures stage.CalledProcessFailed? ==>
                !ok && exited && !IsOk() && !IsRunning() && trace == old(trace)
                && Reported([Error("CalledProcessError.output = " + stage.output)])
      ensures stage.InstallFailed? ==>
                !ok && exited && !IsOk() && !IsRunning() && trace == old(trace) && Reported([Error(stage.value)])
      ensures (stage.Completed? || stage.OtherException?) ==>
                && ok && exited == old(exited) && !IsRunning() && IsOk() && !specialDirsMounted
                && trace == old(trace) + TeardownTrace(destDir, efi, old(specialDirsMounted), mountDevices, desktopFirst, isMounted, fails)
                && Reported(TeardownEvents(destDir, efi, old(specialDirsMounted), mountDevices, desktopFirst, isMounted, fails))
    {
      match stage
      case CalledProcessFailed(output) =>
        QueueFatalEvent("CalledProcessError.output = " + output);
        return false;
      case InstallFailed(value) =>
        QueueFatalEvent(value);
        return false;
      case _ =>
        Teardown(desktopFirst, isMounted);
        return true;
    }
  }
  /**
   * A copy thread: runs rsync and turns its progress lines into `percent`
   * events of the installation. rsync's output is the parameter of `Run`.
   */
  class FileCopyThread {
    const installer: InstallationProcess
    const totalFiles: int
    /** The count the progress of this copy starts from; after `Run`, the count it reached. */
    var offset: int

    constructor (installer: InstallationProcess, totalFiles: int, offset: int)
      ensures this.installer == installer && this.totalFiles == totalFiles && this.offset == offset
    {
      this.installer := installer;
      this.totalFiles := totalFiles;
      this.offset := offset;
    }

    /**
     * `update_progress`: queues `numFiles / totalFiles`; the division raises
     * `ZeroDivisionError` when the total is zero, and then nothing is queued.
     */
    method UpdateProgress(numFiles: int) returns (raised: bool)
      requires installer.Valid()
      modifies installer`log, installer.channel
      ensures installer.Valid()
      ensures raised == (totalFiles == 0)
      ensures installer.Reported(if raised then [] else [Percent(numFiles, totalFiles)])
    {
      if totalFiles == 0 {
        return true;
      }
      installer.QueueEvent(Percent(numFiles, totalFiles));
      return false;
    }

    /**
     * `update_progress` for a count that is a multiple of 100, after the
     * counts `published` were reported on top of `log0` and `items0`: the
     * count joins them unless the update raised.
     */
    method Publish(copied: int, ghost published: seq<int>, ghost log0: seq<Event>, ghost items0: seq<Event>) returns (raised: bool)
      requires installer.Valid()
      requires installer.log == log0 + PercentEvents(published, totalFiles)
      requires installer.channel != null ==>
                 installer.channel.items == Delivered(items0, installer.channel.maxSize, PercentEvents(published, totalFiles))
      modifies installer`log, installer.channel
      ensures installer.Valid()
      ensures raised == (totalFiles == 0)
      ensures var now := if raised then published else published + [copied];
              && installer.log == log0 + PercentEvents(now, totalFiles)
              && (installer.channel != null ==>
                    installer.channel.items == Delivered(items0, installer.channel.maxSize, PercentEvents(now, totalFiles)))
    {
      raised := UpdateProgress(copied);
      if !raised {
        PercentEventsSnoc(published, copied, totalFiles);
        AppendAssoc(log0, PercentEvents(published, totalFiles), [Percent(copied, totalFiles)]);
        if installer.channel != null {
          DeliveredAppend(items0, installer.channel.maxSize, PercentEvents(published, totalFiles), [Percent(copied, totalFiles)]);
        }
      }
    }

    /**
     * One iteration of the loop of `run`, from the state `st` (with the count
     * `before`) whose counts were reported on top of `log0` and `items0`: the new state is `Step`'s.
     */
    method ReadLine(line: string, before: int, ghost st: RunState, ghost log0: seq<Event>, ghost items0: seq<Event>)
      returns (copied: int, raised: bool, ghost next: RunState)
      requires installer.Valid() && !st.crashed && st.copied == before
      requires installer.log == log0 + PercentEvents(st.published, totalFiles)
      requires installer.channel != null ==>
                 installer.channel.items == Delivered(items0, installer.channel.maxSize, PercentEvents(st.published, totalFiles))
      modifies installer`log, installer.channel
      ensures installer.Valid()
      ensures next == Step(st, line, offset, totalFiles) && copied == next.copied && raised == next.crashed
      ensures installer.log == log0 + PercentEvents(next.published, totalFiles)
      ensures installer.channel != null ==>
                installer.channel.items == Delivered(items0, installer.channel.maxSize, PercentEvents(next.published, totalFiles))
    {
      copied, raised, next := before, false, st;
      var report := FindReport(line);
      if report.Some? {
        copied := Copied(report.value, offset);
        if copied % 100 == 0 {
          raised := Publish(copied, st.published, log0, items0);
          next := if raised then RunState(copied, st.published, true) else RunState(copied, st.published + [copied], false);
        } else {
          next := RunState(copied, st.published, false);
        }
      }
    }

    /**
     * `run`: reads rsync's lines; each progress report gives the number of
     * files copied so far, which is published when it is a multiple of 100.
     * A raising `update_progress` ends the thread with `offset` untouched;
     * otherwise `offset` becomes the last count.
     */
    method Run(lines: seq<string>)
      requires installer.Valid()
      modifies this`offset, installer`log, installer.channel
      ensures installer.Valid()
      ensures offset == FinalOffset(lines, old(offset), totalFiles)
      ensures installer.Reported(PercentEvents(RunOf(lines, old(offset), totalFiles).published, totalFiles))
    {
      var copied := 0;
      var raised := false;
      ghost var st := RunOf(lines[..0], offset, totalFiles);
      var i := 0;
      while i < |lines| && !raised
        invariant 0 <= i <= |lines|
        invariant offset == old(offset)
        invariant installer.Valid()
        invariant st == RunOf(lines[..i], offset, totalFiles)
        invariant st.copied == copied && st.crashed == raised
        invariant installer.Reported(PercentEvents(st.published, totalFiles))
        decreases |lines| - i
      {
        RunOfSnoc(lines, i, offset, totalFiles);
        copied, raised, st := ReadLine(lines[i], copied, st, old(installer.log),
                                       if installer.channel != null then old(installer.channel.items) else []);
        i := i + 1;
      }
      if raised {
        CrashIsFinal(lines, i, offset, totalFiles);
      } else {
        assert lines[..|lines|] == lines;
        offset := copied;
      }
    }
  }
}
