/**
 * The external commands the installer runs while it mounts and unmounts the
 * target, and the events it reports about them, as values. A command is its
 * argument vector; whether it exits with a non-zero status (so that
 * `subprocess.check_call` raises `CalledProcessError`) is the oracle `fails`.
 */
module Actions {
  import opened Strings
  import opened Wrappers
  import opened Events
  import Fstab

  /** An external command as its argument vector. */
  type Command = seq<string>

  /** Where the target system is mounted while it is being built (`DEST_DIR`). */
  const DestDir: string := "/install"

  /** The text of the `partition_mode` setting. */
  function ModeName(mode: Fstab.PartitionMode): string
  {
    match mode
    case Automatic => "automatic"
    case Alongside => "alongside"
    case Advanced => "advanced"
  }

  /** A Python dictionary holds each key once. */
  predicate DistinctKeys(md: Fstab.MountDevices)
  {
    forall i, j :: 0 <= i < j < |md| ==> md[i].0 != md[j].0
  }

  /** `mount_devices[key]`, with `None` where Python raises `KeyError`. */
  function Lookup(md: Fstab.MountDevices, key: string): (r: Option<string>)
    ensures r.Some? <==> exists k :: 0 <= k < |md| && md[k].0 == key
    ensures r.Some? ==> exists k :: 0 <= k < |md| && md[k] == (key, r.value)
  {
    if |md| == 0 then None
    else if md[0].0 == key then Some(md[0].1)
    else
      var r := Lookup(md[1..], key);
      assert r.Some? ==> exists k :: 0 <= k < |md| - 1 && md[1..][k] == (key, r.value);
      assert forall k :: 0 <= k < |md| - 1 ==> md[1..][k] == md[k + 1];
      r
  }

  /** With distinct keys, looking up the key of an entry gives that entry's value. */
  lemma {:induction false} LookupEntry(md: Fstab.MountDevices, k: nat)
    requires DistinctKeys(md) && k < |md|
    ensures Lookup(md, md[k].0) == Some(md[k].1)
  {
    if k > 0 {
      assert md[0].0 != md[k].0;
      assert md[1..][k - 1] == md[k];
      LookupEntry(md[1..], k - 1);
    }
  }

  /** `mount_devices.get(key)` written as `md[key] if key in md else ""`. */
  function LookupOrEmpty(md: Fstab.MountDevices, key: string): string
  {
    match Lookup(md, key)
    case Some(v) => v
    case None => ""
  }

  predicate AllSucceed(cmds: seq<Command>, fails: Command -> bool)
  {
    forall k :: 0 <= k < |cmds| ==> !fails(cmds[k])
  }

  /**
   * The commands a run of consecutive `check_call` statements executes: each
   * in turn until one fails, whose `CalledProcessError` skips the rest.
   */
  function UntilFailure(cmds: seq<Command>, fails: Command -> bool): (r: seq<Command>)
    ensures |r| <= |cmds| && r == cmds[..|r|]
    ensures AllSucceed(cmds, fails) ==> r == cmds
    ensures !AllSucceed(cmds, fails) ==> 0 < |r| && fails(r[|r| - 1]) && AllSucceed(r[..|r| - 1], fails)
  {
    if |cmds| == 0 then []
    else if fails(cmds[0]) then [cmds[0]]
    else
      var rest := UntilFailure(cmds[1..], fails);
      assert forall k :: 0 < k < |cmds| ==> cmds[k] == cmds[1..][k - 1];
      assert [cmds[0]] + rest == cmds[..1 + |rest|];
      [cmds[0]] + rest
  }

  /** The failing command ends the run: a run whose `i`-th command is the first to fail stops there. */
  lemma {:induction false} UntilFailureAt(cmds: seq<Command>, fails: Command -> bool, i: nat)
    requires 0 < i <= |cmds| && AllSucceed(cmds[..i - 1], fails) && fails(cmds[i - 1])
    ensures UntilFailure(cmds, fails) == cmds[..i]
  {
    if i > 1 {
      assert !fails(cmds[..i - 1][0]);
      assert cmds[1..][..i - 2] == cmds[..i - 1][1..];
      UntilFailureAt(cmds[1..], fails, i - 1);
      assert cmds[..i] == [cmds[0]] + cmds[1..][..i - 1];
    }
  }

  // ---------------------------------------------------------------------
  // The special directories of a chroot

  /** The directories, relative to the target, mounted for a chroot, in mount order. */
  function SpecialDirs(efi: bool): seq<string>
  {
    ["sys", "proc", "dev", "dev/pts"] + (if efi then ["sys/firmware/efi"] else [])
  }

  /** The order in which they are unmounted again. */
  function SpecialUmountOrder(efi: bool): seq<string>
  {
    if efi then ["dev/pts", "sys/firmware/efi", "sys", "proc", "dev"] else ["dev/pts", "sys", "proc", "dev"]
  }

  /** Each directory of `dirs` joined to `base` with `os.path.join`. */
  function Under(base: string, dirs: seq<string>): (r: seq<string>)
    ensures |r| == |dirs|
  {
    seq(|dirs|, k requires 0 <= k < |dirs| => PathJoin(base, dirs[k]))
  }

  /** The commands `chroot_mount_special_dirs` runs, in order, once it decides to mount. */
  function SpecialMounts(destDir: string, efi: bool): seq<Command>
  {
    BasicMounts(PathJoin(destDir, "sys"), PathJoin(destDir, "proc"), PathJoin(destDir, "dev"), PathJoin(destDir, "dev/pts"))
    + (if efi then [["mount", "-o", "bind", "/sys/firmware/efi", PathJoin(destDir, "sys/firmware/efi")]] else [])
  }

  /** The mounts (and `chmod 555`s) of `sys`, `proc`, `dev` and `dev/pts` at the given directories. */
  function BasicMounts(sys: string, proc: string, dev: string, pts: string): seq<Command>
  {
    [ ["mount", "-t", "sysfs", "/sys", sys], ["chmod", "555", sys],
      ["mount", "-t", "proc", "/proc", proc], ["chmod", "555", proc],
      ["mount", "-o", "bind", "/dev", dev],
      ["mount", "-t", "devpts", "/dev/pts", pts], ["chmod", "555", pts] ]
  }

  /** The mount points of the `mount` commands of a trace, in order. */
  function MountPoints(cmds: seq<Command>): seq<string>
  {
    if |cmds| == 0 then []
    else
      var c := cmds[|cmds| - 1];
      MountPoints(cmds[..|cmds| - 1]) + (if |c| > 0 && c[0] == "mount" then [c[|c| - 1]] else [])
  }

  lemma {:induction false} MountPointsAppend(a: seq<Command>, b: seq<Command>)
    ensures MountPoints(a + b) == MountPoints(a) + MountPoints(b)
    decreases |b|
  {
    if |b| > 0 {
      assert (a + b)[..|a + b| - 1] == a + b[..|b| - 1];
      MountPointsAppend(a, b[..|b| - 1]);
    } else {
      assert a + b == a;
    }
  }

  lemma MountPointsOne(c: Command)
    ensures MountPoints([c]) == if |c| > 0 && c[0] == "mount" then [c[|c| - 1]] else []
  {
    assert [c][..0] == [];
  }

  /** A mount followed by a `chmod` contributes the one mount point. */
  lemma MountThenChmod(m: Command, dir: string)
    requires |m| > 0 && m[0] == "mount"
    ensures MountPoints([m, ["chmod", "555", dir]]) == [m[|m| - 1]]
  {
    assert [m, ["chmod", "555", dir]][..1] == [m];
    MountPointsOne(m);
  }

  lemma BasicMountPoints(sys: string, proc: string, dev: string, pts: string)
    ensures MountPoints(BasicMounts(sys, proc, dev, pts)) == [sys, proc, dev, pts]
  {
    var c0: Command, c2: Command := ["mount", "-t", "sysfs", "/sys", sys], ["mount", "-t", "proc", "/proc", proc];
    var c4: Command, c5: Command := ["mount", "-o", "bind", "/dev", dev], ["mount", "-t", "devpts", "/dev/pts", pts];
    var a, b := [c0, ["chmod", "555", sys]], [c2, ["chmod", "555", proc]];
    var c, d := [c4], [c5, ["chmod", "555", pts]];
    assert BasicMounts(sys, proc, dev, pts) == a + b + c + d;
    MountThenChmod(c0, sys);
    MountThenChmod(c2, proc);
    MountPointsOne(c4);
    MountThenChmod(c5, pts);
    MountPointsAppend(a, b);
    MountPointsAppend(a + b, c);
    MountPointsAppend(a + b + c, d);
  }

  /** The mounts for a chroot are exactly the special directories under the target, in mount order. */
  lemma SpecialMountPoints(destDir: string, efi: bool)
    ensures MountPoints(SpecialMounts(destDir, efi)) == Under(destDir, SpecialDirs(efi))
  {
    var sys, proc, dev, pts := PathJoin(destDir, "sys"), PathJoin(destDir, "proc"), PathJoin(destDir, "dev"), PathJoin(destDir, "dev/pts");
    var basic := BasicMounts(sys, proc, dev, pts);
    BasicMountPoints(sys, proc, dev, pts);
    if efi {
      var efiDir := PathJoin(destDir, "sys/firmware/efi");
      var extra: seq<Command> := [["mount", "-o", "bind", "/sys/firmware/efi", efiDir]];
      MountPointsAppend(basic, extra);
      MountPointsOne(extra[0]);
      UnderFive(destDir, "sys", "proc", "dev", "dev/pts", "sys/firmware/efi");
    } else {
      assert SpecialMounts(destDir, efi) == basic + [];
      assert basic + [] == basic;
      UnderFour(destDir, "sys", "proc", "dev", "dev/pts");
    }
  }

  lemma UnderSnoc(base: string, dirs: seq<string>, d: string)
    ensures Under(base, dirs + [d]) == Under(base, dirs) + [PathJoin(base, d)]
  {
    var u, v := Under(base, dirs + [d]), Under(base, dirs) + [PathJoin(base, d)];
    forall k | 0 <= k < |u| ensures u[k] == v[k] {
      if k < |dirs| {
        assert (dirs + [d])[k] == dirs[k];
      }
    }
  }

  lemma UnderFour(base: string, a: string, b: string, c: string, d: string)
    ensures Under(base, [a, b, c, d]) == [PathJoin(base, a), PathJoin(base, b), PathJoin(base, c), PathJoin(base, d)]
  {
    assert Under(base, [a]) == [PathJoin(base, a)];
    UnderSnoc(base, [a], b);
    assert [a] + [b] == [a, b];
    UnderSnoc(base, [a, b], c);
    assert [a, b] + [c] == [a, b, c];
    UnderSnoc(base, [a, b, c], d);
    assert [a, b, c] + [d] == [a, b, c, d];
  }

  lemma UnderFive(base: string, a: string, b: string, c: string, d: string, e: string)
    ensures Under(base, [a, b, c, d] + [e]) == [PathJoin(base, a), PathJoin(base, b), PathJoin(base, c), PathJoin(base, d)] + [PathJoin(base, e)]
  {
    UnderFour(base, a, b, c, d);
    UnderSnoc(base, [a, b, c, d], e);
  }

  /** One special directory lies under another: `dev/pts` in `dev`, `sys/firmware/efi` in `sys`. */
  predicate Nested(child: string, parent: string)
  {
    StartsWith(child, parent + "/")
  }

  /** The only nestings among the special directories. */
  lemma NestedSpecial(child: string, parent: string)
    requires child in SpecialDirs(true) && parent in SpecialDirs(true)
    ensures Nested(child, parent) <==> (child == "dev/pts" && parent == "dev") || (child == "sys/firmware/efi" && parent == "sys")
  {
    if Nested(child, parent) {
      NestedSpecialOnly(child, parent);
    }
    if child == "dev/pts" && parent == "dev" {
      assert child[..4] == "dev/";
    }
    if child == "sys/firmware/efi" && parent == "sys" {
      assert child[..4] == "sys/";
    }
  }

  /** A nesting among the special directories is one of the two listed. */
  lemma NestedSpecialOnly(child: string, parent: string)
    requires child in SpecialDirs(true) && parent in SpecialDirs(true) && Nested(child, parent)
    ensures (child == "dev/pts" && parent == "dev") || (child == "sys/firmware/efi" && parent == "sys")
  {
    assert SpecialDirs(true) == ["sys", "proc", "dev", "dev/pts", "sys/firmware/efi"];
    var p := parent + "/";
    assert child[..|p|] == p;
    assert child[|parent|] == '/' && child[..|parent|] == parent;
    assert child == "dev/pts" || child == "sys/firmware/efi";
    assert |parent| == 3;
    assert child[..3] == parent;
  }

  /** Every special directory that is mounted is unmounted, and each once. */
  lemma SpecialUmountsAll(efi: bool)
    ensures multiset(SpecialUmountOrder(efi)) == multiset(SpecialDirs(efi))
  {
    if efi {
      assert SpecialDirs(efi) == ["sys", "proc", "dev", "dev/pts", "sys/firmware/efi"];
    } else {
      assert SpecialDirs(efi) == ["sys", "proc", "dev", "dev/pts"];
    }
  }

  /** A special directory is unmounted before any special directory it lies under. */
  lemma SpecialUmountChildFirst(efi: bool)
    ensures forall i, j :: 0 <= i < j < |SpecialUmountOrder(efi)| ==>
              !Nested(SpecialUmountOrder(efi)[j], SpecialUmountOrder(efi)[i])
  {
    var u := SpecialUmountOrder(efi);
    var all := SpecialDirs(true);
    assert all == ["sys", "proc", "dev", "dev/pts", "sys/firmware/efi"];
    assert forall k :: 0 <= k < |u| ==> u[k] in all;
    forall i, j | 0 <= i < j < |u| ensures !Nested(u[j], u[i]) {
      NestedSpecial(u[j], u[i]);
    }
  }

  /** A special directory is mounted after any special directory it lies under. */
  lemma SpecialMountParentFirst(efi: bool)
    ensures forall i, j :: 0 <= i < j < |SpecialDirs(efi)| ==> !Nested(SpecialDirs(efi)[i], SpecialDirs(efi)[j])
  {
    var m := SpecialDirs(efi);
    var all := SpecialDirs(true);
    assert all == ["sys", "proc", "dev", "dev/pts", "sys/firmware/efi"];
    assert forall k :: 0 <= k < |m| ==> m[k] in all;
    forall i, j | 0 <= i < j < |m| ensures !Nested(m[i], m[j]) {
      NestedSpecial(m[i], m[j]);
    }
  }

  // ---------------------------------------------------------------------
  // Unmounting with a lazy fallback

  /** `umount p`, and `umount -l p` when that fails. */
  function LazyUmount(p: string, fails: Command -> bool): seq<Command>
  {
    [["umount", p]] + (if fails(["umount", p]) then [["umount", "-l", p]] else [])
  }

  /** Neither the plain nor the lazy unmount of `p` succeeded. */
  predicate UmountFailed(p: string, fails: Command -> bool)
  {
    fails(["umount", p]) && fails(["umount", "-l", p])
  }

  /** The commands of unmounting each path of `dirs` in turn, each with the lazy fallback. */
  function UmountEach(dirs: seq<string>, fails: Command -> bool): seq<Command>
  {
    if |dirs| == 0 then []
    else UmountEach(dirs[..|dirs| - 1], fails) + LazyUmount(dirs[|dirs| - 1], fails)
  }

  lemma UmountEachSnoc(dirs: seq<string>, i: nat, fails: Command -> bool)
    requires i < |dirs|
    ensures UmountEach(dirs[..i + 1], fails) == UmountEach(dirs[..i], fails) + LazyUmount(dirs[i], fails)
  {
    assert dirs[..i + 1][..i] == dirs[..i];
  }

  /** The paths of the plain `umount p` commands of a trace, in order. */
  function PlainUmounts(cmds: seq<Command>): seq<string>
  {
    if |cmds| == 0 then []
    else
      var c := cmds[|cmds| - 1];
      PlainUmounts(cmds[..|cmds| - 1]) + (if |c| == 2 && c[0] == "umount" then [c[1]] else [])
  }

  /** The paths of the `umount -l p` commands of a trace, in order. */
  function LazyUmounts(cmds: seq<Command>): seq<string>
  {
    if |cmds| == 0 then []
    else
      var c := cmds[|cmds| - 1];
      LazyUmounts(cmds[..|cmds| - 1]) + (if |c| == 3 && c[0] == "umount" && c[1] == "-l" then [c[2]] else [])
  }

  /** The paths of `dirs` whose plain unmount fails, in order (a reference definition). */
  function Retried(dirs: seq<string>, fails: Command -> bool): seq<string>
  {
    if |dirs| == 0 then []
    else Retried(dirs[..|dirs| - 1], fails) + (if fails(["umount", dirs[|dirs| - 1]]) then [dirs[|dirs| - 1]] else [])
  }

  lemma {:induction false} UmountsAppend(a: seq<Command>, b: seq<Command>)
    ensures PlainUmounts(a + b) == PlainUmounts(a) + PlainUmounts(b)
    ensures LazyUmounts(a + b) == LazyUmounts(a) + LazyUmounts(b)
    decreases |b|
  {
    if |b| > 0 {
      assert (a + b)[..|a + b| - 1] == a + b[..|b| - 1];
      UmountsAppend(a, b[..|b| - 1]);
    } else {
      assert a + b == a;
    }
  }

  lemma LazyUmountTargets(p: string, fails: Command -> bool)
    ensures PlainUmounts(LazyUmount(p, fails)) == [p]
    ensures LazyUmounts(LazyUmount(p, fails)) == if fails(["umount", p]) then [p] else []
  {
    var one: seq<Command> := [["umount", p]];
    assert one[..0] == [];
    if fails(["umount", p]) {
      var two: seq<Command> := [["umount", "-l", p]];
      assert two[..0] == [];
      UmountsAppend(one, two);
    } else {
      assert LazyUmount(p, fails) == one;
    }
  }

  /**
   * Unmounting a list of paths tries a plain unmount of every path, in the
   * list's order, and a lazy one of exactly the paths whose plain unmount failed.
   */
  lemma {:induction false} UmountEachTargets(dirs: seq<string>, fails: Command -> bool)
    ensures PlainUmounts(UmountEach(dirs, fails)) == dirs
    ensures LazyUmounts(UmountEach(dirs, fails)) == Retried(dirs, fails)
  {
    if |dirs| > 0 {
      var init, p := dirs[..|dirs| - 1], dirs[|dirs| - 1];
      var e, l := UmountEach(init, fails), LazyUmount(p, fails);
      UmountEachTargets(init, fails);
      assert UmountEach(dirs, fails) == e + l;
      UmountsAppend(e, l);
      LazyUmountTargets(p, fails);
      assert init + [p] == dirs;
      assert Retried(dirs, fails) == Retried(init, fails) + (if fails(["umount", p]) then [p] else []);
    }
  }

  /** The warnings `chroot_umount_special_dirs` queues: one per path neither unmount could release. */
  function UnableWarnings(dirs: seq<string>, fails: Command -> bool): seq<Event>
  {
    if |dirs| == 0 then []
    else
      var p := dirs[|dirs| - 1];
      UnableWarnings(dirs[..|dirs| - 1], fails) + (if UmountFailed(p, fails) then [Warning("Unable to umount " + p)] else [])
  }

  /** A warning names a path exactly when both of that path's unmount attempts failed. */
  lemma {:induction false} UnableWarningsIff(dirs: seq<string>, fails: Command -> bool, p: string)
    ensures Warning("Unable to umount " + p) in UnableWarnings(dirs, fails)
            <==> p in dirs && UmountFailed(p, fails)
  {
    if |dirs| > 0 {
      var init, q := dirs[..|dirs| - 1], dirs[|dirs| - 1];
      UnableWarningsIff(init, fails, p);
      PrefixCancel("Unable to umount ", p, q);
      assert init + [q] == dirs;
    }
  }

  /** A common prefix can be cancelled. */
  lemma PrefixCancel(prefix: string, a: string, b: string)
    ensures prefix + a == prefix + b <==> a == b
  {
    if prefix + a == prefix + b {
      assert a == (prefix + a)[|prefix|..];
      assert b == (prefix + b)[|prefix|..];
    }
  }

  /** The commands `chroot_umount_special_dirs` runs. */
  function SpecialUmountTrace(destDir: string, efi: bool, mounted: bool, fails: Command -> bool): seq<Command>
  {
    if mounted then UmountEach(Under(destDir, SpecialUmountOrder(efi)), fails) else []
  }

  /** The events `chroot_umount_special_dirs` queues. */
  function SpecialUmountEvents(destDir: string, efi: bool, mounted: bool, fails: Command -> bool): seq<Event>
  {
    if mounted then UnableWarnings(Under(destDir, SpecialUmountOrder(efi)), fails)
    else [Debug("Special dirs are not mounted. Skipping.")]
  }

  // ---------------------------------------------------------------------
  // Mounting the target in the alongside and advanced modes

  /** How the mounting of the target partitions ends. */
  datatype MountOutcome =
    | NotNeeded        // automatic mode: the partitioner has mounted root and boot
    | RootMissing      // `mount_devices["/"]` raises `KeyError`
    | RootMountFailed  // mounting root raises `CalledProcessError`
    | BootMountFailed  // mounting boot raises `CalledProcessError`
    | Mounted

  /** Mounting root at the target and, when there is a `/boot` entry, boot at its `boot` directory. */
  function RootAndBoot(root: string, md: Fstab.MountDevices): (cmds: seq<Command>)
    ensures |cmds| > 0 && cmds[0] == ["mount", root, DestDir]
  {
    [["mount", root, DestDir]]
    + (match Lookup(md, "/boot")
       case Some(boot) => [["mount", boot, PathJoin(DestDir, "boot")]]
       case None => [])
  }

  /** What the advanced-mode loop does for one `mount_devices` entry. */
  function AdvancedStep(path: string, part: string, root: string, boot: string, swap: string): seq<Command>
  {
    if path == "" then []
    else if part != root && part != boot && part != swap then [["mount", part, PathJoin(DestDir, path)]]
    else if part == swap then [["swapon", swap]]
    else []
  }

  /** The commands of the advanced-mode loop over `mount_devices`, in iteration order. */
  function AdvancedCommands(md: Fstab.MountDevices, root: string, boot: string, swap: string): seq<Command>
  {
    if |md| == 0 then []
    else
      var e := md[|md| - 1];
      AdvancedCommands(md[..|md| - 1], root, boot, swap) + AdvancedStep(e.0, e.1, root, boot, swap)
  }

  lemma AdvancedCommandsSnoc(md: Fstab.MountDevices, i: nat, root: string, boot: string, swap: string)
    requires i < |md|
    ensures AdvancedCommands(md[..i + 1], root, boot, swap)
         == AdvancedCommands(md[..i], root, boot, swap) + AdvancedStep(md[i].0, md[i].1, root, boot, swap)
  {
    assert md[..i + 1][..i] == md[..i];
  }

  /**
   * Advanced mode mounts a partition at a directory exactly when some entry
   * with a non-empty path maps to that partition, the partition is none of
   * root, boot and swap, and the directory is the entry's path joined to the
   * target.
   */
  lemma {:induction false} AdvancedMounts(md: Fstab.MountDevices, root: string, boot: string, swap: string, part: string, dir: string)
    ensures ["mount", part, dir] in AdvancedCommands(md, root, boot, swap)
            <==> part != root && part != boot && part != swap &&
                 exists k :: 0 <= k < |md| && md[k].0 != "" && md[k].1 == part && dir == PathJoin(DestDir, md[k].0)
  {
    if |md| > 0 {
      var init, e := md[..|md| - 1], md[|md| - 1];
      AdvancedMounts(init, root, boot, swap, part, dir);
      assert forall k :: 0 <= k < |md| - 1 ==> init[k] == md[k];
      if part != root && part != boot && part != swap &&
         exists k :: 0 <= k < |md| && md[k].0 != "" && md[k].1 == part && dir == PathJoin(DestDir, md[k].0) {
        var k :| 0 <= k < |md| && md[k].0 != "" && md[k].1 == part && dir == PathJoin(DestDir, md[k].0);
        if k < |md| - 1 {
          assert init[k] == md[k];
        }
      }
    }
  }

  /** Advanced mode runs `swapon` only on the swap partition, and does so when a non-empty path maps to it. */
  lemma {:induction false} AdvancedSwapon(md: Fstab.MountDevices, root: string, boot: string, swap: string, dev: string)
    ensures ["swapon", dev] in AdvancedCommands(md, root, boot, swap)
            <==> dev == swap && exists k :: 0 <= k < |md| && md[k].0 != "" && md[k].1 == swap
  {
    if |md| > 0 {
      var init, e := md[..|md| - 1], md[|md| - 1];
      AdvancedSwapon(init, root, boot, swap, dev);
      assert forall k :: 0 <= k < |md| - 1 ==> init[k] == md[k];
      if dev == swap && exists k :: 0 <= k < |md| && md[k].0 != "" && md[k].1 == swap {
        var k :| 0 <= k < |md| && md[k].0 != "" && md[k].1 == swap;
        if k < |md| - 1 {
          assert init[k] == md[k];
        }
      }
    }
  }

  // ---------------------------------------------------------------------
  // The teardown at the end of a successful installation

  /** The live media mount points, `{"source", "source_desktop"}` joined to `/`, in the set's iteration order. */
  function SourceDirs(desktopFirst: bool): seq<string>
  {
    if desktopFirst then ["/source_desktop", "/source"] else ["/source", "/source_desktop"]
  }

  /** The paths of `dirs` that `misc.mount_info` reports as mounted. */
  function MountedOnly(dirs: seq<string>, isMounted: string -> bool): seq<string>
  {
    if |dirs| == 0 then []
    else MountedOnly(dirs[..|dirs| - 1], isMounted) + (if isMounted(dirs[|dirs| - 1]) then [dirs[|dirs| - 1]] else [])
  }

  /** A live media mount point is unmounted exactly when it is reported as mounted. */
  lemma {:induction false} MountedOnlyIff(dirs: seq<string>, isMounted: string -> bool, p: string)
    ensures p in MountedOnly(dirs, isMounted) <==> p in dirs && isMounted(p)
  {
    if |dirs| > 0 {
      MountedOnlyIff(dirs[..|dirs| - 1], isMounted, p);
      assert dirs == dirs[..|dirs| - 1] + [dirs[|dirs| - 1]];
    }
  }

  /**
   * The events of unmounting `p` with an announcement first: `Unmounting p`,
   * then `Can't unmount p` when both attempts failed, reported as a warning
   * or as debug output.
   */
  function UmountReport(p: string, fails: Command -> bool, asWarning: bool): seq<Event>
  {
    [Debug("Unmounting " + p)]
    + (if UmountFailed(p, fails) then [if asWarning then Warning("Can't unmount " + p) else Debug("Can't unmount " + p)] else [])
  }

  /** The events of unmounting each path of `dirs` in turn. */
  function UmountReports(dirs: seq<string>, fails: Command -> bool, asWarning: bool): seq<Event>
  {
    if |dirs| == 0 then []
    else UmountReports(dirs[..|dirs| - 1], fails, asWarning) + UmountReport(dirs[|dirs| - 1], fails, asWarning)
  }

  lemma UmountListsSnoc(dirs: seq<string>, p: string, fails: Command -> bool, asWarning: bool)
    ensures UmountReports(dirs + [p], fails, asWarning) == UmountReports(dirs, fails, asWarning) + UmountReport(p, fails, asWarning)
    ensures UmountEach(dirs + [p], fails) == UmountEach(dirs, fails) + LazyUmount(p, fails)
  {
    assert (dirs + [p])[..|dirs|] == dirs;
  }

  lemma MountedOnlySnoc(dirs: seq<string>, i: nat, isMounted: string -> bool)
    requires i < |dirs|
    ensures MountedOnly(dirs[..i + 1], isMounted) == MountedOnly(dirs[..i], isMounted) + (if isMounted(dirs[i]) then [dirs[i]] else [])
  {
    assert dirs[..i + 1][..i] == dirs[..i];
  }

  /** Whether the teardown unmounts a `mount_devices` path: all but root, swap and the empty path. */
  predicate Unmountable(path: string)
  {
    path != "/" && path != "swap" && path != ""
  }

  /** The directories the teardown unmounts for `mount_devices`, `dest_dir + path`, in iteration order. */
  function DeviceDirs(md: Fstab.MountDevices, destDir: string): seq<string>
  {
    if |md| == 0 then []
    else
      var path := md[|md| - 1].0;
      DeviceDirs(md[..|md| - 1], destDir) + (if Unmountable(path) then [destDir + path] else [])
  }

  lemma DeviceDirsSnoc(md: Fstab.MountDevices, i: nat, destDir: string)
    requires i < |md|
    ensures DeviceDirs(md[..i + 1], destDir) == DeviceDirs(md[..i], destDir) + (if Unmountable(md[i].0) then [destDir + md[i].0] else [])
  {
    assert md[..i + 1][..i] == md[..i];
  }

  /** Every `mount_devices` path but `/`, `swap` and `""` is unmounted, and nothing else is. */
  lemma {:induction false} DeviceDirsIff(md: Fstab.MountDevices, destDir: string, dir: string)
    ensures dir in DeviceDirs(md, destDir) <==> exists k :: 0 <= k < |md| && Unmountable(md[k].0) && dir == destDir + md[k].0
  {
    if |md| > 0 {
      var init := md[..|md| - 1];
      DeviceDirsIff(init, destDir, dir);
      assert forall k :: 0 <= k < |md| - 1 ==> init[k] == md[k];
      if exists k :: 0 <= k < |md| && Unmountable(md[k].0) && dir == destDir + md[k].0 {
        var k :| 0 <= k < |md| && Unmountable(md[k].0) && dir == destDir + md[k].0;
        if k < |md| - 1 {
          assert init[k] == md[k];
        }
      }
    }
  }

  /** Python's `str()` of a dictionary of strings (for strings that need no escaping). */
  function DictRepr(md: Fstab.MountDevices): string
  {
    "{" + Join(seq(|md|, k requires 0 <= k < |md| => "'" + md[k].0 + "': '" + md[k].1 + "'"), ", ") + "}"
  }

  /** The commands of unmounting the target itself, when `misc.mount_info` says it is mounted. */
  function TargetUmount(destDir: string, isMounted: string -> bool, fails: Command -> bool): seq<Command>
  {
    if isMounted(destDir) then LazyUmount(destDir, fails) else []
  }

  /**
   * The events of unmounting the target. A failure is reported with the name
   * held by the earlier loop's variable `p`, the last source directory, not
   * the target's.
   */
  function TargetEvents(destDir: string, lastSource: string, isMounted: string -> bool, fails: Command -> bool): seq<Event>
  {
    if isMounted(destDir) then
      [Debug("Unmounting " + destDir)] + (if UmountFailed(destDir, fails) then [Debug("Can't unmount " + lastSource)] else [])
    else []
  }

  /** Every command of the success-path teardown, in order. */
  function TeardownTrace(destDir: string, efi: bool, specialMounted: bool, md: Fstab.MountDevices,
                         desktopFirst: bool, isMounted: string -> bool, fails: Command -> bool): seq<Command>
  {
    SpecialUmountTrace(destDir, efi, specialMounted, fails)
    + UmountEach(MountedOnly(SourceDirs(desktopFirst), isMounted), fails)
    + UmountEach(DeviceDirs(md, destDir), fails)
    + TargetUmount(destDir, isMounted, fails)
  }

  /** The events of the unmounting part of the teardown, in order. */
  function UnmountEvents(destDir: string, efi: bool, specialMounted: bool, md: Fstab.MountDevices,
                         desktopFirst: bool, isMounted: string -> bool, fails: Command -> bool): seq<Event>
  {
    SpecialUmountEvents(destDir, efi, specialMounted, fails)
    + UmountReports(MountedOnly(SourceDirs(desktopFirst), isMounted), fails, true)
    + [Debug("Mounted devices: " + DictRepr(md))]
    + UmountReports(DeviceDirs(md, destDir), fails, false)
    + TargetEvents(destDir, SourceDirs(desktopFirst)[1], isMounted, fails)
  }

  /** Every event of the success-path teardown, in order. */
  function TeardownEvents(destDir: string, efi: bool, specialMounted: bool, md: Fstab.MountDevices,
                          desktopFirst: bool, isMounted: string -> bool, fails: Command -> bool): seq<Event>
  {
    UnmountEvents(destDir, efi, specialMounted, md, desktopFirst, isMounted, fails)
    + [Finished("Installation finished successfully.")]
  }

  /** When the target is mounted, its unmount comes last: nothing is unmounted after the root of the new system. */
  lemma TargetUnmountedLast(destDir: string, efi: bool, specialMounted: bool, md: Fstab.MountDevices,
                            desktopFirst: bool, isMounted: string -> bool, fails: Command -> bool)
    requires isMounted(destDir)
    ensures var t := TeardownTrace(destDir, efi, specialMounted, md, desktopFirst, isMounted, fails);
            |t| > 0 && t[|t| - 1] == (if fails(["umount", destDir]) then ["umount", "-l", destDir] else ["umount", destDir])
  {
  }

  /** No event of `ev` reports the end of the installation, successful or not. */
  predicate NoOutcome(ev: seq<Event>)
  {
    forall k :: 0 <= k < |ev| ==> !ev[k].Finished? && !ev[k].Error?
  }

  lemma {:induction false} UnableWarningsNoOutcome(dirs: seq<string>, fails: Command -> bool)
    ensures NoOutcome(UnableWarnings(dirs, fails))
  {
    if |dirs| > 0 {
      UnableWarningsNoOutcome(dirs[..|dirs| - 1], fails);
    }
  }

  lemma {:induction false} UmountReportsNoOutcome(dirs: seq<string>, fails: Command -> bool, asWarning: bool)
    ensures NoOutcome(UmountReports(dirs, fails, asWarning))
  {
    if |dirs| > 0 {
      UmountReportsNoOutcome(dirs[..|dirs| - 1], fails, asWarning);
    }
  }

  lemma NoOutcomeAppend(a: seq<Event>, b: seq<Event>)
    requires NoOutcome(a) && NoOutcome(b)
    ensures NoOutcome(a + b)
  {
    forall k | 0 <= k < |a + b| ensures !(a + b)[k].Finished? && !(a + b)[k].Error? {
      if k < |a| {
        assert (a + b)[k] == a[k];
      } else {
        assert (a + b)[k] == b[k - |a|];
      }
    }
  }

  /** The teardown reports success once, as its last event, and reports no error. */
  lemma TeardownEndsFinished(destDir: string, efi: bool, specialMounted: bool, md: Fstab.MountDevices,
                             desktopFirst: bool, isMounted: string -> bool, fails: Command -> bool)
    ensures var ev := TeardownEvents(destDir, efi, specialMounted, md, desktopFirst, isMounted, fails);
            |ev| > 0 && ev[|ev| - 1] == Finished("Installation finished successfully.") && NoOutcome(ev[..|ev| - 1])
  {
    var sources := MountedOnly(SourceDirs(desktopFirst), isMounted);
    var devices := DeviceDirs(md, destDir);
    var special := SpecialUmountEvents(destDir, efi, specialMounted, fails);
    var listing: seq<Event> := [Debug("Mounted devices: " + DictRepr(md))];
    var target := TargetEvents(destDir, SourceDirs(desktopFirst)[1], isMounted, fails);
    if specialMounted {
      UnableWarningsNoOutcome(Under(destDir, SpecialUmountOrder(efi)), fails);
    }
    UmountReportsNoOutcome(sources, fails, true);
    UmountReportsNoOutcome(devices, fails, false);
    var r1, r2 := UmountReports(sources, fails, true), UmountReports(devices, fails, false);
    NoOutcomeAppend(special, r1);
    NoOutcomeAppend(special + r1, listing);
    NoOutcomeAppend(special + r1 + listing, r2);
    NoOutcomeAppend(special + r1 + listing + r2, target);
    var body := UnmountEvents(destDir, efi, specialMounted, md, desktopFirst, isMounted, fails);
    assert body == special + r1 + listing + r2 + target;
    var ev := TeardownEvents(destDir, efi, specialMounted, md, desktopFirst, isMounted, fails);
    assert ev == body + [Finished("Installation finished successfully.")];
    assert ev[..|ev| - 1] == body;
  }

  // ---------------------------------------------------------------------
  // Progress events of the extraction

  /** The `percent` events of a copy thread: each published count over the total. */
  function PercentEvents(published: seq<int>, totalFiles: int): seq<Event>
  {
    seq(|published|, k requires 0 <= k < |published| => Percent(published[k], totalFiles))
  }

  lemma PercentEventsSnoc(published: seq<int>, c: int, totalFiles: int)
    ensures PercentEvents(published + [c], totalFiles) == PercentEvents(published, totalFiles) + [Percent(c, totalFiles)]
  {
    assert PercentEvents(published + [c], totalFiles)[|published|] == Percent(c, totalFiles);
  }

  /** `PERCENTAGE_FORMAT % (total, total, 100)` */
  function FullProgressText(total: nat): string
  {
    NatToString(total) + "/" + NatToString(total) + " ( 100.00 % )"
  }
}
