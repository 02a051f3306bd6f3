/**
 * `auto_fstab`: the text of the target's `/etc/fstab`, the lines appended to
 * `/etc/crypttab`, and the two settings it writes (`btrfs`, `ruuid`), derived
 * from the mount point -> partition table, the partition -> filesystem table,
 * the SSD devices and a UUID lookup.
 */
module Fstab {
  import opened Strings
  import opened Wrappers

  datatype PartitionMode = Automatic | Alongside | Advanced

  /** The settings `auto_fstab` reads (`partition_mode`, `use_luks`, `use_lvm`, `luks_root_password`). */
  datatype FstabSettings = FstabSettings(mode: PartitionMode, useLuks: bool, useLvm: bool, luksRootPassword: string)

  /** `mount_devices` in its iteration order: (mount point, partition path) pairs. */
  type MountDevices = seq<(string, string)>

  /** Everything `auto_fstab` produces. `btrfs` tells whether it set the `btrfs` setting to true. */
  datatype FstabResult = FstabResult(text: string, crypttab: seq<string>, btrfs: bool, ruuid: Option<string>)

  const Header: seq<string> := [
    "# /etc/fstab: static file system information.",
    "#",
    "# Use 'blkid' to print the universally unique identifier for a",
    "# device; this may be used with UUID= as a more robust way to name devices",
    "# that works even if disks are added and removed. See fstab(5).",
    "#",
    "# <file system> <mount point>   <type>  <options>       <dump>  <pass>",
    "#"]

  const TmpfsLine: string := "tmpfs /tmp tmpfs defaults,noatime,mode=1777 0 0"
  const HomeMapper: string := "/dev/mapper/cryptAntergosHome"
  const MapperPrefix: string := "/dev/mapper/"

  /** Some SSD device name occurs in the partition path. */
  predicate IsSsd(ssd: seq<string>, partition: string)
  {
    exists k :: 0 <= k < |ssd| && Contains(partition, ssd[k])
  }

  /** The `for ssd_device in self.ssd` loop of `auto_fstab`. */
  method DetectSsd(ssd: seq<string>, partition: string) returns (isSsd: bool)
    ensures isSsd <==> IsSsd(ssd, partition)
  {
    isSsd := false;
    for k := 0 to |ssd|
      invariant isSsd <==> exists j :: 0 <= j < k && Contains(partition, ssd[j])
    {
      if Contains(partition, ssd[k]) {
        isSsd := true;
      }
    }
  }

  function SwapOptions(ssd: seq<string>, partition: string): string
  {
    if partition in ssd then "defaults,discard" else "defaults"
  }

  function SwapLine(uuid: string, opts: string): string
  {
    "UUID=" + uuid + " swap swap " + opts + " 0 0"
  }

  /** The crypttab key file of the automatic-mode encrypted home: none when a root LUKS password was given. */
  function HomeKeyfile(luksRootPassword: string): string
  {
    if |luksRootPassword| > 0 then "none" else "/etc/luks-keys/home"
  }

  function HomeCrypttabLine(uuid: string, keyfile: string): string
  {
    "cryptAntergosHome /dev/disk/by-uuid/" + uuid + " " + keyfile + " luks\n"
  }

  function AdvancedCrypttabLine(volume: string, uuid: string): string
  {
    volume + " /dev/disk/by-uuid/" + uuid + " none luks\n"
  }

  /** An fstab line for a device-mapper device, with default options and no check. */
  function MappedLine(device: string, mountPoint: string, fmt: string): string
  {
    device + " " + mountPoint + " " + fmt + " defaults 0 0"
  }

  /** fstab mounts every FAT flavour as `vfat`. */
  function FsType(fmt: string): (t: string)
    ensures Contains(fmt, "fat") ==> t == "vfat"
    ensures !Contains(fmt, "fat") ==> t == fmt
  {
    if Contains(fmt, "fat") then "vfat" else fmt
  }

  /** Normalising a type twice changes nothing, and a type names FAT exactly when its normal form does. */
  lemma FsTypeIdempotent(fmt: string)
    ensures FsType(FsType(fmt)) == FsType(fmt)
    ensures Contains(FsType(fmt), "fat") <==> Contains(fmt, "fat")
  {
    if Contains(fmt, "fat") {
      assert StartsWith("vfat"[1..], "fat");
    }
  }

  /** The mount options, by filesystem and SSD status, one option per element. */
  function MountOptionList(fmt: string, isSsd: bool): seq<string>
  {
    if !isSsd then
      if Contains(fmt, "btrfs") then ["defaults", "rw", "relatime", "space_cache", "autodefrag", "inode_cache"]
      else if Contains(fmt, "f2fs") then ["defaults", "rw", "noatime"]
      else if Contains(fmt, "ext3") || Contains(fmt, "ext4") then ["defaults", "rw", "relatime", "data=ordered"]
      else ["defaults", "rw", "relatime"]
    else
      if fmt == "ext4" || fmt == "jfs" || fmt == "xfs" then ["defaults", "rw", "noatime", "discard"]
      else if fmt == "btrfs" then ["defaults", "rw", "noatime", "compress=lzo", "ssd", "discard", "space_cache", "autodefrag", "inode_cache"]
      else ["defaults", "rw", "noatime"]
  }

  /** The `opts` field of a normal fstab line. */
  function MountOptions(fmt: string, isSsd: bool): string
  {
    Join(MountOptionList(fmt, isSsd), ",")
  }

  /** The `<pass>` field: only a root filesystem that fsck can check gets `1`. */
  function PassField(mountPoint: string, fmt: string): string
  {
    if mountPoint == "/" && fmt != "btrfs" && fmt != "f2fs" then "1" else "0"
  }

  function NormalLine(uuid: string, mountPoint: string, fmt: string, opts: string, pass: string): string
  {
    "UUID=" + uuid + " " + mountPoint + " " + fmt + " " + opts + " 0 " + pass
  }

  /** The automatic-mode encrypted home case (home on LUKS without LVM). */
  predicate IsHomeOnLuks(cfg: FstabSettings, mountPoint: string)
  {
    Contains(mountPoint, "/home") && cfg.mode == Automatic && cfg.useLuks && !cfg.useLvm
  }

  /** The advanced-mode LUKS case; `mount_point is not "/"` is read as inequality. */
  predicate IsAdvancedLuks(cfg: FstabSettings, mountPoint: string, partition: string)
  {
    cfg.mode == Advanced && mountPoint != "/" && cfg.useLuks && Contains(partition, "/dev/mapper")
  }

  /** The entry is handled by the general branch (after the swap and LUKS cases). */
  predicate IsGeneral(cfg: FstabSettings, fsDevices: map<string, string>, mountPoint: string, partition: string)
  {
    partition in fsDevices && !Contains(fsDevices[partition], "swap")
    && !IsHomeOnLuks(cfg, mountPoint) && !IsAdvancedLuks(cfg, mountPoint, partition)
  }

  /** What one `mount_devices` entry contributes. */
  datatype EntryEffect = EntryEffect(line: Option<string>, crypttab: Option<string>, btrfs: bool, rootUuid: Option<string>)

  /** One iteration of the `for mount_point in self.mount_devices` loop. */
  function EntryEffectOf(cfg: FstabSettings, fsDevices: map<string, string>, ssd: seq<string>,
                         uuid: string, mountPoint: string, partition: string): EntryEffect
  {
    if partition !in fsDevices then EntryEffect(None, None, false, None)
    else
      var fmt := fsDevices[partition];
      if Contains(fmt, "swap") then
        EntryEffect(Some(SwapLine(uuid, SwapOptions(ssd, partition))), None, false, None)
      else if IsHomeOnLuks(cfg, mountPoint) then
        EntryEffect(Some(MappedLine(HomeMapper, mountPoint, fmt)),
                    Some(HomeCrypttabLine(uuid, HomeKeyfile(cfg.luksRootPassword))), false, None)
      else if IsAdvancedLuks(cfg, mountPoint, partition) then
        EntryEffect(Some(MappedLine(partition, mountPoint, fmt)),
                    Some(AdvancedCrypttabLine(Drop(partition, |MapperPrefix|), uuid)), false, None)
      else
        var t := FsType(fmt);
        var btrfs := Contains(t, "btrfs");
        if mountPoint == "" then EntryEffect(None, None, btrfs, None)
        else
          EntryEffect(Some(NormalLine(uuid, mountPoint, t, MountOptions(t, IsSsd(ssd, partition)), PassField(mountPoint, t))),
                      None, btrfs, if mountPoint == "/" then Some(uuid) else None)
  }

  /** What a run of entries contributes: entry lines, crypttab lines, the btrfs flag and the last `ruuid` written. */
  datatype Accum = Accum(lines: seq<string>, crypttab: seq<string>, btrfs: bool, ruuid: Option<string>)

  const Empty: Accum := Accum([], [], false, None)

  /** The contribution of `b` after that of `a`: later `ruuid` writes win. */
  function Combine(a: Accum, b: Accum): Accum
  {
    Accum(a.lines + b.lines, a.crypttab + b.crypttab, a.btrfs || b.btrfs,
          if b.ruuid.Some? then b.ruuid else a.ruuid)
  }

  function OptionSeq<T>(o: Option<T>): seq<T>
  {
    if o.Some? then [o.value] else []
  }

  function Lift(e: EntryEffect): Accum
  {
    Accum(OptionSeq(e.line), OptionSeq(e.crypttab), e.btrfs, e.rootUuid)
  }

  function EffectAt(cfg: FstabSettings, md: MountDevices, fsDevices: map<string, string>, ssd: seq<string>,
                    uuidOf: string -> string, k: nat): EntryEffect
    requires k < |md|
  {
    EntryEffectOf(cfg, fsDevices, ssd, uuidOf(md[k].1), md[k].0, md[k].1)
  }

  /** The effect of each entry of `md`, in iteration order. */
  function Effects(cfg: FstabSettings, md: MountDevices, fsDevices: map<string, string>, ssd: seq<string>,
                   uuidOf: string -> string): seq<EntryEffect>
  {
    seq(|md|, k requires 0 <= k < |md| => EffectAt(cfg, md, fsDevices, ssd, uuidOf, k))
  }

  /** The contribution of a run of entry effects. */
  function Fold(es: seq<EntryEffect>): Accum
    decreases |es|
  {
    if |es| == 0 then Empty
    else Combine(Fold(es[..|es| - 1]), Lift(es[|es| - 1]))
  }

  /** The contribution of all entries, in iteration order. */
  function Entries(cfg: FstabSettings, md: MountDevices, fsDevices: map<string, string>, ssd: seq<string>,
                   uuidOf: string -> string): Accum
  {
    Fold(Effects(cfg, md, fsDevices, ssd, uuidOf))
  }

  /** Extending the prefix by one entry adds that entry's contribution. */
  lemma EntriesSnoc(cfg: FstabSettings, md: MountDevices, fsDevices: map<string, string>, ssd: seq<string>,
                    uuidOf: string -> string, i: nat)
    requires i < |md|
    ensures Entries(cfg, md[..i + 1], fsDevices, ssd, uuidOf)
         == Combine(Entries(cfg, md[..i], fsDevices, ssd, uuidOf),
                    Lift(EntryEffectOf(cfg, fsDevices, ssd, uuidOf(md[i].1), md[i].0, md[i].1)))
  {
    var es := Effects(cfg, md[..i + 1], fsDevices, ssd, uuidOf);
    assert es[..i] == Effects(cfg, md[..i], fsDevices, ssd, uuidOf);
    assert es[i] == EntryEffectOf(cfg, fsDevices, ssd, uuidOf(md[i].1), md[i].0, md[i].1);
  }

  /** `'\n'.join(lines) + '\n'` */
  function JoinLines(lines: seq<string>): string
  {
    Join(lines, "\n") + "\n"
  }

  /** The specification of `auto_fstab`. */
  function FstabOf(cfg: FstabSettings, md: MountDevices, fsDevices: map<string, string>, ssd: seq<string>,
                   uuidOf: string -> string): FstabResult
  {
    var acc := Entries(cfg, md, fsDevices, ssd, uuidOf);
    FstabResult(JoinLines(Header + acc.lines + [TmpfsLine]), acc.crypttab, acc.btrfs, acc.ruuid)
  }

  /**
   * The body of the `for mount_point in self.mount_devices` loop of
   * `auto_fstab` for one entry, each `continue` returning what the entry has
   * added so far.
   */
  method ProcessEntry(cfg: FstabSettings, fsDevices: map<string, string>, ssd: seq<string>,
                      uuid: string, mountPoint: string, partition: string) returns (e: EntryEffect)
    ensures e == EntryEffectOf(cfg, fsDevices, ssd, uuid, mountPoint, partition)
  {
    e := EntryEffect(None, None, false, None);
    if partition !in fsDevices {
      // It has no filesystem defined: skip it.
      return;
    }
    var fmt := fsDevices[partition];
    if Contains(fmt, "swap") {
      e := e.(line := Some(SwapLine(uuid, SwapOptions(ssd, partition))));
      return;
    }
    if Contains(mountPoint, "/home") && cfg.mode == Automatic && cfg.useLuks && !cfg.useLvm {
      e := e.(crypttab := Some(HomeCrypttabLine(uuid, HomeKeyfile(cfg.luksRootPassword))));
      e := e.(line := Some(MappedLine(HomeMapper, mountPoint, fmt)));
      return;
    }
    if cfg.mode == Advanced && mountPoint != "/" && cfg.useLuks && Contains(partition, "/dev/mapper") {
      var volume := Drop(partition, |MapperPrefix|);
      e := e.(crypttab := Some(AdvancedCrypttabLine(volume, uuid)));
      e := e.(line := Some(MappedLine(partition, mountPoint, fmt)));
      return;
    }
    fmt := FsType(fmt);
    if Contains(fmt, "btrfs") {
      e := e.(btrfs := true);
    }
    if mountPoint == "" {
      return;
    }
    var isSsd := DetectSsd(ssd, partition);
    var opts := MountOptions(fmt, isSsd);
    var pass := PassField(mountPoint, fmt);
    if mountPoint == "/" {
      e := e.(rootUuid := Some(uuid));
    }
    e := e.(line := Some(NormalLine(uuid, mountPoint, fmt, opts, pass)));
  }

  /**
   * `auto_fstab`, with the file writes, `os.chmod` and `os.makedirs` calls left
   * out: the loop appends to `all_lines` and to the crypttab, and records the
   * `btrfs` and `ruuid` settings writes.
   */
  method AutoFstab(cfg: FstabSettings, md: MountDevices, fsDevices: map<string, string>, ssd: seq<string>,
                   uuidOf: string -> string) returns (r: FstabResult)
    ensures r == FstabOf(cfg, md, fsDevices, ssd, uuidOf)
  {
    var allLines := Header;
    var crypttab: seq<string> := [];
    var btrfs := false;
    var ruuid: Option<string> := None;
    for i := 0 to |md|
      invariant allLines == Header + Entries(cfg, md[..i], fsDevices, ssd, uuidOf).lines
      invariant crypttab == Entries(cfg, md[..i], fsDevices, ssd, uuidOf).crypttab
      invariant btrfs == Entries(cfg, md[..i], fsDevices, ssd, uuidOf).btrfs
      invariant ruuid == Entries(cfg, md[..i], fsDevices, ssd, uuidOf).ruuid
    {
      var e := ProcessEntry(cfg, fsDevices, ssd, uuidOf(md[i].1), md[i].0, md[i].1);
      EntriesSnoc(cfg, md, fsDevices, ssd, uuidOf, i);
      allLines := allLines + OptionSeq(e.line);
      crypttab := crypttab + OptionSeq(e.crypttab);
      btrfs := btrfs || e.btrfs;
      if e.rootUuid.Some? {
        ruuid := e.rootUuid;
      }
    }
    assert md[..|md|] == md;
    allLines := allLines + [TmpfsLine];
    r := FstabResult(JoinLines(allLines), crypttab, btrfs, ruuid);
  }
}
