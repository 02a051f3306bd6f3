/**
 * What `auto_fstab` promises about the files it writes, proved about the
 * specification `Fstab.FstabOf` that `Fstab.AutoFstab` computes.
 */
module FstabLemmas {
  import opened Strings
  import opened Wrappers
  import opened Fstab

  /** Every option string begins with `defaults,rw`. */
  lemma OptionsStartWithDefaults(fmt: string, isSsd: bool)
    ensures |MountOptionList(fmt, isSsd)| >= 3 && MountOptionList(fmt, isSsd)[..2] == ["defaults", "rw"]
  {
  }

  /** TRIM (`discard`) is requested exactly for an SSD holding ext4, JFS, XFS or btrfs. */
  lemma TrimOnlyOnSsd(fmt: string, isSsd: bool)
    ensures "discard" in MountOptionList(fmt, isSsd) <==> isSsd && fmt in {"ext4", "jfs", "xfs", "btrfs"}
  {
  }

  /** `noatime` on every SSD and on f2fs; `relatime` everywhere else. */
  lemma AccessTimeOption(fmt: string, isSsd: bool)
    ensures "noatime" in MountOptionList(fmt, isSsd) <==> isSsd || (!Contains(fmt, "btrfs") && Contains(fmt, "f2fs"))
    ensures "relatime" in MountOptionList(fmt, isSsd) <==> !("noatime" in MountOptionList(fmt, isSsd))
  {
  }

  /** `data=ordered` only for ext3/ext4 off SSDs (a type naming btrfs or f2fs takes those rows first). */
  lemma OrderedDataOnlyExt(fmt: string, isSsd: bool)
    ensures "data=ordered" in MountOptionList(fmt, isSsd)
            <==> !isSsd && !Contains(fmt, "btrfs") && !Contains(fmt, "f2fs") && (Contains(fmt, "ext3") || Contains(fmt, "ext4"))
  {
  }

  /** A partition with no entry in `fs_devices` contributes nothing. */
  lemma NoFilesystemSkipped(cfg: FstabSettings, fsDevices: map<string, string>, ssd: seq<string>,
                            uuid: string, mountPoint: string, partition: string)
    requires partition !in fsDevices
    ensures Lift(EntryEffectOf(cfg, fsDevices, ssd, uuid, mountPoint, partition)) == Empty
  {
  }

  /**
   * A swap partition gives exactly `UUID=<uuid> swap swap <opts> 0 0`, with
   * `discard` only when the partition path itself is listed as an SSD, and
   * nothing else, whatever its mount point and the LUKS settings.
   */
  lemma SwapEntry(cfg: FstabSettings, fsDevices: map<string, string>, ssd: seq<string>,
                  uuid: string, mountPoint: string, partition: string)
    requires partition in fsDevices && Contains(fsDevices[partition], "swap")
    ensures var e := EntryEffectOf(cfg, fsDevices, ssd, uuid, mountPoint, partition);
            && e.crypttab == None && !e.btrfs && e.rootUuid == None
            && (partition in ssd ==> e.line == Some("UUID=" + uuid + " swap swap defaults,discard 0 0"))
            && (partition !in ssd ==> e.line == Some("UUID=" + uuid + " swap swap defaults 0 0"))
  {
    var opts := SwapOptions(ssd, partition);
    assert SwapLine(uuid, opts) == "UUID=" + uuid + (" swap swap " + opts + " 0 0");
    assert " swap swap " + "defaults,discard" + " 0 0" == " swap swap defaults,discard 0 0";
    assert " swap swap " + "defaults" + " 0 0" == " swap swap defaults 0 0";
  }

  /** A non-swap, non-LUKS entry without a mount point adds no line, though it may still set `btrfs`. */
  lemma EmptyMountPointSkipped(cfg: FstabSettings, fsDevices: map<string, string>, ssd: seq<string>,
                               uuid: string, partition: string)
    requires IsGeneral(cfg, fsDevices, "", partition)
    ensures var e := EntryEffectOf(cfg, fsDevices, ssd, uuid, "", partition);
            && e.line == None && e.crypttab == None && e.rootUuid == None
            && (e.btrfs <==> Contains(FsType(fsDevices[partition]), "btrfs"))
  {
  }

  /**
   * A non-swap, non-LUKS entry with a mount point: the line has the FAT types
   * written as `vfat`, the options of its type and SSD status, and pass `1`
   * exactly for a `/` whose type fsck can check (neither btrfs nor f2fs);
   * the `/` entry records its UUID as `ruuid`.
   */
  lemma NormalEntry(cfg: FstabSettings, fsDevices: map<string, string>, ssd: seq<string>,
                    uuid: string, mountPoint: string, partition: string)
    requires IsGeneral(cfg, fsDevices, mountPoint, partition) && mountPoint != ""
    ensures var e := EntryEffectOf(cfg, fsDevices, ssd, uuid, mountPoint, partition);
            var t := FsType(fsDevices[partition]);
            var checked := mountPoint == "/" && t != "btrfs" && t != "f2fs";
            && (Contains(fsDevices[partition], "fat") ==> t == "vfat")
            && e.line.Some?
            && StartsWith(e.line.value, "UUID=" + uuid + " " + mountPoint + " " + t + " " + MountOptions(t, IsSsd(ssd, partition)) + " 0 ")
            && (checked ==> EndsWith(e.line.value, " 0 1"))
            && (!checked ==> EndsWith(e.line.value, " 0 0"))
            && e.crypttab == None
            && (e.btrfs <==> Contains(t, "btrfs"))
            && (e.rootUuid.Some? <==> mountPoint == "/")
            && (e.rootUuid.Some? ==> e.rootUuid.value == uuid)
  {
    GeneralEffect(cfg, fsDevices, ssd, uuid, mountPoint, partition);
    var t := FsType(fsDevices[partition]);
    NormalLineShape(uuid, mountPoint, t, MountOptions(t, IsSsd(ssd, partition)), PassField(mountPoint, t));
  }

  /** A line of the general branch: its fields up to the dump field, then the pass field. */
  lemma NormalLineShape(uuid: string, mountPoint: string, t: string, o: string, pass: string)
    ensures StartsWith(NormalLine(uuid, mountPoint, t, o, pass), "UUID=" + uuid + " " + mountPoint + " " + t + " " + o + " 0 ")
    ensures EndsWith(NormalLine(uuid, mountPoint, t, o, pass), " 0 " + pass)
  {
    var prefix := "UUID=" + uuid + " " + mountPoint + " " + t + " " + o;
    StartsWithConcat(prefix + " 0 ", pass);
    StartsWithConcat(prefix, " 0 " + pass);
    assert prefix + " 0 " + pass == prefix + (" 0 " + pass);
  }

  /**
   * Automatic-mode encrypted home: the fstab line names the mapper device,
   * and the crypttab line uses no key file when a root LUKS password is set.
   */
  lemma HomeOnLuksEntry(cfg: FstabSettings, fsDevices: map<string, string>, ssd: seq<string>,
                        uuid: string, mountPoint: string, partition: string)
    requires partition in fsDevices && !Contains(fsDevices[partition], "swap") && IsHomeOnLuks(cfg, mountPoint)
    ensures var e := EntryEffectOf(cfg, fsDevices, ssd, uuid, mountPoint, partition);
            && e.line == Some("/dev/mapper/cryptAntergosHome " + mountPoint + " " + fsDevices[partition] + " defaults 0 0")
            && (|cfg.luksRootPassword| > 0 ==> e.crypttab == Some("cryptAntergosHome /dev/disk/by-uuid/" + uuid + " none luks\n"))
            && (|cfg.luksRootPassword| == 0 ==> e.crypttab == Some("cryptAntergosHome /dev/disk/by-uuid/" + uuid + " /etc/luks-keys/home luks\n"))
            && !e.btrfs && e.rootUuid == None
  {
    var fmt := fsDevices[partition];
    assert MappedLine(HomeMapper, mountPoint, fmt) == HomeMapper + " " + mountPoint + " " + fmt + " defaults 0 0";
    assert HomeMapper + " " == "/dev/mapper/cryptAntergosHome ";
    HomeCrypttabText(uuid, cfg.luksRootPassword);
  }

  /** The crypttab line of the encrypted home, with and without a root LUKS password. */
  lemma HomeCrypttabText(uuid: string, luksRootPassword: string)
    ensures |luksRootPassword| > 0 ==> HomeCrypttabLine(uuid, HomeKeyfile(luksRootPassword)) == "cryptAntergosHome /dev/disk/by-uuid/" + uuid + " none luks\n"
    ensures |luksRootPassword| == 0 ==> HomeCrypttabLine(uuid, HomeKeyfile(luksRootPassword)) == "cryptAntergosHome /dev/disk/by-uuid/" + uuid + " /etc/luks-keys/home luks\n"
  {
    var kf := HomeKeyfile(luksRootPassword);
    assert HomeCrypttabLine(uuid, kf) == "cryptAntergosHome /dev/disk/by-uuid/" + uuid + (" " + kf + " luks\n");
    assert " " + "none" + " luks\n" == " none luks\n";
    assert " " + "/etc/luks-keys/home" + " luks\n" == " /etc/luks-keys/home luks\n";
  }

  /**
   * Advanced-mode LUKS volume other than `/`: the crypttab volume name is the
   * mapper path without its `/dev/mapper/` prefix, and the fstab line names the
   * mapper path itself.
   */
  lemma AdvancedLuksEntry(cfg: FstabSettings, fsDevices: map<string, string>, ssd: seq<string>,
                          uuid: string, mountPoint: string, partition: string)
    requires partition in fsDevices && !Contains(fsDevices[partition], "swap") && !IsHomeOnLuks(cfg, mountPoint)
    requires IsAdvancedLuks(cfg, mountPoint, partition)
    ensures var e := EntryEffectOf(cfg, fsDevices, ssd, uuid, mountPoint, partition);
            && mountPoint != "/"
            && e.line == Some(partition + " " + mountPoint + " " + fsDevices[partition] + " defaults 0 0")
            && e.crypttab.Some? && EndsWith(e.crypttab.value, " /dev/disk/by-uuid/" + uuid + " none luks\n")
            && (StartsWith(partition, MapperPrefix) ==>
                  exists volume :: MapperPrefix + volume == partition
                                && e.crypttab.value == volume + " /dev/disk/by-uuid/" + uuid + " none luks\n")
            && !e.btrfs && e.rootUuid == None
  {
    var volume := Drop(partition, |MapperPrefix|);
    StartsWithConcat(volume, " /dev/disk/by-uuid/" + uuid + " none luks\n");
    assert AdvancedCrypttabLine(volume, uuid) == volume + (" /dev/disk/by-uuid/" + uuid + " none luks\n");
    if StartsWith(partition, MapperPrefix) {
      assert MapperPrefix + volume == partition;
    }
  }

  lemma CombineAssoc(a: Accum, b: Accum, c: Accum)
    ensures Combine(Combine(a, b), c) == Combine(a, Combine(b, c))
  {
    assert (a.lines + b.lines) + c.lines == a.lines + (b.lines + c.lines);
    assert (a.crypttab + b.crypttab) + c.crypttab == a.crypttab + (b.crypttab + c.crypttab);
  }

  lemma CombineEmpty(a: Accum)
    ensures Combine(Empty, a) == a && Combine(a, Empty) == a
  {
    assert [] + a.lines == a.lines && a.lines + [] == a.lines;
    assert [] + a.crypttab == a.crypttab && a.crypttab + [] == a.crypttab;
  }

  /** Folding `a + b` contributes what `a` does, then what `b` does. */
  lemma {:induction false} FoldAppend(a: seq<EntryEffect>, b: seq<EntryEffect>)
    ensures Fold(a + b) == Combine(Fold(a), Fold(b))
    decreases |b|
  {
    if |b| == 0 {
      assert a + b == a;
      CombineEmpty(Fold(a));
    } else {
      var b' := b[..|b| - 1];
      assert (a + b)[..|a + b| - 1] == a + b';
      assert (a + b)[|a + b| - 1] == b[|b| - 1];
      FoldAppend(a, b');
      CombineAssoc(Fold(a), Fold(b'), Lift(b[|b| - 1]));
    }
  }

  /** The effects of `a + b` are those of `a`, then those of `b`. */
  lemma EffectsAppend(cfg: FstabSettings, a: MountDevices, b: MountDevices,
                      fsDevices: map<string, string>, ssd: seq<string>, uuidOf: string -> string)
    ensures Effects(cfg, a + b, fsDevices, ssd, uuidOf)
         == Effects(cfg, a, fsDevices, ssd, uuidOf) + Effects(cfg, b, fsDevices, ssd, uuidOf)
  {
    var ea := Effects(cfg, a, fsDevices, ssd, uuidOf);
    var eb := Effects(cfg, b, fsDevices, ssd, uuidOf);
    var es := Effects(cfg, a + b, fsDevices, ssd, uuidOf);
    forall k | 0 <= k < |es|
      ensures es[k] == (ea + eb)[k]
    {
      if k < |a| {
        assert (a + b)[k] == a[k];
      } else {
        assert (a + b)[k] == b[k - |a|];
      }
    }
  }

  /** The entries of `a + b` contribute what `a` does, then what `b` does. */
  lemma EntriesAppend(cfg: FstabSettings, a: MountDevices, b: MountDevices,
                      fsDevices: map<string, string>, ssd: seq<string>, uuidOf: string -> string)
    ensures Entries(cfg, a + b, fsDevices, ssd, uuidOf)
         == Combine(Entries(cfg, a, fsDevices, ssd, uuidOf), Entries(cfg, b, fsDevices, ssd, uuidOf))
  {
    EffectsAppend(cfg, a, b, fsDevices, ssd, uuidOf);
    FoldAppend(Effects(cfg, a, fsDevices, ssd, uuidOf), Effects(cfg, b, fsDevices, ssd, uuidOf));
  }

  /** A single entry contributes its own effect. */
  lemma EntriesSingle(cfg: FstabSettings, mountPoint: string, partition: string,
                      fsDevices: map<string, string>, ssd: seq<string>, uuidOf: string -> string)
    ensures Entries(cfg, [(mountPoint, partition)], fsDevices, ssd, uuidOf)
         == Lift(EntryEffectOf(cfg, fsDevices, ssd, uuidOf(partition), mountPoint, partition))
  {
    var es := Effects(cfg, [(mountPoint, partition)], fsDevices, ssd, uuidOf);
    assert es[..0] == [];
    assert es[0] == EntryEffectOf(cfg, fsDevices, ssd, uuidOf(partition), mountPoint, partition);
    assert Fold(es) == Combine(Empty, Lift(es[0]));
    CombineEmpty(Lift(es[0]));
  }

  /** Dropping an entry whose partition has no filesystem leaves all of `auto_fstab`'s output unchanged. */
  lemma SkipsPartitionWithoutFilesystem(cfg: FstabSettings, a: MountDevices, mountPoint: string, partition: string,
                                        b: MountDevices, fsDevices: map<string, string>, ssd: seq<string>,
                                        uuidOf: string -> string)
    requires partition !in fsDevices
    ensures FstabOf(cfg, a + [(mountPoint, partition)] + b, fsDevices, ssd, uuidOf) == FstabOf(cfg, a + b, fsDevices, ssd, uuidOf)
  {
    var ea := Entries(cfg, a, fsDevices, ssd, uuidOf);
    EntriesAppend(cfg, a + [(mountPoint, partition)], b, fsDevices, ssd, uuidOf);
    EntriesAppend(cfg, a, [(mountPoint, partition)], fsDevices, ssd, uuidOf);
    EntriesAppend(cfg, a, b, fsDevices, ssd, uuidOf);
    EntriesSingle(cfg, mountPoint, partition, fsDevices, ssd, uuidOf);
    CombineEmpty(ea);
  }

  /** A fold's `btrfs` flag is set only by some effect that sets it. */
  lemma {:induction false} FoldBtrfsSound(es: seq<EntryEffect>)
    requires Fold(es).btrfs
    ensures exists k :: 0 <= k < |es| && es[k].btrfs
    decreases |es|
  {
    var n := |es| - 1;
    if !es[n].btrfs {
      var init := es[..n];
      FoldBtrfsSound(init);
      var k :| 0 <= k < |init| && init[k].btrfs;
      assert es[k] == init[k];
    }
  }

  /** Any effect that sets `btrfs` sets the flag of the whole fold. */
  lemma {:induction false} FoldBtrfsComplete(es: seq<EntryEffect>, k: int)
    requires 0 <= k < |es| && es[k].btrfs
    ensures Fold(es).btrfs
    decreases |es|
  {
    var n := |es| - 1;
    if k < n {
      var init := es[..n];
      assert init[k] == es[k];
      FoldBtrfsComplete(init, k);
    }
  }

  /** Entry `k` is handled by the general branch and its type names btrfs. */
  predicate BtrfsEntry(cfg: FstabSettings, md: MountDevices, fsDevices: map<string, string>, k: int)
  {
    0 <= k < |md| && IsGeneral(cfg, fsDevices, md[k].0, md[k].1) && Contains(FsType(fsDevices[md[k].1]), "btrfs")
  }

  /** The one entry-level fact `BtrfsSetting` needs. */
  lemma EffectBtrfs(cfg: FstabSettings, fsDevices: map<string, string>, ssd: seq<string>,
                    uuid: string, mountPoint: string, partition: string)
    ensures EntryEffectOf(cfg, fsDevices, ssd, uuid, mountPoint, partition).btrfs
            <==> IsGeneral(cfg, fsDevices, mountPoint, partition) && Contains(FsType(fsDevices[partition]), "btrfs")
  {
  }

  /** `btrfs` is set exactly when some non-swap, non-LUKS entry has a btrfs type. */
  lemma BtrfsSetting(cfg: FstabSettings, md: MountDevices, fsDevices: map<string, string>,
                     ssd: seq<string>, uuidOf: string -> string)
    ensures FstabOf(cfg, md, fsDevices, ssd, uuidOf).btrfs <==> exists k :: BtrfsEntry(cfg, md, fsDevices, k)
  {
    var es := Effects(cfg, md, fsDevices, ssd, uuidOf);
    if FstabOf(cfg, md, fsDevices, ssd, uuidOf).btrfs {
      FoldBtrfsSound(es);
      var k :| 0 <= k < |es| && es[k].btrfs;
      EffectBtrfs(cfg, fsDevices, ssd, uuidOf(md[k].1), md[k].0, md[k].1);
      assert BtrfsEntry(cfg, md, fsDevices, k);
    }
    if exists k :: BtrfsEntry(cfg, md, fsDevices, k) {
      var k :| BtrfsEntry(cfg, md, fsDevices, k);
      EffectBtrfs(cfg, fsDevices, ssd, uuidOf(md[k].1), md[k].0, md[k].1);
      FoldBtrfsComplete(es, k);
    }
  }

  /** No effect after `k` records a root UUID. */
  predicate NoRootUuidAfter(es: seq<EntryEffect>, k: int)
  {
    forall j :: 0 <= j < |es| && k < j ==> es[j].rootUuid.None?
  }

  /** A fold's `ruuid`, when set, is that of the last effect recording one. */
  lemma {:induction false} FoldRuuidLast(es: seq<EntryEffect>)
    requires Fold(es).ruuid.Some?
    ensures exists k :: 0 <= k < |es| && es[k].rootUuid == Fold(es).ruuid && NoRootUuidAfter(es, k)
    decreases |es|
  {
    var n := |es| - 1;
    if es[n].rootUuid.Some? {
      assert NoRootUuidAfter(es, n);
    } else {
      var init := es[..n];
      FoldRuuidLast(init);
      var k :| 0 <= k < |init| && init[k].rootUuid == Fold(init).ruuid && NoRootUuidAfter(init, k);
      forall j | k < j < |es|
        ensures es[j].rootUuid.None?
      {
        if j < n {
          assert es[j] == init[j];
        }
      }
      assert es[k] == init[k];
    }
  }

  /** Any effect that records a root UUID sets the fold's `ruuid`. */
  lemma {:induction false} FoldRuuidComplete(es: seq<EntryEffect>, k: int)
    requires 0 <= k < |es| && es[k].rootUuid.Some?
    ensures Fold(es).ruuid.Some?
    decreases |es|
  {
    var n := |es| - 1;
    if k < n {
      var init := es[..n];
      assert init[k] == es[k];
      FoldRuuidComplete(init, k);
    }
  }

  /** Entry `k` is the `/` entry handled by the general branch. */
  predicate RootEntry(cfg: FstabSettings, md: MountDevices, fsDevices: map<string, string>, k: int)
  {
    0 <= k < |md| && md[k].0 == "/" && IsGeneral(cfg, fsDevices, md[k].0, md[k].1)
  }

  /** The one entry-level fact the `ruuid` lemmas need. */
  lemma EffectRootUuid(cfg: FstabSettings, fsDevices: map<string, string>, ssd: seq<string>,
                       uuid: string, mountPoint: string, partition: string)
    ensures var e := EntryEffectOf(cfg, fsDevices, ssd, uuid, mountPoint, partition);
            && (e.rootUuid.Some? <==> mountPoint == "/" && IsGeneral(cfg, fsDevices, mountPoint, partition))
            && (e.rootUuid.Some? ==> e.rootUuid.value == uuid)
  {
  }

  /** `ruuid` is written exactly when a `/` entry reaches the general branch. */
  lemma RootUuidWritten(cfg: FstabSettings, md: MountDevices, fsDevices: map<string, string>,
                        ssd: seq<string>, uuidOf: string -> string)
    ensures Entries(cfg, md, fsDevices, ssd, uuidOf).ruuid.Some? <==> exists k :: RootEntry(cfg, md, fsDevices, k)
  {
    if Entries(cfg, md, fsDevices, ssd, uuidOf).ruuid.Some? {
      RootUuidLast(cfg, md, fsDevices, ssd, uuidOf);
    }
    if exists k :: RootEntry(cfg, md, fsDevices, k) {
      var k :| RootEntry(cfg, md, fsDevices, k);
      EffectRootUuid(cfg, fsDevices, ssd, uuidOf(md[k].1), md[k].0, md[k].1);
      FoldRuuidComplete(Effects(cfg, md, fsDevices, ssd, uuidOf), k);
    }
  }

  /** No entry after `k` is a `/` entry of the general branch. */
  predicate NoRootAfter(cfg: FstabSettings, md: MountDevices, fsDevices: map<string, string>, k: int)
  {
    forall j :: k < j < |md| ==> !RootEntry(cfg, md, fsDevices, j)
  }

  /** When written, `ruuid` holds the UUID of the last `/` entry that reached the general branch. */
  lemma RootUuidLast(cfg: FstabSettings, md: MountDevices, fsDevices: map<string, string>,
                     ssd: seq<string>, uuidOf: string -> string)
    requires Entries(cfg, md, fsDevices, ssd, uuidOf).ruuid.Some?
    ensures exists k :: RootEntry(cfg, md, fsDevices, k)
                        && Entries(cfg, md, fsDevices, ssd, uuidOf).ruuid.value == uuidOf(md[k].1)
                        && NoRootAfter(cfg, md, fsDevices, k)
  {
    var es := Effects(cfg, md, fsDevices, ssd, uuidOf);
    FoldRuuidLast(es);
    var k :| 0 <= k < |es| && es[k].rootUuid == Fold(es).ruuid && NoRootUuidAfter(es, k);
    EffectRootUuid(cfg, fsDevices, ssd, uuidOf(md[k].1), md[k].0, md[k].1);
    forall j | k < j < |md|
      ensures !RootEntry(cfg, md, fsDevices, j)
    {
      assert es[j].rootUuid.None?;
      EffectRootUuid(cfg, fsDevices, ssd, uuidOf(md[j].1), md[j].0, md[j].1);
    }
    assert RootEntry(cfg, md, fsDevices, k);
  }

  lemma {:induction false} JoinSnocEmpty(lines: seq<string>, sep: string)
    requires |lines| >= 1
    ensures Join(lines, sep) + sep == Join(lines + [""], sep)
    decreases |lines|
  {
    if |lines| == 1 {
      assert lines + [""] == [lines[0], ""];
      assert [lines[0], ""][1..] == [""];
    } else {
      JoinSnocEmpty(lines[1..], sep);
      assert (lines + [""])[1..] == lines[1..] + [""];
    }
  }

  /** `'\n'.join` of two non-empty runs of lines is the join of each, separated by a newline. */
  lemma {:induction false} JoinAppend(a: seq<string>, b: seq<string>, sep: string)
    requires |a| >= 1 && |b| >= 1
    ensures Join(a + b, sep) == Join(a, sep) + sep + Join(b, sep)
    decreases |a|
  {
    if |a| == 1 {
      assert (a + b)[1..] == b;
    } else {
      JoinAppend(a[1..], b, sep);
      assert (a + b)[1..] == a[1..] + b;
    }
  }

  /** Joining a header, a run of lines and a last line. */
  lemma JoinLayout(header: seq<string>, lines: seq<string>, last: string)
    requires |header| >= 1
    ensures JoinLines(header + lines + [last]) == JoinLines(header) + JoinLines(lines + [last])
    ensures EndsWith(JoinLines(header + lines + [last]), "\n" + last + "\n")
  {
    assert header + lines + [last] == header + (lines + [last]);
    JoinAppend(header, lines + [last], "\n");
    var pre := if |lines| == 0 then Join(header, "\n") else JoinLines(header) + Join(lines, "\n");
    if |lines| == 0 {
      assert lines + [last] == [last];
    } else {
      JoinAppend(lines, [last], "\n");
    }
    assert JoinLines(header + lines + [last]) == pre + ("\n" + last + "\n");
    StartsWithConcat(pre, "\n" + last + "\n");
  }

  /**
   * The file is the 8 header comments, then one line per contributing entry in
   * `mount_devices` order, then the tmpfs line, each ended by a newline.
   */
  lemma FstabLayout(cfg: FstabSettings, md: MountDevices, fsDevices: map<string, string>,
                    ssd: seq<string>, uuidOf: string -> string)
    ensures var text := FstabOf(cfg, md, fsDevices, ssd, uuidOf).text;
            var lines := Entries(cfg, md, fsDevices, ssd, uuidOf).lines;
            text == JoinLines(Header) + JoinLines(lines + [TmpfsLine])
            && StartsWith(text, JoinLines(Header))
            && EndsWith(text, "\n" + TmpfsLine + "\n")
  {
    var lines := Entries(cfg, md, fsDevices, ssd, uuidOf).lines;
    JoinLayout(Header, lines, TmpfsLine);
    StartsWithConcat(JoinLines(Header), JoinLines(lines + [TmpfsLine]));
  }

  /** Splitting the text of any file written this way on newlines gives back its lines and a final empty piece. */
  lemma LinesRoundTrip(lines: seq<string>)
    requires |lines| >= 1
    requires forall k :: 0 <= k < |lines| ==> '\n' !in lines[k]
    ensures SplitOn(JoinLines(lines), '\n') == lines + [""]
  {
    JoinSnocEmpty(lines, "\n");
    forall k | 0 <= k < |lines + [""]|
      ensures '\n' !in (lines + [""])[k]
    {
      if k < |lines| {
        assert (lines + [""])[k] == lines[k];
      }
    }
    SplitJoin(lines + [""], '\n');
  }

  const ScenarioSettings := FstabSettings(Automatic, false, false, "")
  const ScenarioFilesystems := map["/dev/sda2" := "ext4", "/dev/sda1" := "ext4", "/dev/sda3" := "swap"]

  /** ext4 is none of the types `auto_fstab` tests for first. */
  lemma Ext4Type()
    ensures !Contains("ext4", "swap") && !Contains("ext4", "fat") && !Contains("ext4", "btrfs") && !Contains("ext4", "f2fs")
  {
    MissingCharNotContained("ext4", "swap", 0);
    MissingCharNotContained("ext4", "fat", 0);
    MissingCharNotContained("ext4", "btrfs", 0);
    MissingCharNotContained("ext4", "f2fs", 0);
  }

  /** The effect of an entry that reaches the general branch, spelled out. */
  lemma GeneralEffect(cfg: FstabSettings, fsDevices: map<string, string>, ssd: seq<string>,
                      uuid: string, mountPoint: string, partition: string)
    requires IsGeneral(cfg, fsDevices, mountPoint, partition) && mountPoint != ""
    ensures var t := FsType(fsDevices[partition]);
            EntryEffectOf(cfg, fsDevices, ssd, uuid, mountPoint, partition)
              == EntryEffect(Some(NormalLine(uuid, mountPoint, t, MountOptions(t, IsSsd(ssd, partition)), PassField(mountPoint, t))),
                             None, Contains(t, "btrfs"), if mountPoint == "/" then Some(uuid) else None)
  {
  }

  lemma ScenarioSsd(ssd: seq<string>)
    requires ssd == [] || ssd == ["/dev/sda2"]
    ensures IsSsd(ssd, "/dev/sda2") <==> ssd != []
    ensures !IsSsd(ssd, "/dev/sda1")
  {
    ContainsSameLength("/dev/sda1", "/dev/sda2");
    ContainsSameLength("/dev/sda2", "/dev/sda2");
    if ssd != [] {
      assert ssd[0] == "/dev/sda2";
    }
  }

  /**
   * A plain three-partition layout: `/` on `/dev/sda2`, `/boot` on `/dev/sda1`
   * (both ext4) and swap on `/dev/sda3`, with either no SSD or `/dev/sda2` as
   * the SSD. The `/` line gets the ext4 options of its SSD status and pass 1.
   */
  lemma ScenarioRoot(uuid: string, ssd: seq<string>, mountPoint: string, partition: string)
    requires ssd == [] || ssd == ["/dev/sda2"]
    requires mountPoint == "/" && partition == "/dev/sda2"
    ensures EntryEffectOf(ScenarioSettings, ScenarioFilesystems, ssd, uuid, mountPoint, partition)
         == EntryEffect(Some("UUID=" + uuid + " / ext4 " + MountOptions("ext4", ssd != []) + " 0 1"), None, false, Some(uuid))
  {
    ScenarioSsd(ssd);
    Ext4Type();
    assert IsGeneral(ScenarioSettings, ScenarioFilesystems, "/", "/dev/sda2");
    GeneralEffect(ScenarioSettings, ScenarioFilesystems, ssd, uuid, "/", "/dev/sda2");
    RootLineText(uuid, MountOptions("ext4", ssd != []));
  }

  lemma RootLineText(uuid: string, o: string)
    ensures NormalLine(uuid, "/", "ext4", o, PassField("/", "ext4")) == "UUID=" + uuid + " / ext4 " + o + " 0 1"
  {
    assert NormalLine(uuid, "/", "ext4", o, "1") == "UUID=" + uuid + (" " + "/" + " " + "ext4" + " ") + o + (" 0 " + "1");
    assert " " + "/" + " " + "ext4" + " " == " / ext4 ";
    assert " 0 " + "1" == " 0 1";
  }

  /** In the same layout `/boot` gets the non-SSD ext4 options and pass 0. */
  lemma ScenarioBoot(uuid: string, ssd: seq<string>, mountPoint: string, partition: string)
    requires ssd == [] || ssd == ["/dev/sda2"]
    requires mountPoint == "/boot" && partition == "/dev/sda1"
    ensures EntryEffectOf(ScenarioSettings, ScenarioFilesystems, ssd, uuid, mountPoint, partition)
         == EntryEffect(Some(NormalLine(uuid, "/boot", "ext4", MountOptions("ext4", false), "0")), None, false, None)
  {
    ScenarioSsd(ssd);
    Ext4Type();
    assert ScenarioFilesystems["/dev/sda1"] == "ext4";
    assert IsGeneral(ScenarioSettings, ScenarioFilesystems, "/boot", "/dev/sda1");
    GeneralEffect(ScenarioSettings, ScenarioFilesystems, ssd, uuid, "/boot", "/dev/sda1");
    assert FsType("ext4") == "ext4";
    assert PassField("/boot", "ext4") == "0";
  }

  /** The ext4 options: `data=ordered` off SSDs, `noatime,discard` on them. */
  lemma ScenarioOptions(ssd: seq<string>)
    ensures MountOptionList("ext4", ssd != [])
         == if ssd == [] then ["defaults", "rw", "relatime", "data=ordered"] else ["defaults", "rw", "noatime", "discard"]
    ensures MountOptionList("ext4", false) == ["defaults", "rw", "relatime", "data=ordered"]
  {
    Ext4Type();
    assert Contains("ext4", "ext4");
  }

  /** In the same layout swap gets `defaults`. */
  lemma ScenarioSwap(uuid: string, ssd: seq<string>, mountPoint: string, partition: string)
    requires ssd == [] || ssd == ["/dev/sda2"]
    requires mountPoint == "swap" && partition == "/dev/sda3"
    ensures EntryEffectOf(ScenarioSettings, ScenarioFilesystems, ssd, uuid, mountPoint, partition)
         == EntryEffect(Some("UUID=" + uuid + " swap swap defaults 0 0"), None, false, None)
  {
    assert Contains("swap", "swap");
    assert "/dev/sda3" !in ssd;
    SwapEntry(ScenarioSettings, ScenarioFilesystems, ssd, uuid, "swap", "/dev/sda3");
  }

  /** A three-entry table contributes its entries in order. */
  lemma ScenarioEntries(cfg: FstabSettings, md: MountDevices, fs: map<string, string>, ssd: seq<string>, uuidOf: string -> string)
    requires |md| == 3
    ensures Entries(cfg, md, fs, ssd, uuidOf)
         == Combine(Combine(Lift(EntryEffectOf(cfg, fs, ssd, uuidOf(md[0].1), md[0].0, md[0].1)),
                            Lift(EntryEffectOf(cfg, fs, ssd, uuidOf(md[1].1), md[1].0, md[1].1))),
                    Lift(EntryEffectOf(cfg, fs, ssd, uuidOf(md[2].1), md[2].0, md[2].1)))
  {
    EntriesSnoc(cfg, md, fs, ssd, uuidOf, 0);
    EntriesSnoc(cfg, md, fs, ssd, uuidOf, 1);
    EntriesSnoc(cfg, md, fs, ssd, uuidOf, 2);
    assert md[..0] == [];
    assert md[..3] == md;
    CombineEmpty(Lift(EntryEffectOf(cfg, fs, ssd, uuidOf(md[0].1), md[0].0, md[0].1)));
  }
}
