/**
 * Small choices the installer makes from what it finds on disk: the desktop
 * environment and the display manager of the target, the device mounted at a
 * directory according to `/proc/mounts`, and the new user's groups. Whether a
 * file exists is the oracle `present`.
 */
module Selectors {
  import opened Strings
  import opened Wrappers

  /** An entry of `desktop_environments`: the session binary and the `.desktop` file's name. */
  datatype DesktopEnvironment = DesktopEnvironment(executable: string, desktopFile: string)

  /** `desktop_environments`, in the order they are tried. */
  const DesktopEnvironments: seq<DesktopEnvironment> := [
    DesktopEnvironment("/usr/bin/startkde", "plasma"),
    DesktopEnvironment("/usr/bin/startkde", "kde-plasma"),
    DesktopEnvironment("/usr/bin/gnome-session", "gnome"),
    DesktopEnvironment("/usr/bin/startxfce4", "xfce"),
    DesktopEnvironment("/usr/bin/cinnamon-session", "cinnamon-session"),
    DesktopEnvironment("/usr/bin/mate-session", "mate"),
    DesktopEnvironment("/usr/bin/enlightenment_start", "enlightenment"),
    DesktopEnvironment("/usr/bin/lxsession", "LXDE"),
    DesktopEnvironment("/usr/bin/startlxde", "LXDE"),
    DesktopEnvironment("/usr/bin/lxqt-session", "lxqt"),
    DesktopEnvironment("/usr/bin/pekwm", "pekwm"),
    DesktopEnvironment("/usr/bin/openbox-session", "openbox")
  ]

  /** Both files of a desktop environment exist under the target root `destDir`. */
  predicate Installed(destDir: string, de: DesktopEnvironment, present: string -> bool)
  {
    present(destDir + de.executable) && present(destDir + "/usr/share/xsessions/" + de.desktopFile + ".desktop")
  }

  /** `find_desktop_environment`: the first entry of `desktop_environments` that is installed. */
  method FindDesktopEnvironment(destDir: string, present: string -> bool) returns (r: Option<DesktopEnvironment>)
    ensures r.None? <==> forall k :: 0 <= k < |DesktopEnvironments| ==> !Installed(destDir, DesktopEnvironments[k], present)
    ensures r.Some? ==> exists k :: 0 <= k < |DesktopEnvironments| && DesktopEnvironments[k] == r.value
                          && Installed(destDir, r.value, present)
                          && forall j :: 0 <= j < k ==> !Installed(destDir, DesktopEnvironments[j], present)
  {
    var envs := DesktopEnvironments;
    for i := 0 to |envs|
      invariant forall j :: 0 <= j < i ==> !Installed(destDir, envs[j], present)
    {
      if Installed(destDir, envs[i], present) {
        return Some(envs[i]);
      }
    }
    return None;
  }

  /** The checks of the display-manager detection, in the order they are made: a name and the binary that selects it. */
  function DisplayManagerChecks(destDir: string): seq<(string, string)>
  {
    [ ("slim", "/usr/bin/slim"), ("sddm", "/usr/bin/sddm"),
      ("lightdm", destDir + "/usr/bin/lightdm"), ("gdm", destDir + "/usr/bin/gdm"),
      ("mdm", destDir + "/usr/bin/mdm"), ("lxdm", destDir + "/usr/bin/lxdm"),
      ("kdm", destDir + "/usr/bin/kdm") ]
  }

  /**
   * The name of the last check in `checks` whose binary is present, `none`
   * when there is none (a reference definition of "last match wins").
   */
  function LastPresent(checks: seq<(string, string)>, present: string -> bool): string
  {
    if |checks| == 0 then "none"
    else if present(checks[|checks| - 1].1) then checks[|checks| - 1].0
    else LastPresent(checks[..|checks| - 1], present)
  }

  /** `none` exactly when no binary is present; otherwise a present check that no later check overrides. */
  lemma {:induction false} LastPresentSpec(checks: seq<(string, string)>, present: string -> bool)
    requires forall k :: 0 <= k < |checks| ==> checks[k].0 != "none"
    ensures var dm := LastPresent(checks, present);
            && (dm == "none" <==> forall k :: 0 <= k < |checks| ==> !present(checks[k].1))
            && (dm != "none" ==> exists k :: 0 <= k < |checks| && checks[k].0 == dm && present(checks[k].1)
                                   && forall j :: k < j < |checks| ==> !present(checks[j].1))
  {
    if |checks| > 0 && !present(checks[|checks| - 1].1) {
      var init := checks[..|checks| - 1];
      assert forall k :: 0 <= k < |init| ==> init[k] == checks[k];
      LastPresentSpec(init, present);
    }
  }

  /**
   * The display manager the installer configures: each check that finds its
   * binary overwrites the choice, so the last one found wins; `none` when no
   * binary is found. `slim` and `sddm` are looked for on the live system, the
   * others in the target.
   */
  function DetectDesktopManager(destDir: string, present: string -> bool): string
  {
    if present(destDir + "/usr/bin/kdm") then "kdm"
    else if present(destDir + "/usr/bin/lxdm") then "lxdm"
    else if present(destDir + "/usr/bin/mdm") then "mdm"
    else if present(destDir + "/usr/bin/gdm") then "gdm"
    else if present(destDir + "/usr/bin/lightdm") then "lightdm"
    else if present("/usr/bin/sddm") then "sddm"
    else if present("/usr/bin/slim") then "slim"
    else "none"
  }

  /** The chain of checks picks the last display manager whose binary is present. */
  lemma DetectIsLastPresent(destDir: string, present: string -> bool)
    ensures DetectDesktopManager(destDir, present) == LastPresent(DisplayManagerChecks(destDir), present)
  {
    var cs := DisplayManagerChecks(destDir);
    LastPresentSnoc(cs, present, 7);
    LastPresentSnoc(cs, present, 6);
    LastPresentSnoc(cs, present, 5);
    LastPresentSnoc(cs, present, 4);
    LastPresentSnoc(cs, present, 3);
    LastPresentSnoc(cs, present, 2);
    LastPresentSnoc(cs, present, 1);
    assert cs[..7] == cs;
  }

  /** The display manager found is `none` exactly when no binary is present, and otherwise one whose binary is present. */
  lemma DetectedIsPresent(destDir: string, present: string -> bool)
    ensures var dm, cs := DetectDesktopManager(destDir, present), DisplayManagerChecks(destDir);
            && (dm == "none" <==> forall k :: 0 <= k < |cs| ==> !present(cs[k].1))
            && (dm != "none" ==> exists k :: 0 <= k < |cs| && cs[k].0 == dm && present(cs[k].1)
                                   && forall j :: k < j < |cs| ==> !present(cs[j].1))
  {
    var cs := DisplayManagerChecks(destDir);
    DetectIsLastPresent(destDir, present);
    assert forall k :: 0 <= k < |cs| ==> cs[k].0 != "none";
    LastPresentSpec(cs, present);
  }

  lemma LastPresentSnoc(checks: seq<(string, string)>, present: string -> bool, k: nat)
    requires 0 < k <= |checks|
    ensures LastPresent(checks[..k], present)
         == if present(checks[k - 1].1) then checks[k - 1].0 else LastPresent(checks[..k - 1], present)
  {
    assert checks[..k][..k - 1] == checks[..k - 1];
  }

  /** What scanning `/proc/mounts` gives: the device, or an `IndexError` on a line with fewer than two fields. */
  datatype Scan = Scanned(device: Option<string>) | IndexError(line: nat)

  /**
   * The scan of `/proc/mounts` from line `i` on, with `device` the device
   * found so far.
   */
  function ScanFrom(mounts: seq<string>, mountPoint: string, i: nat, device: Option<string>): Scan
    decreases |mounts| - i
  {
    if i >= |mounts| then Scanned(device)
    else
      var fields := Fields(mounts[i]);
      if |fields| < 2 then IndexError(i)
      else ScanFrom(mounts, mountPoint, i + 1, if fields[1] == mountPoint then Some(fields[0]) else device)
  }

  /** What `check_source_folder` gives for the lines of `/proc/mounts`. */
  function ScanMounts(mounts: seq<string>, mountPoint: string): Scan
  {
    ScanFrom(mounts, mountPoint, 0, None)
  }

  /** Nothing is mounted at `mountPoint` and every line of `mounts` has at least two fields. */
  predicate NothingMountedAt(mounts: seq<string>, mountPoint: string)
  {
    forall k :: 0 <= k < |mounts| ==> |Fields(mounts[k])| >= 2 && Fields(mounts[k])[1] != mountPoint
  }

  /**
   * The scan fails exactly when some line has fewer than two fields, and
   * finds no device exactly when, besides, no line names the mount point.
   */
  lemma {:induction false} ScanFromCases(mounts: seq<string>, mountPoint: string, i: nat, device: Option<string>)
    requires i <= |mounts|
    ensures ScanFrom(mounts, mountPoint, i, device).IndexError?
            <==> exists k :: i <= k < |mounts| && |Fields(mounts[k])| < 2
    ensures ScanFrom(mounts, mountPoint, i, device) == Scanned(None)
            <==> device.None? && forall k :: i <= k < |mounts| ==> |Fields(mounts[k])| >= 2 && Fields(mounts[k])[1] != mountPoint
    decreases |mounts| - i
  {
    if i < |mounts| {
      var fields := Fields(mounts[i]);
      if |fields| >= 2 {
        ScanFromCases(mounts, mountPoint, i + 1, if fields[1] == mountPoint then Some(fields[0]) else device);
      }
    }
  }

  lemma ScanMountsCases(mounts: seq<string>, mountPoint: string)
    ensures ScanMounts(mounts, mountPoint).IndexError? <==> exists k :: 0 <= k < |mounts| && |Fields(mounts[k])| < 2
    ensures ScanMounts(mounts, mountPoint) == Scanned(None) <==> NothingMountedAt(mounts, mountPoint)
  {
    ScanFromCases(mounts, mountPoint, 0, None);
  }

  /**
   * `check_source_folder`: the device of the last line of `/proc/mounts`
   * whose second field is `mountPoint`. A line with fewer than two fields
   * stops the scan with an `IndexError`.
   */
  method CheckSourceFolder(mounts: seq<string>, mountPoint: string) returns (r: Scan)
    ensures r == ScanMounts(mounts, mountPoint)
    ensures r.IndexError? <==> exists k :: 0 <= k < |mounts| && |Fields(mounts[k])| < 2
    ensures r.IndexError? ==> r.line < |mounts| && |Fields(mounts[r.line])| < 2
                              && forall j :: 0 <= j < r.line ==> |Fields(mounts[j])| >= 2
    ensures r.Scanned? && r.device.None? ==> forall k :: 0 <= k < |mounts| ==> Fields(mounts[k])[1] != mountPoint
    ensures r.Scanned? && r.device.Some? ==>
              exists k :: 0 <= k < |mounts| && Fields(mounts[k])[1] == mountPoint && Fields(mounts[k])[0] == r.device.value
                          && forall j :: k < j < |mounts| ==> Fields(mounts[j])[1] != mountPoint
  {
    var device: Option<string> := None;
    ghost var at := 0;
    for i := 0 to |mounts|
      invariant forall j :: 0 <= j < i ==> |Fields(mounts[j])| >= 2
      invariant ScanFrom(mounts, mountPoint, i, device) == ScanMounts(mounts, mountPoint)
      invariant device.None? ==> forall j :: 0 <= j < i ==> Fields(mounts[j])[1] != mountPoint
      invariant device.Some? ==> at < i && Fields(mounts[at])[1] == mountPoint && Fields(mounts[at])[0] == device.value
                                 && forall j :: at < j < i ==> Fields(mounts[j])[1] != mountPoint
    {
      var fields := Fields(mounts[i]);
      if |fields| < 2 {
        return IndexError(i);
      }
      if fields[1] == mountPoint {
        device := Some(fields[0]);
        at := i;
      }
    }
    return Scanned(device);
  }

  /** The groups of the new user before the optional `autologin` one. */
  const BaseGroups: seq<string> := ["lp", "video", "network", "storage", "wheel", "audio"]

  /**
   * The `-G` argument of `useradd`: `,autologin` is appended only when the
   * `require_password` setting is the value `False` (an `is False` test, so a
   * missing setting does not count).
   */
  function DefaultGroups(requirePassword: Option<bool>): string
  {
    "lp,video,network,storage,wheel,audio" + (if requirePassword == Some(false) then ",autologin" else "")
  }

  /** The group list, split at its commas, is the base groups plus `autologin` exactly when no password is required. */
  lemma DefaultGroupsList(requirePassword: Option<bool>)
    ensures SplitOn(DefaultGroups(requirePassword), ',') == BaseGroups + (if requirePassword == Some(false) then ["autologin"] else [])
  {
    var groups := BaseGroups + (if requirePassword == Some(false) then ["autologin"] else []);
    GroupsText(requirePassword == Some(false));
    forall k | 0 <= k < |groups| ensures ',' !in groups[k] {
      assert groups[k] in ["lp", "video", "network", "storage", "wheel", "audio", "autologin"];
    }
    SplitJoin(groups, ',');
  }

  lemma BaseGroupsText()
    ensures Join(BaseGroups, ",") == "lp,video,network,storage,wheel,audio"
  {
  }

  lemma GroupsText(autologin: bool)
    ensures "lp,video,network,storage,wheel,audio" + (if autologin then ",autologin" else "")
         == Join(BaseGroups + (if autologin then ["autologin"] else []), ",")
  {
    BaseGroupsText();
    if autologin {
      JoinSnoc(BaseGroups, "autologin", ",");
    } else {
      assert BaseGroups + [] == BaseGroups;
    }
  }

  lemma {:induction false} JoinSnoc(parts: seq<string>, last: string, sep: string)
    requires |parts| > 0
    ensures Join(parts + [last], sep) == Join(parts, sep) + sep + last
  {
    if |parts| == 1 {
      assert (parts + [last])[1..] == [last];
    } else {
      JoinSnoc(parts[1..], last, sep);
      assert (parts + [last])[1..] == parts[1..] + [last];
    }
  }
}
