/**
 * `install_system` as values: the live images are loop-mounted at `/source`
 * and `/source_desktop` unless `/proc/mounts` already shows something there,
 * then two copy threads extract them and report their progress. Whether an
 * image file exists is the oracle `present`; the contents of `/proc/mounts` at
 * each of the two scans, the line counts of the images' listings and rsync's
 * output lines are inputs.
 */
module Extraction {
  import opened Strings
  import opened Wrappers
  import opened Events
  import opened Actions
  import opened CopyProgress
  import opened Selectors

  /** The `LIVE_MEDIA_SOURCE`, `LIVE_MEDIA_DESKTOP` and `LIVE_MEDIA_TYPE` settings. */
  datatype LiveMedia = LiveMedia(image: string, desktopImage: string, mediaType: string)

  /**
   * What the extraction sees: the numbers `wc -l` prints for the listings
   * of the two images, and the lines rsync prints while it copies each one.
   */
  datatype CopyInput = CopyInput(baseCount: nat, desktopCount: nat, baseOutput: seq<string>, desktopOutput: seq<string>)

  const BaseMissing: string := "Base filesystem does not exist! Critical error (exiting)."
  const DesktopMissing: string := "Desktop filesystem does not exist! Critical error (exiting)."
  /**
   * The text of the `FileNotFoundError` of `os.mkdir("")`: the empty path
   * never exists and cannot be created.
   */
  const MkdirEmptyError: string := "[Errno 2] No such file or directory: ''"
  /** The text of the `IndexError` a short line of `/proc/mounts` raises. */
  const ScanError: string := "list index out of range"

  /** The command that loop-mounts a live image. */
  function LoopMount(image: string, mountPoint: string, mediaType: string): Command
  {
    ["mount", image, mountPoint, "-t", mediaType, "-o", "loop"]
  }

  /** The commands one source-mount step runs and, if it failed, the text of the fatal event. */
  datatype SourceMount = SourceMount(commands: seq<Command>, fatal: Option<string>)

  /**
   * Mounting one image: nothing to do when the scan finds a device at the
   * mount point, the loop mount (whose failure is fatal, reported with
   * `errorText` of the command) when it finds none, and a fatal
   * `IndexError` when the scan itself fails.
   */
  function MountSource(mounts: seq<string>, mountPoint: string, image: string, mediaType: string,
                       fails: Command -> bool, errorText: Command -> string): SourceMount
  {
    match ScanMounts(mounts, mountPoint)
    case IndexError(_) => SourceMount([], Some(ScanError))
    case Scanned(Some(_)) => SourceMount([], None)
    case Scanned(None) =>
      var cmd := LoopMount(image, mountPoint, mediaType);
      SourceMount([cmd], if fails(cmd) then Some(errorText(cmd)) else None)
  }

  /**
   * An image is mounted exactly when every line of `/proc/mounts` is well
   * formed and none names the mount point; the step is fatal exactly when a
   * line is short or the mount fails.
   */
  lemma MountSourceCases(mounts: seq<string>, mountPoint: string, image: string, mediaType: string,
                         fails: Command -> bool, errorText: Command -> string)
    ensures var r := MountSource(mounts, mountPoint, image, mediaType, fails, errorText);
            && (r.commands != [] <==> NothingMountedAt(mounts, mountPoint))
            && (r.commands == [] || r.commands == [LoopMount(image, mountPoint, mediaType)])
            && (r.fatal == Some(ScanError) <== exists k :: 0 <= k < |mounts| && |Fields(mounts[k])| < 2)
            && (r.fatal.Some? <==> (exists k :: 0 <= k < |mounts| && |Fields(mounts[k])| < 2)
                                   || (NothingMountedAt(mounts, mountPoint) && fails(LoopMount(image, mountPoint, mediaType))))
  {
    ScanMountsCases(mounts, mountPoint);
  }

  /** What `install_system` does: the commands it runs, the events it queues, and whether it ended the process. */
  datatype InstallRun = InstallRun(commands: seq<Command>, events: seq<Event>, fatal: bool)

  /** The three `info` events that announce the indexing and the first copy. */
  const IndexingEvents: seq<Event> :=
    [Info("Indexing files to be copied..."), Info("Indexing files to be copied ..."), Info("Extracting root-image ...")]

  /** The events of the two copy threads and the announcement between them. */
  function CopyEvents(total: nat, baseOutput: seq<string>, desktopOutput: seq<string>): seq<Event>
  {
    PercentEvents(RunOf(baseOutput, 0, total).published, total)
    + [Info("Extracting desktop-image ...")]
    + PercentEvents(RunOf(desktopOutput, FinalOffset(baseOutput, 0, total), total).published, total)
  }

  /** The forced full bar and its label that close the extraction. */
  function ClosingEvents(total: nat): seq<Event>
  {
    [Percent(1, 1), ProgressInfo(FullProgressText(total))]
  }

  /** The events of a successful extraction: indexing, both copies, and the closing 100 %. */
  function ExtractionEvents(x: CopyInput): seq<Event>
  {
    var total := x.baseCount + x.desktopCount;
    IndexingEvents + CopyEvents(total, x.baseOutput, x.desktopOutput) + ClosingEvents(total)
  }

  /**
   * `install_system` for the target directory `destDir`. It first creates
   * the target when it does not exist: for the empty path `os.mkdir` always
   * raises, which is fatal. A fatal event ends the process (`os._exit`), so
   * it is the last thing that happens.
   */
  function InstallSystemRun(destDir: string, media: LiveMedia, present: string -> bool, mounts1: seq<string>, mounts2: seq<string>,
                            fails: Command -> bool, errorText: Command -> string, x: CopyInput): InstallRun
  {
    if destDir == "" then InstallRun([], [Error(MkdirEmptyError)], true)
    else if !present(media.image) then InstallRun([], [Error(BaseMissing)], true)
    else if !present(media.desktopImage) then InstallRun([], [Error(DesktopMissing)], true)
    else
      var m1 := MountSource(mounts1, "/source", media.image, media.mediaType, fails, errorText);
      if m1.fatal.Some? then InstallRun(m1.commands, [Error(m1.fatal.value)], true)
      else
        var m2 := MountSource(mounts2, "/source_desktop", media.desktopImage, media.mediaType, fails, errorText);
        if m2.fatal.Some? then InstallRun(m1.commands + m2.commands, [Error(m2.fatal.value)], true)
        else InstallRun(m1.commands + m2.commands, ExtractionEvents(x), false)
  }

  /**
   * A fatal run queues one event, the error; with the empty target it is
   * always fatal and runs nothing. A run that is not fatal reports neither
   * an error nor success, mounts at most the two images, and mounts an
   * image only where nothing was mounted.
   */
  lemma InstallSystemOutcome(destDir: string, media: LiveMedia, present: string -> bool, mounts1: seq<string>, mounts2: seq<string>,
                             fails: Command -> bool, errorText: Command -> string, x: CopyInput)
    ensures var r := InstallSystemRun(destDir, media, present, mounts1, mounts2, fails, errorText, x);
            && (r.fatal ==> |r.events| == 1 && r.events[0].Error?)
            && (destDir == "" ==> r.fatal && r.commands == [] && r.events == [Error(MkdirEmptyError)])
            && (!r.fatal ==> destDir != "" && NoOutcome(r.events) && present(media.image) && present(media.desktopImage))
            && (!r.fatal ==> r.commands == (if NothingMountedAt(mounts1, "/source") then [LoopMount(media.image, "/source", media.mediaType)] else [])
                                          + (if NothingMountedAt(mounts2, "/source_desktop") then [LoopMount(media.desktopImage, "/source_desktop", media.mediaType)] else []))
  {
    var r := InstallSystemRun(destDir, media, present, mounts1, mounts2, fails, errorText, x);
    MountSourceCases(mounts1, "/source", media.image, media.mediaType, fails, errorText);
    MountSourceCases(mounts2, "/source_desktop", media.desktopImage, media.mediaType, fails, errorText);
    if !r.fatal {
      ExtractionNoOutcome(x);
    }
  }

  lemma ExtractionNoOutcome(x: CopyInput)
    ensures NoOutcome(ExtractionEvents(x))
  {
    var ev := ExtractionEvents(x);
    forall k | 0 <= k < |ev| ensures !ev[k].Finished? && !ev[k].Error? {
      ExtractionEventKinds(x, k);
    }
  }

  /**
   * Every event of the extraction is an `info`, the closing `progress-info`
   * or a `percent`; every `percent` but the closing one is a multiple of 100
   * files over the non-zero total, and the last two events are the full
   * bar and its `total/total ( 100.00 % )` label.
   */
  lemma ExtractionEventKinds(x: CopyInput, k: nat)
    requires k < |ExtractionEvents(x)|
    ensures var ev := ExtractionEvents(x);
            var total := x.baseCount + x.desktopCount;
            && (ev[k].Info? || ev[k].Percent? || ev[k].ProgressInfo?)
            && (ev[k].Percent? && k < |ev| - 2 ==> ev[k].den == total && total != 0 && ev[k].num % 100 == 0)
  {
    var total := x.baseCount + x.desktopCount;
    var first := RunOf(x.baseOutput, 0, total).published;
    var second := RunOf(x.desktopOutput, FinalOffset(x.baseOutput, 0, total), total).published;
    PublishedAreMultiples(x.baseOutput, 0, total);
    PublishedAreMultiples(x.desktopOutput, FinalOffset(x.baseOutput, 0, total), total);
    if total == 0 {
      RunWithZeroTotal(x.baseOutput, 0);
      RunWithZeroTotal(x.desktopOutput, FinalOffset(x.baseOutput, 0, total));
    }
    var ev := ExtractionEvents(x);
    var n1 := |first|;
    if k < 3 {
      assert ev[k].Info?;
    } else if k < 3 + n1 {
      assert ev[k] == PercentEvents(first, total)[k - 3];
    } else if k == 3 + n1 {
      assert ev[k].Info?;
    } else if k < |ev| - 2 {
      assert ev[k] == PercentEvents(second, total)[k - 4 - n1];
    }
  }

  /** The extraction always ends with the full bar and its label, whatever the copies did. */
  lemma ExtractionEndsFull(x: CopyInput)
    ensures var ev := ExtractionEvents(x);
            var total := x.baseCount + x.desktopCount;
            |ev| >= 6 && ev[|ev| - 2..] == [Percent(1, 1), ProgressInfo(FullProgressText(total))]
  {
  }
}
