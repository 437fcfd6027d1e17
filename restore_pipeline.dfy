/** The restore pipeline of `RestoreViewController` as functions over the state
    it touches: the files, the `stopDownload` flag, the progress values handed
    to `updateProgressLabel`, the errors sent to the crash reporter and the
    download requests sent to iCloud. The class in restore_view_controller.dfy
    is proved to compute exactly these functions. */
module RestorePipeline {
  import opened Optional
  import opened FileSystem
  import opened MixinFile

  datatype Failure =
    | CloudFailure(code: nat)       // an iCloud query or download request threw
    | FileFailure(io: IOError)      // a FileManager call threw
    | DatabaseCloseFailure          // closing the open database threw
    | ZipFailure(code: nat)         // the archive could not be extracted

  /** The answer of `cloudDownloaded()`, which may throw. */
  datatype Probe = Downloaded | NotDownloaded | ProbeFailed(code: nat)

  /** One pass of the polling loop: what happened during the one-second sleep
      (the controller was deinitialised, the iCloud daemon wrote bytes at the
      item's local path) and what `cloudDownloaded()` answers right after. As
      written, the running block and the instance method running the loop
      hold the controller, so no pass is a deinitialising one there
      (`RetainedLoopNeverCancels`). */
  datatype Tick = Tick(deinitialized: bool, arrived: Option<Bytes>, probe: Probe)

  /** The scripted behaviour of one iCloud item: its first download-state
      answer, whether the download request throws, and the polling passes. */
  datatype CloudItem = CloudItem(probe: Probe, startFailure: Option<nat>, ticks: seq<Tick>)

  /** What the Zip library does with one archive: the progress values it
      reports, the files it writes (even when it then fails) and its error. */
  datatype Extraction = Extraction(trace: seq<real>, written: map<string, Bytes>, failure: Option<nat>)

  /** Everything the pipeline depends on but does not change. `cloud` holds the
      items `cloudExist()` reports, keyed by their local path. */
  datatype Setting = Setting(root: Path, backupDir: Path, cloud: map<Path, CloudItem>,
                             unzip: Bytes -> Extraction, databaseCloseFails: bool,
                             unwritable: set<Path>, undeletable: set<Path>)

  /** Everything the pipeline changes. */
  datatype World = World(files: map<Path, Bytes>, stop: bool, progress: seq<real>,
                         reports: seq<Failure>, requests: seq<Path>)

  /** How a throwing call ended; StillWaiting: the script ran out while the
      polling loop, which has no bound, was still waiting. */
  datatype Wait = Returned | Threw(error: Failure) | StillWaiting

  datatype Step = Step(wait: Wait, world: World)

  datatype CategoryStep = CategoryStep(wait: Wait, advanced: bool, world: World)

  datatype RunOutcome = Restored | DatabaseStageFailed(error: Failure) | MediaStageFailed(error: Failure) | StillDownloading

  const DownloadStartedProgress: real := 0.1
  const DatabaseRestoredProgress: real := 0.3
  const ExtractionWeight: real := 0.35

  /** The categories restored from archives, in order. */
  const MediaCategories: seq<ChatDirectory> := [Photos, Audios]

  // ---------------------------------------------------------------- paths

  /** `MixinFile.databaseURL`: directly in the account root. */
  function DatabaseUrl(root: Path): (p: Path)
    ensures |p| == |root| + 1 && Under(root, p) && p[|root|] == "mixin.db"
  {
    root + ["mixin.db"]
  }

  /** The backup of the database: the last component of `MixinFile.backupDatabase`,
      directly in the backup directory. */
  function CloudDatabaseUrl(backupDir: Path): (p: Path)
    ensures |p| == |backupDir| + 1 && Under(backupDir, p) && p[|backupDir|] == "mixin.backup.db"
  {
    backupDir + ["mixin.backup.db"]
  }

  function LowerChar(c: char): char {
    if 'A' <= c <= 'Z' then (c as int + 32) as char else c
  }

  /** `lowercased()` on ASCII text. */
  function Lowercased(s: string): (r: string)
    ensures |r| == |s| && forall i :: 0 <= i < |s| ==> r[i] == LowerChar(s[i])
  {
    if s == [] then [] else [LowerChar(s[0])] + Lowercased(s[1..])
  }

  lemma LowercasedLiteral(s: string, expected: string)
    requires |s| == |expected| && forall i :: 0 <= i < |s| ==> LowerChar(s[i]) == expected[i]
    ensures Lowercased(s) == expected
  {
  }

  /** The cloud archive of a category: mixin.<lower-cased raw value>.zip,
      directly in the backup directory. */
  function CloudArchiveUrl(backupDir: Path, cat: ChatDirectory): (p: Path)
    ensures |p| == |backupDir| + 1 && Under(backupDir, p)
  {
    backupDir + ["mixin." + Lowercased(cat.RawValue()) + ".zip"]
  }

  /** An archive's name is "mixin.", the lower-cased raw value and ".zip". */
  lemma CloudArchiveNameParts(backupDir: Path, cat: ChatDirectory)
    ensures var n := CloudArchiveUrl(backupDir, cat)[|backupDir|];
            && |n| == |cat.RawValue()| + 10 && n[..6] == "mixin." && n[|n| - 4..] == ".zip"
            && n[6..|n| - 4] == Lowercased(cat.RawValue())
  {
    var n := "mixin." + Lowercased(cat.RawValue()) + ".zip";
    assert n[6..|n| - 4] == Lowercased(cat.RawValue());
  }

  /** The local staging copy of a category's archive: Chat/<raw value>.zip,
      beside the chat directories. */
  function StagingZipUrl(root: Path, cat: ChatDirectory): (p: Path)
    ensures |p| == |root| + 2 && Under(root + ["Chat"], p) && p[|root| + 1] == cat.RawValue() + ".zip"
  {
    var p := root + ["Chat", cat.RawValue() + ".zip"];
    assert p[..|root| + 1] == root + ["Chat"];
    p
  }

  /** Where a category's archive is extracted: its chat directory, apart
      from its staging zip. */
  function ExtractionDir(root: Path, cat: ChatDirectory): (p: Path)
    ensures Disjoint(p, StagingZipUrl(root, cat))
  {
    ChatDirectoryUrl(root, cat, None)
  }

  lemma CloudArchiveNames(backupDir: Path)
    ensures CloudArchiveUrl(backupDir, Photos) == backupDir + ["mixin.photos.zip"]
    ensures CloudArchiveUrl(backupDir, Audios) == backupDir + ["mixin.audios.zip"]
  {
    assert LowerChar('P') == 'p' && LowerChar('A') == 'a';
    LowercasedLiteral("Photos", "photos");
    LowercasedLiteral("Audios", "audios");
    assert "mixin." + "photos" + ".zip" == "mixin.photos.zip";
    assert "mixin." + "audios" + ".zip" == "mixin.audios.zip";
  }

  /** Paths that extend two disjoint directories never meet. */
  lemma DisjointExtensions(x: Path, y: Path, a: Path, b: Path)
    requires Disjoint(x, y)
    ensures x + a != y + b
  {
    var p, q := x + a, y + b;
    if |x| <= |y| {
      assert p[..|x|] == x && q[..|x|] == y[..|x|];
    } else {
      assert q[..|y|] == y && p[..|y|] == x[..|y|];
    }
  }

  /** Nothing below one of two disjoint directories lies below a
      subdirectory of the other. */
  lemma DisjointNotUnder(x: Path, y: Path, a: Path, c: Path)
    requires Disjoint(x, y)
    ensures !Under(y + c, x + a)
  {
    var p := x + a;
    if |y + c| < |p| {
      var rest := p[|y + c|..];
      assert p == p[..|y + c|] + rest;
      assert (y + c) + rest == y + (c + rest);
      DisjointExtensions(x, y, a, c + rest);
    }
  }

  /** Being below a directory implies being below its parents. */
  lemma UnderParent(parent: Path, dir: Path, p: Path)
    requires Under(parent, dir)
    ensures Under(dir, p) ==> Under(parent, p)
  {
  }

  /** The local paths the media stage writes never coincide with one another,
      with the local database or with another category's paths. */
  lemma LocalPathsDistinct(root: Path, cat: ChatDirectory, other: ChatDirectory, p: Path)
    ensures StagingZipUrl(root, cat) != DatabaseUrl(root)
    ensures !Under(ExtractionDir(root, cat), DatabaseUrl(root))
    ensures !Under(ExtractionDir(root, cat), StagingZipUrl(root, other))
    ensures cat != other ==> StagingZipUrl(root, cat) != StagingZipUrl(root, other)
    ensures cat != other && Under(ExtractionDir(root, cat), p) ==> !Under(ExtractionDir(root, other), p)
  {
    var dir, dirOther := ExtractionDir(root, cat), ExtractionDir(root, other);
    assert DatabaseUrl(root)[|root|] == "mixin.db";
    assert StagingZipUrl(root, cat)[|root|] == "Chat";
    if cat != other {
      var s, t := cat.RawValue() + ".zip", other.RawValue() + ".zip";
      assert StagingZipUrl(root, cat)[|root| + 1] == s && StagingZipUrl(root, other)[|root| + 1] == t;
      assert |s| != |t| || s[0] != t[0];
    }
  }

  // ---------------------------------------------------------------- downloadFromCloud

  /** The polling loop of `downloadFromCloud` over the passes `ticks`: after
      each sleep it checks, in this order, `stopDownload`, `cloudDownloaded()`
      and whether a non-empty file is at `url`, and returns on the first that
      holds. Only the file at `url` and the stop flag change. */
  function Settle(ticks: seq<Tick>, url: Path, w: World): (s: Step)
    ensures s.world.progress == w.progress && s.world.reports == w.reports && s.world.requests == w.requests
    ensures forall p :: p != url ==> (p in s.world.files <==> p in w.files)
    ensures forall p :: p != url && p in w.files ==> s.world.files[p] == w.files[p]
    ensures w.stop ==> s.world.stop
    ensures s.wait.Threw? ==> s.wait.error.CloudFailure? && !s.world.stop
    ensures s.wait.Threw? ==> exists i :: 0 <= i < |ticks| && ticks[i].probe == ProbeFailed(s.wait.error.code)
    ensures s.wait.Returned? ==>
              || s.world.stop
              || (exists i :: 0 <= i < |ticks| && ticks[i].probe == Downloaded)
              || (url in s.world.files && |s.world.files[url]| > 0)
    ensures s.wait.StillWaiting? ==> s.world.stop == w.stop
    // still waiting: no pass so far could end the loop
    ensures s.wait.StillWaiting? ==>
              forall i :: 0 <= i < |ticks| ==> !ticks[i].deinitialized && ticks[i].probe == NotDownloaded
    ensures s.wait.StillWaiting? && ticks != [] ==>
              !s.world.stop && !(url in s.world.files && |s.world.files[url]| > 0)
    decreases |ticks|
  {
    if ticks == [] then Step(StillWaiting, w)
    else
      var t := ticks[0];
      var files := if t.arrived.Some? then w.files[url := t.arrived.value] else w.files;
      var w' := w.(files := files, stop := w.stop || t.deinitialized);
      if w'.stop then Step(Returned, w')
      else match t.probe
        case ProbeFailed(code) => Step(Threw(CloudFailure(code)), w')
        case Downloaded => Step(Returned, w')
        case NotDownloaded =>
          if url in files && |files[url]| > 0 then Step(Returned, w')
          else
            var s := Settle(ticks[1..], url, w');
            assert forall i :: 0 <= i < |ticks[1..]| ==> ticks[1..][i] == ticks[i + 1];
            s
  }

  /** Cancellation is checked first: once the flag is set (or set during the
      sleep), the next pass returns normally without asking iCloud anything. */
  lemma SettleStopsWhenCancelled(ticks: seq<Tick>, url: Path, w: World)
    requires ticks != [] && (w.stop || ticks[0].deinitialized)
    ensures Settle(ticks, url, w).wait == Returned
    ensures Settle(ticks, url, w).world.stop
  {
  }

  /** The bytes at `url`, if a file is there. */
  function At(files: map<Path, Bytes>, url: Path): Option<Bytes> {
    if url in files then Some(files[url]) else None
  }

  /** The bytes at the item's path after the passes `ticks`, starting from
      `before`: the last bytes that landed, if any did. */
  function Landed(before: Option<Bytes>, ticks: seq<Tick>): Option<Bytes>
    decreases |ticks|
  {
    if ticks == [] then before
    else Landed(if ticks[0].arrived.Some? then ticks[0].arrived else before, ticks[1..])
  }

  /** A pass that ends the loop: the controller went away, the probe
      answered something other than "not yet", or a non-empty file is at the
      path (`landed`: what is there after the pass). */
  predicate Ends(t: Tick, landed: Option<Bytes>) {
    t.deinitialized || !t.probe.NotDownloaded? || (landed.Some? && |landed.value| > 0)
  }

  /** How a pass that ends the loop ends it: only a failed probe throws. */
  function EndOf(t: Tick): Wait {
    if !t.deinitialized && t.probe.ProbeFailed? then Threw(CloudFailure(t.probe.code)) else Returned
  }

  /** The loop stops at the first pass that ends it and not before: when `k`
      is that pass it returns as the pass says, with the stop flag set only if
      the controller went away then; when no pass ends it, it is still
      waiting once the script runs out. */
  lemma {:induction false} SettleEndsAtFirstPass(ticks: seq<Tick>, url: Path, w: World, k: nat)
    requires !w.stop && k <= |ticks|
    requires forall i :: 0 <= i < k ==> !Ends(ticks[i], Landed(At(w.files, url), ticks[..i + 1]))
    requires k < |ticks| ==> Ends(ticks[k], Landed(At(w.files, url), ticks[..k + 1]))
    ensures Settle(ticks, url, w).wait == if k < |ticks| then EndOf(ticks[k]) else StillWaiting
    ensures Settle(ticks, url, w).world.stop == (k < |ticks| && ticks[k].deinitialized)
    decreases |ticks|
  {
    if ticks != [] {
      var t := ticks[0];
      var before := At(w.files, url);
      var next := if t.arrived.Some? then t.arrived else before;
      var files := if t.arrived.Some? then w.files[url := t.arrived.value] else w.files;
      var w' := w.(files := files, stop := w.stop || t.deinitialized);
      assert At(files, url) == next;
      assert ticks[..1][1..] == [];
      assert Landed(before, ticks[..1]) == next;
      if k > 0 {
        forall i | 0 <= i < k - 1
          ensures !Ends(ticks[1..][i], Landed(next, ticks[1..][..i + 1]))
        {
          assert ticks[..i + 2][1..] == ticks[1..][..i + 1];
          assert !Ends(ticks[i + 1], Landed(before, ticks[..i + 2]));
        }
        if k < |ticks| {
          assert ticks[..k + 1][1..] == ticks[1..][..k];
        }
        SettleEndsAtFirstPass(ticks[1..], url, w', k - 1);
      }
    }
  }

  /** The loop as written: the block that runs it holds the controller
      strongly, so `deinit` cannot run during the sleep and no pass is a
      deinitialising one. Then the stop flag stays clear, and the
      cancellation branch never fires. */
  lemma {:induction false} RetainedLoopNeverCancels(ticks: seq<Tick>, url: Path, w: World)
    requires !w.stop && forall i :: 0 <= i < |ticks| ==> !ticks[i].deinitialized
    ensures !Settle(ticks, url, w).world.stop
    decreases |ticks|
  {
    if ticks != [] {
      var t := ticks[0];
      var files := if t.arrived.Some? then w.files[url := t.arrived.value] else w.files;
      assert forall i :: 0 <= i < |ticks[1..]| ==> ticks[1..][i] == ticks[i + 1];
      RetainedLoopNeverCancels(ticks[1..], url, w.(files := files));
    }
  }

  /** A stalled download as written: iCloud keeps answering "not yet" and no
      bytes land. With the controller held by the block, the loop is still
      polling after any number of passes, even once the screen is gone. */
  lemma RetainedStalledLoopKeepsPolling(n: nat, url: Path, w: World)
    requires !w.stop && url !in w.files
    ensures Settle(seq(n, _ => Tick(false, None, NotDownloaded)), url, w).wait == StillWaiting
  {
    var ticks := seq(n, _ => Tick(false, None, NotDownloaded));
    forall i | 0 <= i < n
      ensures !Ends(ticks[i], Landed(At(w.files, url), ticks[..i + 1]))
    {
      StalledLandsNothing(ticks[..i + 1]);
    }
    SettleEndsAtFirstPass(ticks, url, w, n);
  }

  lemma {:induction false} StalledLandsNothing(ticks: seq<Tick>)
    requires forall i :: 0 <= i < |ticks| ==> ticks[i].arrived.None?
    ensures Landed(None, ticks) == None
    decreases |ticks|
  {
    if ticks != [] {
      assert forall i :: 0 <= i < |ticks[1..]| ==> ticks[1..][i] == ticks[i + 1];
      StalledLandsNothing(ticks[1..]);
    }
  }

  /** `downloadFromCloud(url:)`. */
  function Download(cloud: map<Path, CloudItem>, url: Path, w: World): (s: Step)
    // returns at once, changing nothing, when the item is not in iCloud or
    // when it is already downloaded (and throws what the first probe throws)
    ensures url !in cloud || cloud[url].probe != NotDownloaded ==>
              s.world == w && s.wait == (if url in cloud && cloud[url].probe.ProbeFailed?
                                         then Threw(CloudFailure(cloud[url].probe.code)) else Returned)
    // otherwise the download is requested exactly once
    ensures s.world.requests == w.requests + (if url in cloud && cloud[url].probe == NotDownloaded then [url] else [])
    ensures s.world.progress == w.progress && s.world.reports == w.reports
    ensures forall p :: p != url ==> (p in s.world.files <==> p in w.files)
    ensures forall p :: p != url && p in w.files ==> s.world.files[p] == w.files[p]
    ensures w.stop ==> s.world.stop
    ensures s.wait.Threw? ==> s.wait.error.CloudFailure?
    ensures s.wait.StillWaiting? ==> url in cloud && cloud[url].probe == NotDownloaded
  {
    if url !in cloud then Step(Returned, w)
    else
      var item := cloud[url];
      match item.probe
      case ProbeFailed(code) => Step(Threw(CloudFailure(code)), w)
      case Downloaded => Step(Returned, w)
      case NotDownloaded =>
        var w' := w.(requests := w.requests + [url]);
        if item.startFailure.Some? then Step(Threw(CloudFailure(item.startFailure.value)), w')
        else Settle(item.ticks, url, w')
  }

  // ---------------------------------------------------------------- restoreDatabase

  /** `restoreDatabase(backupDir:)`: an existing local database is closed and
      removed and the whole step is retried (at most once more); then the
      backup is downloaded and, when it is present, copied into place. */
  function RestoreDatabase(s: Setting, w: World): (r: Step)
    requires Disjoint(s.backupDir, s.root)
    // on normal return the local database exists iff the backup file does,
    // and then holds a copy of it; a pre-existing database is gone
    ensures r.wait.Returned? ==>
              (DatabaseUrl(s.root) in r.world.files <==> CloudDatabaseUrl(s.backupDir) in r.world.files)
    ensures r.wait.Returned? && CloudDatabaseUrl(s.backupDir) in r.world.files ==>
              r.world.files[DatabaseUrl(s.root)] == r.world.files[CloudDatabaseUrl(s.backupDir)]
    // a database that cannot be closed or deleted leaves everything as it was
    ensures DatabaseUrl(s.root) in w.files && (s.databaseCloseFails || DatabaseUrl(s.root) in s.undeletable) ==>
              r == Step(Threw(if s.databaseCloseFails then DatabaseCloseFailure
                              else FileFailure(RemoveFailed(DatabaseUrl(s.root)))), w)
    // closing and removing fail only on a database there is to close and remove
    ensures r.wait == Threw(DatabaseCloseFailure) ==> DatabaseUrl(s.root) in w.files && s.databaseCloseFails
    ensures r.wait == Threw(FileFailure(RemoveFailed(DatabaseUrl(s.root)))) ==>
              DatabaseUrl(s.root) in w.files && DatabaseUrl(s.root) in s.undeletable
    // the errors that escape: closing, removing, the iCloud calls, or the copy
    ensures r.wait.Threw? ==>
              || r.wait.error == DatabaseCloseFailure
              || r.wait.error == FileFailure(RemoveFailed(DatabaseUrl(s.root)))
              || r.wait.error.CloudFailure?
              || r.wait.error == FileFailure(WriteFailed(DatabaseUrl(s.root)))
    // nothing else is touched
    ensures forall p :: p != DatabaseUrl(s.root) && p != CloudDatabaseUrl(s.backupDir) ==>
              (p in r.world.files <==> p in w.files) && (p in w.files ==> r.world.files[p] == w.files[p])
    ensures r.world.progress == w.progress && r.world.reports == w.reports
    ensures r.world.requests == w.requests || r.world.requests == w.requests + [CloudDatabaseUrl(s.backupDir)]
    ensures w.stop ==> r.world.stop
    // the backup only appears by being downloaded
    ensures CloudDatabaseUrl(s.backupDir) in r.world.files ==>
              CloudDatabaseUrl(s.backupDir) in w.files || CloudDatabaseUrl(s.backupDir) in s.cloud
    decreases if DatabaseUrl(s.root) in w.files then 1 else 0
  {
    var local := DatabaseUrl(s.root);
    var cloudUrl := CloudDatabaseUrl(s.backupDir);
    DisjointExtensions(s.root, s.backupDir, ["mixin.db"], ["mixin.backup.db"]);
    if local in w.files then
      if s.databaseCloseFails then Step(Threw(DatabaseCloseFailure), w)
      else
        var (removed, files) := Remove(w.files, s.undeletable, local);
        if removed.Failure? then Step(Threw(FileFailure(removed.error)), w)
        else RestoreDatabase(s, w.(files := files))
    else
      var d := Download(s.cloud, cloudUrl, w);
      if !d.wait.Returned? || cloudUrl !in d.world.files then d
      else
        var files := Remove(d.world.files, s.undeletable, local).1;
        var (copied, files') := Copy(files, s.unwritable, cloudUrl, local);
        var w' := d.world.(files := files');
        if copied.Failure? then Step(Threw(FileFailure(copied.error)), w') else Step(Returned, w')
  }

  /** When each outcome of the database stage happens. Closing fails exactly
      when there is a database to close and closing it fails; removing it
      fails exactly when it closed but cannot be deleted. Otherwise the stage
      ends as the backup's download does, unless the downloaded backup cannot
      be copied into place. */
  lemma DatabaseOutcome(s: Setting, w: World)
    requires Disjoint(s.backupDir, s.root)
    ensures var r := RestoreDatabase(s, w);
            && (r.wait == Threw(DatabaseCloseFailure) <==> DatabaseUrl(s.root) in w.files && s.databaseCloseFails)
            && (r.wait == Threw(FileFailure(RemoveFailed(DatabaseUrl(s.root)))) <==>
                  DatabaseUrl(s.root) in w.files && !s.databaseCloseFails && DatabaseUrl(s.root) in s.undeletable)
    ensures !(DatabaseUrl(s.root) in w.files && (s.databaseCloseFails || DatabaseUrl(s.root) in s.undeletable)) ==>
              var d := Download(s.cloud, CloudDatabaseUrl(s.backupDir), w.(files := w.files - {DatabaseUrl(s.root)}));
              RestoreDatabase(s, w).wait
              == if !d.wait.Returned? then d.wait
                 else if CloudDatabaseUrl(s.backupDir) in d.world.files && DatabaseUrl(s.root) in s.unwritable
                 then Threw(FileFailure(WriteFailed(DatabaseUrl(s.root))))
                 else Returned
    decreases if DatabaseUrl(s.root) in w.files then 1 else 0
  {
    var local := DatabaseUrl(s.root);
    if local in w.files {
      if !s.databaseCloseFails && local !in s.undeletable {
        var w' := w.(files := w.files - {local});
        assert w'.files - {local} == w'.files;
        assert w'.(files := w'.files - {local}) == w';
        DatabaseOutcome(s, w');
      }
    } else {
      assert w.files - {local} == w.files;
      assert w.(files := w.files - {local}) == w;
    }
  }

  // ---------------------------------------------------------------- restorePhotosAndAudios

  /** The progress values reported while an archive is extracted:
      `totalProgress + p * 0.35` for each reported fraction `p`. */
  function ExtractionProgress(base: real, trace: seq<real>): (r: seq<real>)
    ensures |r| == |trace|
    ensures forall i {:trigger r[i]} :: 0 <= i < |trace| ==> r[i] == base + trace[i] * ExtractionWeight
    decreases |trace|
  {
    if trace == [] then []
    else
      var rest := ExtractionProgress(base, trace[1..]);
      assert forall i :: 0 < i < |trace| ==> trace[1..][i - 1] == trace[i];
      [base + trace[0] * ExtractionWeight] + rest
  }

  predicate Between(s: seq<real>, lo: real, hi: real) {
    forall i :: 0 <= i < |s| ==> lo <= s[i] <= hi
  }

  predicate NonDecreasing(s: seq<real>) {
    forall i, j :: 0 <= i < j < |s| ==> s[i] <= s[j]
  }

  /** The Zip library's promise about range: extraction fractions lie in [0, 1]. */
  ghost predicate ZipBounded(unzip: Bytes -> Extraction) {
    forall b :: Between(unzip(b).trace, 0.0, 1.0)
  }

  /** The Zip library's promise about order: extraction fractions never go
      backwards. */
  ghost predicate ZipMonotone(unzip: Bytes -> Extraction) {
    forall b :: NonDecreasing(unzip(b).trace)
  }

  /** A fraction in [0, 1] lands in the category's band [base, base + 0.35],
      and the scaled values keep the order of the fractions. */
  lemma {:induction false} ExtractionProgressInBand(base: real, trace: seq<real>)
    requires Between(trace, 0.0, 1.0)
    ensures Between(ExtractionProgress(base, trace), base, base + ExtractionWeight)
    ensures NonDecreasing(trace) ==> NonDecreasing(ExtractionProgress(base, trace))
    decreases |trace|
  {
    if trace != [] {
      var r := ExtractionProgress(base, trace);
      ExtractionProgressInBand(base, trace[1..]);
      assert r[1..] == ExtractionProgress(base, trace[1..]);
      assert forall i :: 0 < i < |r| ==> r[i] == r[1..][i - 1] && trace[1..][i - 1] == trace[i];
      assert r[0] == base + trace[0] * ExtractionWeight;
    }
  }

  /** The part of one category pass after its archive is known to be on disk:
      copy it to the staging zip, extract it into the chat directory (an
      extraction error is reported, not thrown), delete the staging zip. */
  function InstallArchive(s: Setting, cat: ChatDirectory, total: real, w: World): (r: CategoryStep)
    requires CloudArchiveUrl(s.backupDir, cat) in w.files
  {
    var cloudUrl := CloudArchiveUrl(s.backupDir, cat);
    var staging := StagingZipUrl(s.root, cat);
    var files := Remove(w.files, s.undeletable, staging).1;
    var (copied, files') := Copy(files, s.unwritable, cloudUrl, staging);
    if copied.Failure? then CategoryStep(Threw(FileFailure(copied.error)), false, w.(files := files'))
    else
      var x := s.unzip(files'[staging]);
      var files'' := Remove(files' + PlaceUnder(ExtractionDir(s.root, cat), x.written), s.undeletable, staging).1;
      var reports := if x.failure.Some? then w.reports + [ZipFailure(x.failure.value)] else w.reports;
      CategoryStep(Returned, true,
                   w.(files := files'', progress := w.progress + ExtractionProgress(total, x.trace), reports := reports))
  }

  /** One pass of the category loop: download the archive; skip the category
      (`continue`, the offset does not move) when it is not on disk
      afterwards; otherwise install it. `advanced` says whether
      `totalProgress` moves on by 0.35. */
  function RestoreCategory(s: Setting, cat: ChatDirectory, total: real, w: World): (r: CategoryStep)
    ensures r.world.requests == w.requests || r.world.requests == w.requests + [CloudArchiveUrl(s.backupDir, cat)]
    ensures w.stop ==> r.world.stop
    ensures |w.progress| <= |r.world.progress| && r.world.progress[..|w.progress|] == w.progress
  {
    var cloudUrl := CloudArchiveUrl(s.backupDir, cat);
    var d := Download(s.cloud, cloudUrl, w);
    if !d.wait.Returned? then CategoryStep(d.wait, false, d.world)
    else if cloudUrl !in d.world.files then CategoryStep(Returned, false, d.world)
    else InstallArchive(s, cat, total, d.world)
  }

  /** The paths an install writes are apart from the cloud archive. */
  lemma InstallPathsApart(s: Setting, cat: ChatDirectory)
    requires Disjoint(s.backupDir, s.root)
    ensures StagingZipUrl(s.root, cat) != CloudArchiveUrl(s.backupDir, cat)
    ensures !Under(ExtractionDir(s.root, cat), CloudArchiveUrl(s.backupDir, cat))
    ensures !Under(ExtractionDir(s.root, cat), StagingZipUrl(s.root, cat))
  {
    var name := "mixin." + Lowercased(cat.RawValue()) + ".zip";
    DisjointExtensions(s.root, s.backupDir, ["Chat", cat.RawValue() + ".zip"], [name]);
    DisjointNotUnder(s.backupDir, s.root, [name], ["Chat", cat.RawValue()]);
  }

  /** What an install leaves: either the copy failed (the only error it
      throws: a stale staging zip that could not be deleted is in the way, or
      the destination cannot be written) or the archive was extracted. The
      staging zip is gone afterwards unless it cannot be deleted, and the
      cloud archive is untouched. */
  lemma InstallOutcome(s: Setting, cat: ChatDirectory, total: real, w: World)
    requires Disjoint(s.backupDir, s.root) && CloudArchiveUrl(s.backupDir, cat) in w.files
    ensures var r := InstallArchive(s, cat, total, w);
            var staging := StagingZipUrl(s.root, cat);
            var stale := staging in w.files && staging in s.undeletable;
            && (r.wait.Returned? <==> r.advanced)
            && (r.wait.Threw? <==> stale || staging in s.unwritable)
            && (r.wait.Threw? ==>
                  r.wait.error == FileFailure(if stale then AlreadyExists(staging) else WriteFailed(staging)))
            && !r.wait.StillWaiting?
            && (staging in r.world.files <==> staging in s.undeletable && (staging in w.files || r.advanced))
            && (stale ==> staging in r.world.files && r.world.files[staging] == w.files[staging])
            && CloudArchiveUrl(s.backupDir, cat) in r.world.files
            && r.world.files[CloudArchiveUrl(s.backupDir, cat)] == w.files[CloudArchiveUrl(s.backupDir, cat)]
            && r.world.stop == w.stop && r.world.requests == w.requests
  {
    InstallPathsApart(s, cat);
  }

  /** An install reports the extraction's progress scaled into
      [total, total + 0.35] and its error, if any, to the crash reporter,
      and writes the extracted files into the category's chat directory. */
  lemma InstallEffects(s: Setting, cat: ChatDirectory, total: real, w: World)
    requires Disjoint(s.backupDir, s.root) && CloudArchiveUrl(s.backupDir, cat) in w.files
    ensures var r := InstallArchive(s, cat, total, w);
            var x := s.unzip(w.files[CloudArchiveUrl(s.backupDir, cat)]);
            && r.world.progress == w.progress + (if r.advanced then ExtractionProgress(total, x.trace) else [])
            && r.world.reports == w.reports + (if r.advanced && x.failure.Some? then [ZipFailure(x.failure.value)] else [])
            && (r.advanced ==> forall n :: n in x.written ==>
                  (ExtractionDir(s.root, cat) + [n] in r.world.files
                   && r.world.files[ExtractionDir(s.root, cat) + [n]] == x.written[n]))
  {
  }

  /** An install touches only the staging zip and the chat directory. */
  lemma InstallFrame(s: Setting, cat: ChatDirectory, total: real, w: World, p: Path)
    requires CloudArchiveUrl(s.backupDir, cat) in w.files
    requires p != StagingZipUrl(s.root, cat) && !Under(ExtractionDir(s.root, cat), p)
    ensures var r := InstallArchive(s, cat, total, w);
            (p in r.world.files <==> p in w.files) && (p in w.files ==> r.world.files[p] == w.files[p])
  {
  }

  /** How a category pass ends: a category is skipped, without advancing the
      offset, exactly when its archive is not on disk after the download; only
      download and copy errors escape, so an extraction error never aborts. */
  lemma CategoryOutcome(s: Setting, cat: ChatDirectory, total: real, w: World)
    requires Disjoint(s.backupDir, s.root)
    ensures var r := RestoreCategory(s, cat, total, w);
            && (r.advanced <==> r.wait.Returned? && CloudArchiveUrl(s.backupDir, cat) in r.world.files)
            && (r.wait.Threw? ==> || r.wait.error.CloudFailure?
                                  || r.wait.error == FileFailure(WriteFailed(StagingZipUrl(s.root, cat)))
                                  || r.wait.error == FileFailure(AlreadyExists(StagingZipUrl(s.root, cat))))
            && (r.wait.StillWaiting? ==> !r.advanced)
  {
    var d := Download(s.cloud, CloudArchiveUrl(s.backupDir, cat), w);
    if d.wait.Returned? && CloudArchiveUrl(s.backupDir, cat) in d.world.files {
      InstallOutcome(s, cat, total, d.world);
    }
  }

  /** The progress a pass reports is the extraction trace of the downloaded
      archive scaled into [total, total + 0.35], and its crash reports are
      the extraction error, if any; a skipped or failed pass reports nothing. */
  lemma CategoryEffects(s: Setting, cat: ChatDirectory, total: real, w: World)
    requires Disjoint(s.backupDir, s.root)
    ensures var r := RestoreCategory(s, cat, total, w);
            var d := Download(s.cloud, CloudArchiveUrl(s.backupDir, cat), w);
            r.advanced ==>
              var x := s.unzip(d.world.files[CloudArchiveUrl(s.backupDir, cat)]);
              && r.world.progress == w.progress + ExtractionProgress(total, x.trace)
              && r.world.reports == w.reports + (if x.failure.Some? then [ZipFailure(x.failure.value)] else [])
              && forall n :: n in x.written ==>
                   (ExtractionDir(s.root, cat) + [n] in r.world.files
                    && r.world.files[ExtractionDir(s.root, cat) + [n]] == x.written[n])
    ensures var r := RestoreCategory(s, cat, total, w);
            !r.advanced ==> r.world.progress == w.progress && r.world.reports == w.reports
  {
    var d := Download(s.cloud, CloudArchiveUrl(s.backupDir, cat), w);
    if d.wait.Returned? && CloudArchiveUrl(s.backupDir, cat) in d.world.files {
      InstallEffects(s, cat, total, d.world);
    }
  }

  /** A pass removes its staging zip: if one is there afterwards, it is
      either the archive just extracted, which could not be deleted, or one
      that was there before and that a pass which did not advance left as it
      was. */
  lemma CategoryRemovesStagingZip(s: Setting, cat: ChatDirectory, total: real, w: World)
    requires Disjoint(s.backupDir, s.root)
    ensures var r := RestoreCategory(s, cat, total, w);
            StagingZipUrl(s.root, cat) in r.world.files ==>
              || (r.advanced && StagingZipUrl(s.root, cat) in s.undeletable)
              || (!r.advanced && StagingZipUrl(s.root, cat) in w.files
                  && r.world.files[StagingZipUrl(s.root, cat)] == w.files[StagingZipUrl(s.root, cat)])
  {
    var d := Download(s.cloud, CloudArchiveUrl(s.backupDir, cat), w);
    InstallPathsApart(s, cat);
    if d.wait.Returned? && CloudArchiveUrl(s.backupDir, cat) in d.world.files {
      InstallOutcome(s, cat, total, d.world);
    }
  }

  /** A pass changes nothing outside its cloud archive, its staging zip and
      its chat directory. */
  lemma CategoryFrame(s: Setting, cat: ChatDirectory, total: real, w: World, p: Path)
    requires p != CloudArchiveUrl(s.backupDir, cat) && p != StagingZipUrl(s.root, cat)
    requires !Under(ExtractionDir(s.root, cat), p)
    ensures var r := RestoreCategory(s, cat, total, w);
            (p in r.world.files <==> p in w.files) && (p in w.files ==> r.world.files[p] == w.files[p])
  {
  }

  /** The category loop of `restorePhotosAndAudios` from offset `total`: the
      first error from a download or a copy ends it. */
  function RestoreMedia(s: Setting, cats: seq<ChatDirectory>, total: real, w: World): (r: Step)
    requires Disjoint(s.backupDir, s.root)
    decreases |cats|
  {
    if cats == [] then Step(Returned, w)
    else
      var c := RestoreCategory(s, cats[0], total, w);
      if !c.wait.Returned? then Step(c.wait, c.world)
      else RestoreMedia(s, cats[1..], if c.advanced then total + ExtractionWeight else total, c.world)
  }

  /** Photos first, then Audios; the offset moves on only past a category
      whose archive was there. */
  lemma MediaOrder(s: Setting, w: World)
    requires Disjoint(s.backupDir, s.root)
    ensures var photos := RestoreCategory(s, Photos, DatabaseRestoredProgress, w);
            RestoreMedia(s, MediaCategories, DatabaseRestoredProgress, w)
              == if !photos.wait.Returned? then Step(photos.wait, photos.world)
                 else
                   var offset := if photos.advanced then DatabaseRestoredProgress + ExtractionWeight
                                 else DatabaseRestoredProgress;
                   var audios := RestoreCategory(s, Audios, offset, photos.world);
                   Step(audios.wait, audios.world)
  {
  }

  /** `after` is `before` with values appended that lie in [lo, hi]. */
  predicate Grows(before: seq<real>, after: seq<real>, lo: real, hi: real) {
    |before| <= |after| && after[..|before|] == before && Between(after[|before|..], lo, hi)
  }

  /** `after` is `before` with values appended that lie in [lo, hi] and
      never decrease. */
  predicate Extends(before: seq<real>, after: seq<real>, lo: real, hi: real) {
    Grows(before, after, lo, hi) && NonDecreasing(after[|before|..])
  }

  lemma GrowsTransitive(a: seq<real>, b: seq<real>, c: seq<real>, lo: real, mid: real, hi: real, top: real)
    requires lo <= mid <= hi <= top
    requires Grows(a, b, lo, mid) && Grows(b, c, mid, hi)
    ensures Grows(a, c, lo, top)
  {
    assert c[..|a|] == c[..|b|][..|a|];
    assert c[|a|..] == b[|a|..] + c[|b|..];
  }

  /** Two runs of values, the second starting no lower than the first ends. */
  lemma AppendBetween(a: seq<real>, b: seq<real>, lo: real, mid: real, hi: real)
    requires lo <= mid <= hi
    requires Between(a, lo, mid) && NonDecreasing(a)
    requires Between(b, mid, hi) && NonDecreasing(b)
    ensures Between(a + b, lo, hi) && NonDecreasing(a + b)
  {
  }

  lemma ExtendsTransitive(a: seq<real>, b: seq<real>, c: seq<real>, lo: real, mid: real, hi: real, top: real)
    requires lo <= mid <= hi <= top
    requires Extends(a, b, lo, mid) && Extends(b, c, mid, hi)
    ensures Extends(a, c, lo, top)
  {
    assert c[..|a|] == c[..|b|][..|a|];
    assert c[|a|..] == b[|a|..] + c[|b|..];
    AppendBetween(b[|a|..], c[|b|..], lo, mid, top);
  }

  /** One pass appends the extraction's progress, which the Zip library's
      range promise keeps inside the pass's band, and its order promise in
      order. */
  lemma CategoryProgress(s: Setting, cat: ChatDirectory, total: real, w: World)
    requires Disjoint(s.backupDir, s.root)
    requires ZipBounded(s.unzip)
    ensures var c := RestoreCategory(s, cat, total, w);
            Grows(w.progress, c.world.progress, total, if c.advanced then total + ExtractionWeight else total)
    ensures var c := RestoreCategory(s, cat, total, w);
            ZipMonotone(s.unzip) ==>
              Extends(w.progress, c.world.progress, total, if c.advanced then total + ExtractionWeight else total)
  {
    var c := RestoreCategory(s, cat, total, w);
    CategoryEffects(s, cat, total, w);
    if c.advanced {
      var d := Download(s.cloud, CloudArchiveUrl(s.backupDir, cat), w);
      var x := s.unzip(d.world.files[CloudArchiveUrl(s.backupDir, cat)]);
      ExtractionProgressInBand(total, x.trace);
      assert c.world.progress[|w.progress|..] == ExtractionProgress(total, x.trace);
    } else {
      assert c.world.progress[|w.progress|..] == [];
    }
  }

  /** The media stage only ever appends progress values; with the Zip
      library's range promise they stay in [total, total + 0.35 * |cats|],
      and with its order promise as well they never decrease. */
  lemma {:induction false} RestoreMediaProgress(s: Setting, cats: seq<ChatDirectory>, total: real, w: World)
    requires Disjoint(s.backupDir, s.root)
    requires ZipBounded(s.unzip)
    ensures Grows(w.progress, RestoreMedia(s, cats, total, w).world.progress,
                  total, total + ExtractionWeight * |cats| as real)
    ensures ZipMonotone(s.unzip) ==>
              Extends(w.progress, RestoreMedia(s, cats, total, w).world.progress,
                      total, total + ExtractionWeight * |cats| as real)
    decreases |cats|
  {
    if cats == [] {
      assert RestoreMedia(s, cats, total, w).world.progress[|w.progress|..] == [];
    } else {
      var c := RestoreCategory(s, cats[0], total, w);
      var next := if c.advanced then total + ExtractionWeight else total;
      var top := total + ExtractionWeight * |cats| as real;
      var after := RestoreMedia(s, cats, total, w).world.progress;
      CategoryProgress(s, cats[0], total, w);
      if c.wait.Returned? {
        var hi := next + ExtractionWeight * |cats[1..]| as real;
        RestoreMediaProgress(s, cats[1..], next, c.world);
        GrowsTransitive(w.progress, c.world.progress, after, total, next, hi, top);
        if ZipMonotone(s.unzip) {
          ExtendsTransitive(w.progress, c.world.progress, after, total, next, hi, top);
        }
      } else {
        GrowsTransitive(w.progress, c.world.progress, c.world.progress, total, next, next, top);
        if ZipMonotone(s.unzip) {
          ExtendsTransitive(w.progress, c.world.progress, c.world.progress, total, next, next, top);
        }
      }
    }
  }

  /** A staging zip that was not there before the media stage is not there
      after it, however the stage ends, unless it cannot be deleted. */
  lemma {:induction false} RestoreMediaRemovesStagingZips(s: Setting, cats: seq<ChatDirectory>, total: real,
                                                          w: World, cat: ChatDirectory)
    requires Disjoint(s.backupDir, s.root)
    requires StagingZipUrl(s.root, cat) !in w.files
    ensures StagingZipUrl(s.root, cat) in RestoreMedia(s, cats, total, w).world.files ==>
              StagingZipUrl(s.root, cat) in s.undeletable
    decreases |cats|
  {
    if cats != [] && StagingZipUrl(s.root, cat) !in s.undeletable {
      var c := RestoreCategory(s, cats[0], total, w);
      var staging := StagingZipUrl(s.root, cat);
      if cat == cats[0] {
        CategoryRemovesStagingZip(s, cat, total, w);
      } else {
        LocalPathsDistinct(s.root, cats[0], cat, staging);
        var name := "mixin." + Lowercased(cats[0].RawValue()) + ".zip";
        DisjointExtensions(s.root, s.backupDir, ["Chat", cat.RawValue() + ".zip"], [name]);
        CategoryFrame(s, cats[0], total, w, staging);
      }
      if c.wait.Returned? {
        RestoreMediaRemovesStagingZips(s, cats[1..], if c.advanced then total + ExtractionWeight else total,
                                       c.world, cat);
      }
    }
  }

  /** The media stage touches only the chat directories and the backup
      directory; in particular it never touches the local database. */
  lemma {:induction false} RestoreMediaFrame(s: Setting, cats: seq<ChatDirectory>, total: real, w: World, p: Path)
    requires Disjoint(s.backupDir, s.root)
    requires !Under(s.root + ["Chat"], p) && !Under(s.backupDir, p)
    ensures var r := RestoreMedia(s, cats, total, w);
            (p in r.world.files <==> p in w.files) && (p in w.files ==> r.world.files[p] == w.files[p])
    decreases |cats|
  {
    if cats != [] {
      var cat := cats[0];
      var c := RestoreCategory(s, cat, total, w);
      var cloudUrl := CloudArchiveUrl(s.backupDir, cat);
      assert cloudUrl[..|s.backupDir|] == s.backupDir;
      assert p != cloudUrl;
      var staging := StagingZipUrl(s.root, cat);
      assert staging[..|s.root| + 1] == s.root + ["Chat"];
      assert p != staging;
      var dir := ExtractionDir(s.root, cat);
      assert dir[..|s.root| + 1] == s.root + ["Chat"];
      UnderParent(s.root + ["Chat"], dir, p);
      CategoryFrame(s, cat, total, w, p);
      if c.wait.Returned? {
        RestoreMediaFrame(s, cats[1..], if c.advanced then total + ExtractionWeight else total, c.world, p);
      }
    }
  }

  // ---------------------------------------------------------------- restoreAction

  /** The background part of `restoreAction` once the iCloud token and the
      backup directory are known: report 0.1, restore the database, report
      0.3, restore the media. An error is sent to the crash reporter. */
  function Pipeline(s: Setting, w: World): (RunOutcome, World)
    requires Disjoint(s.backupDir, s.root)
  {
    var db := RestoreDatabase(s, w.(progress := w.progress + [DownloadStartedProgress]));
    match db.wait
    case Threw(e) => (DatabaseStageFailed(e), db.world.(reports := db.world.reports + [e]))
    case StillWaiting => (StillDownloading, db.world)
    case Returned =>
      var media := RestoreMedia(s, MediaCategories, DatabaseRestoredProgress,
                                db.world.(progress := db.world.progress + [DatabaseRestoredProgress]));
      match media.wait
      case Threw(e) => (MediaStageFailed(e), media.world.(reports := media.world.reports + [e]))
      case StillWaiting => (StillDownloading, media.world)
      case Returned => (Restored, media.world)
  }

  lemma PrefixTransitive<T>(a: seq<T>, b: seq<T>, c: seq<T>)
    requires |a| <= |b| && b[..|a|] == a && |b| <= |c| && c[..|b|] == b
    ensures |a| <= |c| && c[..|a|] == a
  {
    assert c[..|a|] == c[..|b|][..|a|];
  }

  /** The media stage only appends to the progress log. */
  lemma {:induction false} RestoreMediaAppends(s: Setting, cats: seq<ChatDirectory>, total: real, w: World)
    requires Disjoint(s.backupDir, s.root)
    ensures var after := RestoreMedia(s, cats, total, w).world.progress;
            |w.progress| <= |after| && after[..|w.progress|] == w.progress
    decreases |cats|
  {
    if cats != [] {
      var c := RestoreCategory(s, cats[0], total, w);
      if c.wait.Returned? {
        var next := if c.advanced then total + ExtractionWeight else total;
        RestoreMediaAppends(s, cats[1..], next, c.world);
        PrefixTransitive(w.progress, c.world.progress, RestoreMedia(s, cats[1..], next, c.world).world.progress);
      }
    }
  }

  /** The progress log a run leaves: the media stage's when the database
      stage returned, otherwise the database stage's, which is the log with
      0.1 appended. */
  lemma PipelineProgressLog(s: Setting, w: World)
    requires Disjoint(s.backupDir, s.root)
    ensures var db := RestoreDatabase(s, w.(progress := w.progress + [DownloadStartedProgress]));
            && db.world.progress == w.progress + [DownloadStartedProgress]
            && Pipeline(s, w).1.progress
               == if db.wait.Returned?
                  then RestoreMedia(s, MediaCategories, DatabaseRestoredProgress,
                                    db.world.(progress := db.world.progress + [DatabaseRestoredProgress])).world.progress
                  else db.world.progress
  {
  }

  /** A run only appends to the progress log. */
  lemma PipelineAppends(s: Setting, w: World)
    requires Disjoint(s.backupDir, s.root)
    ensures |w.progress| <= |Pipeline(s, w).1.progress|
    ensures Pipeline(s, w).1.progress[..|w.progress|] == w.progress
  {
    var w1 := w.(progress := w.progress + [DownloadStartedProgress]);
    var db := RestoreDatabase(s, w1);
    PipelineProgressLog(s, w);
    if db.wait.Returned? {
      var w2 := db.world.(progress := db.world.progress + [DatabaseRestoredProgress]);
      RestoreMediaAppends(s, MediaCategories, DatabaseRestoredProgress, w2);
      assert w2.progress[..|w.progress|] == w.progress;
      var m := RestoreMedia(s, MediaCategories, DatabaseRestoredProgress, w2).world.progress;
      assert m[..|w.progress|] == m[..|w2.progress|][..|w.progress|];
    } else {
      assert w1.progress[..|w.progress|] == w.progress;
    }
  }

  /** A run reports 0.1 first and, once the database stage has returned,
      0.3 next; a run that reaches the media stage gets that far. */
  lemma PipelineMilestones(s: Setting, w: World)
    requires Disjoint(s.backupDir, s.root)
    ensures var after := Pipeline(s, w).1.progress;
            |after| > |w.progress| && after[|w.progress|] == DownloadStartedProgress
    ensures var (run, after) := Pipeline(s, w);
            run.Restored? || run.MediaStageFailed? ==>
              |after.progress| > |w.progress| + 1 && after.progress[|w.progress| + 1] == DatabaseRestoredProgress
  {
    var w1 := w.(progress := w.progress + [DownloadStartedProgress]);
    var db := RestoreDatabase(s, w1);
    var after := Pipeline(s, w).1.progress;
    PipelineProgressLog(s, w);
    if db.wait.Returned? {
      var w2 := db.world.(progress := db.world.progress + [DatabaseRestoredProgress]);
      RestoreMediaAppends(s, MediaCategories, DatabaseRestoredProgress, w2);
      var m := RestoreMedia(s, MediaCategories, DatabaseRestoredProgress, w2).world.progress;
      assert w2.progress == w.progress + [DownloadStartedProgress, DatabaseRestoredProgress];
      assert m[..|w2.progress|] == w2.progress;
      assert m[|w.progress|] == w2.progress[|w.progress|] && m[|w.progress| + 1] == w2.progress[|w.progress| + 1];
    }
  }

  /** With the Zip library's range promise every progress value of a run
      lies in [0.1, 1]; with its order promise as well the values never
      decrease. */
  lemma PipelineProgress(s: Setting, w: World)
    requires Disjoint(s.backupDir, s.root)
    requires ZipBounded(s.unzip)
    ensures Grows(w.progress, Pipeline(s, w).1.progress, DownloadStartedProgress, 1.0)
    ensures ZipMonotone(s.unzip) ==> Extends(w.progress, Pipeline(s, w).1.progress, DownloadStartedProgress, 1.0)
  {
    var w1 := w.(progress := w.progress + [DownloadStartedProgress]);
    var db := RestoreDatabase(s, w1);
    PipelineProgressLog(s, w);
    assert w1.progress[..|w.progress|] == w.progress && w1.progress[|w.progress|..] == [DownloadStartedProgress];
    assert Extends(w.progress, db.world.progress, DownloadStartedProgress, DownloadStartedProgress);
    if db.wait.Returned? {
      var w2 := db.world.(progress := db.world.progress + [DatabaseRestoredProgress]);
      var after := RestoreMedia(s, MediaCategories, DatabaseRestoredProgress, w2).world.progress;
      assert w2.progress[..|w1.progress|] == w1.progress && w2.progress[|w1.progress|..] == [DatabaseRestoredProgress];
      ExtendsTransitive(w.progress, w1.progress, w2.progress,
                        DownloadStartedProgress, DownloadStartedProgress, DatabaseRestoredProgress, DatabaseRestoredProgress);
      RestoreMediaProgress(s, MediaCategories, DatabaseRestoredProgress, w2);
      GrowsTransitive(w.progress, w2.progress, after, DownloadStartedProgress, DatabaseRestoredProgress, 1.0, 1.0);
      if ZipMonotone(s.unzip) {
        ExtendsTransitive(w.progress, w2.progress, after, DownloadStartedProgress, DatabaseRestoredProgress, 1.0, 1.0);
      }
    }
  }

  /** A database-stage error ends the run before the media stage: no progress
      beyond 0.1, no archive requested, and only the two database files touched. */
  lemma DatabaseFailureSkipsMedia(s: Setting, w: World)
    requires Disjoint(s.backupDir, s.root)
    ensures Pipeline(s, w).0.DatabaseStageFailed? ==>
              var after := Pipeline(s, w).1;
              && after.progress == w.progress + [DownloadStartedProgress]
              && (after.requests == w.requests || after.requests == w.requests + [CloudDatabaseUrl(s.backupDir)])
              && after.reports == w.reports + [Pipeline(s, w).0.error]
              && forall p :: p != DatabaseUrl(s.root) && p != CloudDatabaseUrl(s.backupDir) ==>
                   (p in after.files <==> p in w.files) && (p in w.files ==> after.files[p] == w.files[p])
  {
    var db := RestoreDatabase(s, w.(progress := w.progress + [DownloadStartedProgress]));
    if db.wait.Threw? {
      assert Pipeline(s, w) == (DatabaseStageFailed(db.wait.error), db.world.(reports := db.world.reports + [db.wait.error]));
    }
  }

  /** The local database lies outside the chat directories and the backup
      directory. */
  lemma DatabaseOutsideMedia(s: Setting)
    requires Disjoint(s.backupDir, s.root)
    ensures !Under(s.root + ["Chat"], DatabaseUrl(s.root)) && !Under(s.backupDir, DatabaseUrl(s.root))
  {
  }

  /** With no backup in the cloud or on disk the database stage either fails
      to close or delete the open database, changing nothing, or returns with
      no local database. */
  lemma DatabaseWithoutBackup(s: Setting, w: World)
    requires Disjoint(s.backupDir, s.root)
    requires CloudDatabaseUrl(s.backupDir) !in s.cloud && CloudDatabaseUrl(s.backupDir) !in w.files
    ensures var r := RestoreDatabase(s, w);
            || r == Step(Threw(DatabaseCloseFailure), w)
            || r == Step(Threw(FileFailure(RemoveFailed(DatabaseUrl(s.root)))), w)
            || (r.wait.Returned? && DatabaseUrl(s.root) !in r.world.files)
  {
  }

  /** The files a run leaves: those of the media stage when the database
      stage returned, otherwise those of the database stage. */
  lemma PipelineFiles(s: Setting, w: World)
    requires Disjoint(s.backupDir, s.root)
    ensures var db := RestoreDatabase(s, w.(progress := w.progress + [DownloadStartedProgress]));
            Pipeline(s, w).1.files
            == if db.wait.Returned?
               then RestoreMedia(s, MediaCategories, DatabaseRestoredProgress,
                                 db.world.(progress := db.world.progress + [DatabaseRestoredProgress])).world.files
               else db.world.files
  {
  }

  /** A run that gets past the database stage with no database backup in the
      cloud or on disk ends with no local database. */
  lemma MissingBackupLeavesNoDatabase(s: Setting, w: World)
    requires Disjoint(s.backupDir, s.root)
    requires CloudDatabaseUrl(s.backupDir) !in s.cloud && CloudDatabaseUrl(s.backupDir) !in w.files
    ensures !Pipeline(s, w).0.DatabaseStageFailed? ==> DatabaseUrl(s.root) !in Pipeline(s, w).1.files
  {
    var w1 := w.(progress := w.progress + [DownloadStartedProgress]);
    DatabaseWithoutBackup(s, w1);
    PipelineFiles(s, w);
    var db := RestoreDatabase(s, w1);
    if db.wait.Returned? {
      DatabaseOutsideMedia(s);
      RestoreMediaFrame(s, MediaCategories, DatabaseRestoredProgress,
                        db.world.(progress := db.world.progress + [DatabaseRestoredProgress]), DatabaseUrl(s.root));
    }
  }
}
