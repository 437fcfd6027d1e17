/** The restore screen: `RestoreViewController` with the state its actions
    change (the restore button, the skip button, the progress label, the two
    account flags, the root view controller) and the pure description of one
    tap on the restore button that its methods are proved to carry out. */
module RestoreController {
  import opened Optional
  import opened FileSystem
  import opened MixinFile
  import opened RestorePipeline

  /** What the screen shows and the account flags it clears. `replaced`: the
      window's root view controller was replaced by the initial one (and, after
      a restore, the database reconfigured), so the restore screen is gone. */
  datatype Screen = Screen(busy: bool, skipHidden: bool, progressHidden: bool,
                           hasRestoreChat: bool, hasRestoreFilesAndVideos: bool, replaced: bool)

  /** How the screen is left by the end of a run: a restored run clears
      `hasRestoreChat` and leaves the screen; a failed one re-enables the
      restore button, shows the skip button and hides the progress label. */
  function Finish(run: RunOutcome, screen: Screen): Screen {
    match run
    case Restored => screen.(hasRestoreChat := false, replaced := true)
    case StillDownloading => screen
    case DatabaseStageFailed(_) => screen.(busy := false, skipHidden := false, progressHidden := true)
    case MediaStageFailed(_) => screen.(busy := false, skipHidden := false, progressHidden := true)
  }

  /** One tap on the restore button. `token`: the iCloud identity token is
      there; `resolved`: the iCloud backup directory could be resolved, and is
      then `s.backupDir`. */
  function Tap(screen: Screen, s: Setting, token: bool, resolved: bool, w: World): (Screen, World)
    requires resolved ==> Disjoint(s.backupDir, s.root)
  {
    if screen.busy then (screen, w)
    else
      var shown := screen.(busy := true, skipHidden := true, progressHidden := false);
      var w' := w.(progress := w.progress + [0.0]);
      if !token || !resolved then (shown, w')
      else
        var (run, after) := Pipeline(s, w');
        (Finish(run, shown), after)
  }

  /** A tap while the button is busy is ignored; any other tap shows the
      busy button and the progress label, hides the skip button and reports
      0 first. Without an identity token or a backup directory the run stops
      there, silently, and the screen stays busy. */
  lemma TapStarts(screen: Screen, s: Setting, token: bool, resolved: bool, w: World)
    requires resolved ==> Disjoint(s.backupDir, s.root)
    ensures screen.busy ==> Tap(screen, s, token, resolved, w) == (screen, w)
    ensures !screen.busy ==>
              var after := Tap(screen, s, token, resolved, w).1;
              |w.progress| < |after.progress| && after.progress[..|w.progress| + 1] == w.progress + [0.0]
    ensures !screen.busy && !(token && resolved) ==>
              var (shown, after) := Tap(screen, s, token, resolved, w);
              && shown == screen.(busy := true, skipHidden := true, progressHidden := false)
              && after == w.(progress := w.progress + [0.0])
  {
    if !screen.busy && token && resolved {
      var w' := w.(progress := w.progress + [0.0]);
      PipelineAppends(s, w');
      var after := Pipeline(s, w').1;
      assert after.progress[..|w.progress| + 1] == after.progress[..|w'.progress|][..|w.progress| + 1];
    }
  }

  /** A tap that gets past the guards ends as its run does. */
  lemma TapRuns(screen: Screen, s: Setting, w: World)
    requires Disjoint(s.backupDir, s.root)
    ensures !screen.busy ==>
              var p := Pipeline(s, w.(progress := w.progress + [0.0]));
              Tap(screen, s, true, true, w)
              == (Finish(p.0, screen.(busy := true, skipHidden := true, progressHidden := false)), p.1)
  {
  }

  /** What the screen and the account flags look like after a tap that got
      as far as running the pipeline: a restored run leaves the screen and
      clears only `hasRestoreChat`; a failed run reports its error to the
      crash reporter and leaves the screen ready for another tap, with the
      flags as they were. */
  lemma TapOutcome(screen: Screen, s: Setting, w: World)
    requires Disjoint(s.backupDir, s.root)
    requires !screen.busy
    ensures var (run, _) := Pipeline(s, w.(progress := w.progress + [0.0]));
            var (shown, after) := Tap(screen, s, true, true, w);
            && (shown.replaced <==> run.Restored? || screen.replaced)
            && (run.Restored? ==> !shown.hasRestoreChat && shown.hasRestoreFilesAndVideos == screen.hasRestoreFilesAndVideos)
            && (run.DatabaseStageFailed? || run.MediaStageFailed? ==>
                  && !shown.busy && !shown.skipHidden && shown.progressHidden
                  && shown.hasRestoreChat == screen.hasRestoreChat
                  && shown.hasRestoreFilesAndVideos == screen.hasRestoreFilesAndVideos
                  && |after.reports| > 0 && after.reports[|after.reports| - 1] == run.error)
            && (run.StillDownloading? ==> shown.busy)
  {
  }

  /** The progress label only ever shows values in [0, 1] given the Zip
      library's range promise about the fractions it reports, and shows them
      in order given its order promise as well. */
  lemma TapProgress(screen: Screen, s: Setting, token: bool, resolved: bool, w: World)
    requires resolved ==> Disjoint(s.backupDir, s.root)
    requires ZipBounded(s.unzip)
    ensures Grows(w.progress, Tap(screen, s, token, resolved, w).1.progress, 0.0, 1.0)
    ensures ZipMonotone(s.unzip) ==> Extends(w.progress, Tap(screen, s, token, resolved, w).1.progress, 0.0, 1.0)
  {
    var after := Tap(screen, s, token, resolved, w).1;
    if screen.busy {
      assert after.progress[|w.progress|..] == [];
    } else {
      var w' := w.(progress := w.progress + [0.0]);
      assert w'.progress[..|w.progress|] == w.progress && w'.progress[|w.progress|..] == [0.0];
      if token && resolved {
        PipelineProgress(s, w');
        GrowsTransitive(w.progress, w'.progress, after.progress, 0.0, 0.0, 1.0, 1.0);
        if ZipMonotone(s.unzip) {
          ExtendsTransitive(w.progress, w'.progress, after.progress, 0.0, 0.0, 1.0, 1.0);
        }
      }
    }
  }

  /** `skipAction`: both flags cleared, the screen replaced. */
  function Skip(screen: Screen): (r: Screen)
    ensures !r.hasRestoreChat && !r.hasRestoreFilesAndVideos && r.replaced
    ensures r.busy == screen.busy && r.skipHidden == screen.skipHidden && r.progressHidden == screen.progressHidden
  {
    screen.(hasRestoreChat := false, hasRestoreFilesAndVideos := false, replaced := true)
  }

  /** Skipping and restoring differ in one flag: a restore leaves
      `hasRestoreFilesAndVideos` as it was, skipping clears it. */
  lemma SkipVersusRestore(screen: Screen, s: Setting, w: World)
    requires Disjoint(s.backupDir, s.root)
    requires !screen.busy && screen.hasRestoreFilesAndVideos
    requires Pipeline(s, w.(progress := w.progress + [0.0])).0.Restored?
    ensures var restored := Tap(screen, s, true, true, w).0;
            && restored.replaced && Skip(screen).replaced
            && restored.hasRestoreFilesAndVideos && !Skip(screen).hasRestoreFilesAndVideos
  {
  }

  class RestoreViewController {
    var stopDownload: bool
    /** `restoreButton.isBusy`, `skipButton.isHidden`, `progressLabel.isHidden`. */
    var isBusy: bool
    var skipButtonHidden: bool
    var progressLabelHidden: bool
    /** `AccountUserDefault.shared.hasRestoreChat` and `.hasRestoreFilesAndVideos`. */
    var hasRestoreChat: bool
    var hasRestoreFilesAndVideos: bool
    /** The window's root view controller was replaced by the initial one. */
    var rootReplaced: bool
    /** Every value handed to `updateProgressLabel`, in order. */
    var progress: seq<real>
    /** Every error sent to the crash reporter, in order. */
    var reports: seq<Failure>
    /** Every `startDownloadingUbiquitousItem` request, in order. */
    var requests: seq<Path>

    const fs: FileStore
    /** `MixinFile.rootDirectory`. */
    const root: Path
    const cloud: map<Path, CloudItem>
    const unzip: Bytes -> Extraction
    const databaseCloseFails: bool

    constructor (fs: FileStore, root: Path, cloud: map<Path, CloudItem>, unzip: Bytes -> Extraction,
                 databaseCloseFails: bool, hasRestoreChat: bool, hasRestoreFilesAndVideos: bool)
      ensures this.fs == fs && this.root == root && this.cloud == cloud && this.unzip == unzip
      ensures this.databaseCloseFails == databaseCloseFails
      ensures View() == Screen(false, false, true, hasRestoreChat, hasRestoreFilesAndVideos, false)
      ensures !stopDownload && progress == [] && reports == [] && requests == []
    {
      this.fs := fs;
      this.root := root;
      this.cloud := cloud;
      this.unzip := unzip;
      this.databaseCloseFails := databaseCloseFails;
      this.hasRestoreChat := hasRestoreChat;
      this.hasRestoreFilesAndVideos := hasRestoreFilesAndVideos;
      stopDownload := false;
      isBusy := false;
      skipButtonHidden := false;
      progressLabelHidden := true;
      rootReplaced := false;
      progress := [];
      reports := [];
      requests := [];
    }

    function View(): Screen
      reads this`isBusy, this`skipButtonHidden, this`progressLabelHidden, this`hasRestoreChat,
            this`hasRestoreFilesAndVideos, this`rootReplaced
    {
      Screen(isBusy, skipButtonHidden, progressLabelHidden, hasRestoreChat, hasRestoreFilesAndVideos, rootReplaced)
    }

    /** The part of the state the pipeline changes. */
    function State(): World
      reads this`stopDownload, this`progress, this`reports, this`requests, fs`files
    {
      World(fs.files, stopDownload, progress, reports, requests)
    }

    function SettingFor(backupDir: Path): Setting {
      Setting(root, backupDir, cloud, unzip, databaseCloseFails, fs.unwritable, fs.undeletable)
    }

    /** `deinit`: tells a running download loop to stop. */
    method Deinit()
      modifies this`stopDownload
      ensures stopDownload
    {
      stopDownload := true;
    }

    /** `downloadFromCloud(url:)`: asks for the item, then polls. */
    method DownloadFromCloud(url: Path) returns (r: Wait)
      modifies this`stopDownload, this`requests, fs
      ensures Step(r, State()) == Download(cloud, url, old(State()))
    {
      if url !in cloud {
        return Returned;
      }
      var item := cloud[url];
      match item.probe {
        case ProbeFailed(code) => return Threw(CloudFailure(code));
        case Downloaded => return Returned;
        case NotDownloaded =>
      }
      requests := requests + [url];
      if item.startFailure.Some? {
        return Threw(CloudFailure(item.startFailure.value));
      }
      r := Poll(item.ticks, url);
    }

    /** The polling loop of `downloadFromCloud(url:)`; each pass plays the
        next tick of the item's script in place of the one-second sleep. */
    method Poll(ticks: seq<Tick>, url: Path) returns (r: Wait)
      modifies this`stopDownload, fs
      ensures Step(r, State()) == Settle(ticks, url, old(State()))
    {
      ghost var start := State();
      var i := 0;
      while i < |ticks|
        invariant 0 <= i <= |ticks|
        invariant Settle(ticks[i..], url, State()) == Settle(ticks, url, start)
        decreases |ticks| - i
      {
        var tick := ticks[i];
        if tick.deinitialized {
          Deinit();
        }
        if tick.arrived.Some? {
          fs.Write(url, tick.arrived.value);
        }
        assert ticks[i..][1..] == ticks[i + 1..];
        if stopDownload {
          return Returned;
        }
        match tick.probe {
          case ProbeFailed(code) => return Threw(CloudFailure(code));
          case Downloaded => return Returned;
          case NotDownloaded =>
        }
        if fs.FileExists(url) && fs.FileSize(url) > 0 {
          return Returned;
        }
        i := i + 1;
      }
      return StillWaiting;
    }

    /** `restoreDatabase(backupDir:)`. */
    method RestoreDatabase(backupDir: Path) returns (r: Wait)
      requires Disjoint(backupDir, root)
      modifies this`stopDownload, this`requests, fs
      ensures Step(r, State()) == RestorePipeline.RestoreDatabase(SettingFor(backupDir), old(State()))
      decreases if DatabaseUrl(root) in fs.files then 1 else 0
    {
      var local := DatabaseUrl(root);
      if fs.FileExists(local) {
        if databaseCloseFails {
          return Threw(DatabaseCloseFailure);
        }
        var removed := fs.RemoveItem(local);
        if removed.Failure? {
          return Threw(FileFailure(removed.error));
        }
        r := RestoreDatabase(backupDir);
        return;
      }
      var cloudUrl := CloudDatabaseUrl(backupDir);
      r := DownloadFromCloud(cloudUrl);
      if !r.Returned? || !fs.FileExists(cloudUrl) {
        return;
      }
      var removed := fs.RemoveItem(local);
      var copied := fs.CopyItem(cloudUrl, local);
      if copied.Failure? {
        r := Threw(FileFailure(copied.error));
      }
    }

    /** One pass of the category loop of `restorePhotosAndAudios`;
        `advanced` says whether `totalProgress` moves on. */
    method RestoreCategory(backupDir: Path, cat: ChatDirectory, total: real) returns (r: Wait, advanced: bool)
      modifies this`stopDownload, this`requests, this`progress, this`reports, fs
      ensures CategoryStep(r, advanced, State()) == RestorePipeline.RestoreCategory(SettingFor(backupDir), cat, total, old(State()))
    {
      var cloudUrl := CloudArchiveUrl(backupDir, cat);
      r := DownloadFromCloud(cloudUrl);
      advanced := false;
      if !r.Returned? || !fs.FileExists(cloudUrl) {
        return;
      }
      r, advanced := InstallArchive(backupDir, cat, total);
    }

    /** The body of the category loop once the archive is on disk: copy it
        to the staging zip, extract it, delete the staging zip. */
    method InstallArchive(backupDir: Path, cat: ChatDirectory, total: real) returns (r: Wait, advanced: bool)
      requires CloudArchiveUrl(backupDir, cat) in fs.files
      modifies this`progress, this`reports, fs
      ensures CategoryStep(r, advanced, State())
              == RestorePipeline.InstallArchive(SettingFor(backupDir), cat, total, old(State()))
    {
      ghost var w := State();
      ghost var spec := RestorePipeline.InstallArchive(SettingFor(backupDir), cat, total, w);
      var cloudUrl := CloudArchiveUrl(backupDir, cat);
      r := Returned;
      advanced := false;
      var staging := StagingZipUrl(root, cat);
      var removed := fs.RemoveItem(staging);
      ghost var cleared := fs.files;
      assert cleared == Remove(w.files, fs.undeletable, staging).1;
      var copied := fs.CopyItem(cloudUrl, staging);
      assert (copied, fs.files) == Copy(cleared, fs.unwritable, cloudUrl, staging);
      if copied.Failure? {
        r := Threw(FileFailure(copied.error));
        assert spec == CategoryStep(r, false, w.(files := fs.files));
        return;
      }
      ghost var copiedFiles := fs.files;
      var extraction := unzip(fs.files[staging]);
      fs.WriteAll(ExtractionDir(root, cat), extraction.written);
      progress := progress + ExtractionProgress(total, extraction.trace);
      if extraction.failure.Some? {
        reports := reports + [ZipFailure(extraction.failure.value)];
      }
      removed := fs.RemoveItem(staging);
      advanced := true;
      assert fs.files == Remove(copiedFiles + PlaceUnder(ExtractionDir(root, cat), extraction.written), fs.undeletable, staging).1;
      assert spec == CategoryStep(Returned, true, w.(files := fs.files, progress := progress, reports := reports));
    }

    /** `restorePhotosAndAudios(backupDir:)`. */
    method RestorePhotosAndAudios(backupDir: Path) returns (r: Wait)
      requires Disjoint(backupDir, root)
      modifies this`stopDownload, this`requests, this`progress, this`reports, fs
      ensures Step(r, State()) == RestoreMedia(SettingFor(backupDir), MediaCategories, DatabaseRestoredProgress, old(State()))
    {
      ghost var start := State();
      var totalProgress := DatabaseRestoredProgress;
      var i := 0;
      while i < |MediaCategories|
        invariant 0 <= i <= |MediaCategories|
        invariant RestoreMedia(SettingFor(backupDir), MediaCategories[i..], totalProgress, State())
                  == RestoreMedia(SettingFor(backupDir), MediaCategories, DatabaseRestoredProgress, start)
      {
        var advanced;
        r, advanced := RestoreCategory(backupDir, MediaCategories[i], totalProgress);
        assert MediaCategories[i..][1..] == MediaCategories[i + 1..];
        if !r.Returned? {
          return;
        }
        if advanced {
          totalProgress := totalProgress + ExtractionWeight;
        }
        i := i + 1;
      }
      r := Returned;
    }

    /** The background block of `restoreAction` once the token and the backup
        directory are known: the `do` part and the crash report of its
        `catch`. */
    method Run(backupDir: Path) returns (run: RunOutcome)
      requires Disjoint(backupDir, root)
      modifies this`stopDownload, this`requests, this`progress, this`reports, fs
      ensures (run, State()) == Pipeline(SettingFor(backupDir), old(State()))
    {
      progress := progress + [DownloadStartedProgress];
      var r := RestoreDatabase(backupDir);
      if r.Threw? {
        reports := reports + [r.error];
        return DatabaseStageFailed(r.error);
      } else if r.StillWaiting? {
        return StillDownloading;
      }
      progress := progress + [DatabaseRestoredProgress];
      r := RestorePhotosAndAudios(backupDir);
      if r.Threw? {
        reports := reports + [r.error];
        return MediaStageFailed(r.error);
      } else if r.StillWaiting? {
        return StillDownloading;
      }
      return Restored;
    }

    /** The blocks `restoreAction` sends to the main queue when the run ends:
        leave the screen after a restore, reset it after a failure. */
    method ShowOutcome(run: RunOutcome)
      modifies this`isBusy, this`skipButtonHidden, this`progressLabelHidden, this`hasRestoreChat, this`rootReplaced
      ensures View() == Finish(run, old(View()))
    {
      match run {
        case Restored =>
          hasRestoreChat := false;
          rootReplaced := true;
        case StillDownloading =>
        case DatabaseStageFailed(_) =>
          isBusy, skipButtonHidden, progressLabelHidden := false, false, true;
        case MediaStageFailed(_) =>
          isBusy, skipButtonHidden, progressLabelHidden := false, false, true;
      }
    }

    /** `restoreAction`, run to completion: `token` says whether the iCloud
        identity token is there, `backupDir` is `MixinFile.iCloudBackupDirectory`. */
    method RestoreAction(token: bool, backupDir: Option<Path>)
      requires backupDir.Some? ==> Disjoint(backupDir.value, root)
      modifies this`isBusy, this`skipButtonHidden, this`progressLabelHidden, this`hasRestoreChat, this`rootReplaced
      modifies this`stopDownload, this`requests, this`progress, this`reports, fs
      ensures (View(), State())
              == Tap(old(View()), SettingFor(if backupDir.Some? then backupDir.value else []),
                     token, backupDir.Some?, old(State()))
    {
      if isBusy {
        return;
      }
      isBusy := true;
      skipButtonHidden := true;
      progressLabelHidden := false;
      progress := progress + [0.0];
      if !token || backupDir.None? {
        return;
      }
      TapRuns(old(View()), SettingFor(backupDir.value), old(State()));
      var run := Run(backupDir.value);
      ShowOutcome(run);
    }

    /** `skipAction`. */
    method SkipAction()
      modifies this`hasRestoreChat, this`hasRestoreFilesAndVideos, this`rootReplaced
      ensures View() == Skip(old(View()))
    {
      hasRestoreChat := false;
      hasRestoreFilesAndVideos := false;
      rootReplaced := true;
    }
  }
}
