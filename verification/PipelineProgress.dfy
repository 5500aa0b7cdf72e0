/** The pipeline can always go on until it is at rest, and what it cannot repair. */
module PipelineProgress {
  import opened Options
  import opened Text
  import opened AssetPaths
  import opened Pipeline
  import opened PipelineTermination
  import PT = PipelineTheorems
  import G = GroupSpec
  import A = AtlasSpec
  import AB = AtlasBuilder

  /******* A guid that no asset has *******/

  lemma {:induction false} LongerThanAll(texts: set<string>) returns (pad: string)
    ensures !IsBlank(pad) && forall t | t in texts :: |t| < |pad|
  {
    if texts == {} {
      pad := "x";
      assert !IsSpace(pad[0]);
    } else {
      var t :| t in texts;
      pad := LongerThanAll(texts - {t});
      var shorter := pad;
      pad := pad + t + "x";
      NotBlank(pad, shorter);
    }
  }

  ghost function Guids(files: G.Listing): set<string> {
    set n, i | n in files && 0 <= i < |files[n]| :: files[n][i].guid
  }

  lemma {:induction false} Enumerate(paths: set<string>) returns (s: seq<string>)
    ensures forall p :: p in s <==> p in paths
  {
    if paths == {} {
      s := [];
    } else {
      var p :| p in paths;
      s := Enumerate(paths - {p});
      s := s + [p];
    }
  }

  function NewAssets(pad: string, paths: seq<string>): (r: seq<G.Asset>)
    ensures |r| == |paths| && forall i | 0 <= i < |r| :: r[i] == G.Asset(pad + paths[i], paths[i], false)
  {
    seq(|paths|, i requires 0 <= i < |paths| => G.Asset(pad + paths[i], paths[i], false))
  }

  /** The listing with atlases added to the output folder as assets of their own. */
  function WithAtlases(files: G.Listing, pad: string, paths: seq<string>): G.Listing {
    files["Atlas" := (if "Atlas" in files then files["Atlas"] else []) + NewAssets(pad, paths)]
  }

  lemma AtlasIsAddressable(pad: string, n: string)
    requires ProperName(n) && n[0] != '.' && !IsBlank(pad)
    ensures G.Listed(G.Asset(pad + AtlasPath(n), AtlasPath(n), false))
  {
    var path := AtlasPath(n);
    PT.AtlasPathSplits(n);
    PT.AtlasFile(n, ".spriteatlas");
    assert FileName(path)[0] == n[0];
    NotBlank(pad + path, pad);
    NoScript(OUTPUT_ROOT + "/" + n);
    PT.Associative(OUTPUT_ROOT, "/" + n, ".spriteatlas");
    PT.Associative(OUTPUT_ROOT, "/", n);
    NoLoginPrefab(OUTPUT_ROOT, "/" + n + ".spriteatlas");
  }

  lemma NoScript(s: string)
    ensures !EndsWithIgnoreCase(s + ".spriteatlas", ".cs") && !EndsWithIgnoreCase(s + ".spriteatlas", ".meta")
  {
    var path := s + ".spriteatlas";
    assert path[|path| - 2] == 'a' && Lower(path)[|path| - 2] == 'a';
    assert path[|path| - 1] == 's' && Lower(path)[|path| - 1] == 's';
    assert Lower(".cs")[1] == 'c' && Lower(".meta")[4] == 'a';
  }

  lemma NoLoginPrefab(root: string, rest: string)
    requires root == OUTPUT_ROOT
    ensures !EqualIgnoreCase(root + rest, G.LOGIN_PREFAB)
  {
    assert (root + rest)[27] == 'A' && Lower(root + rest)[27] == 'a';
    assert Lower(G.LOGIN_PREFAB)[27] == 'p';
  }

  /** An asset that was there before, or one whose guid is longer than all of those and names its path. */
  ghost predicate OldOrNew(files: G.Listing, pad: string, n: string, a: G.Asset) {
    || (n in files && a in files[n] && |a.guid| < |pad|)
    || (n == "Atlas" && a.guid == pad + a.path)
  }

  lemma AllOldOrNew(files: G.Listing, pad: string, paths: seq<string>)
    requires forall g | g in Guids(files) :: |g| < |pad|
    ensures forall n, i | n in WithAtlases(files, pad, paths) && 0 <= i < |WithAtlases(files, pad, paths)[n]| ::
              OldOrNew(files, pad, n, WithAtlases(files, pad, paths)[n][i])
  {
    var after: G.Listing := WithAtlases(files, pad, paths);
    forall n, i | n in after && 0 <= i < |after[n]| ensures OldOrNew(files, pad, n, after[n][i]) {
      if n in files && i < |files[n]| {
        assert files[n][i].guid in Guids(files);
      }
    }
  }

  lemma OneGuidOnePlace(files: G.Listing, pad: string, m: string, a: G.Asset, n: string, b: G.Asset)
    requires G.WellFormed(files) && OldOrNew(files, pad, m, a) && OldOrNew(files, pad, n, b)
    requires a.guid == b.guid && !IsBlank(a.guid)
    ensures m == n && a.path == b.path
  {
    if |a.guid| < |pad| {
      var i :| 0 <= i < |files[m]| && files[m][i] == a;
      var j :| 0 <= j < |files[n]| && files[n][j] == b;
    } else {
      assert a.guid[|pad|..] == a.path && b.guid[|pad|..] == b.path;
    }
  }

  lemma WithAtlasesIsWellFormed(files: G.Listing, pad: string, paths: seq<string>)
    requires G.WellFormed(files) && forall g | g in Guids(files) :: |g| < |pad|
    ensures G.WellFormed(WithAtlases(files, pad, paths))
  {
    var after: G.Listing := WithAtlases(files, pad, paths);
    assert !IsSpace("Atlas"[0]);
    AllOldOrNew(files, pad, paths);
    forall m, n, i, j | m in after && n in after && 0 <= i < |after[m]| && 0 <= j < |after[n]|
        && !IsBlank(after[m][i].guid) && after[m][i].guid == after[n][j].guid
      ensures m == n && after[m][i].path == after[n][j].path
    {
      OneGuidOnePlace(files, pad, m, after[m][i], n, after[n][j]);
    }
  }

  lemma NewAtPath(files: G.Listing, pad: string, paths: seq<string>, k: nat)
    requires k < |paths|
    ensures G.Asset(pad + paths[k], paths[k], false) in WithAtlases(files, pad, paths)["Atlas"]
  {
    var assets: seq<G.Asset> := WithAtlases(files, pad, paths)["Atlas"];
    assert assets[|assets| - |paths| + k] == NewAssets(pad, paths)[k];
  }

  lemma WithAtlasesListsThem(files: G.Listing, pad: string, paths: seq<string>, atlases: A.Atlases)
    requires forall p | p in atlases :: p in paths && G.Listed(G.Asset(pad + p, p, false))
    ensures AtlasesListed(WithAtlases(files, pad, paths), atlases)
  {
    var assets: seq<G.Asset> := WithAtlases(files, pad, paths)["Atlas"];
    forall p | p in atlases ensures exists i :: 0 <= i < |assets| && IsAssetAt(assets[i], p) {
      var k :| 0 <= k < |paths| && paths[k] == p;
      NewAtPath(files, pad, paths, k);
    }
  }

  lemma SyncedAtlasesAreAddressable(s: Editor, names: set<string>, pad: string)
    requires ProperSource(s.source) && !IsBlank(pad)
    ensures forall p | p in A.Synced(s.atlases, s.source, names) :: G.Listed(G.Asset(pad + p, p, false))
  {
    forall p | p in A.Synced(s.atlases, s.source, names) ensures G.Listed(G.Asset(pad + p, p, false)) {
      A.OnlySourceAtlasesRemain(s.atlases, s.source, names, p);
      var n :| n in s.source && p == AtlasPath(n);
      AtlasIsAddressable(pad, n);
    }
  }

  lemma OutputReport() returns (report: Callback)
    ensures Reported(REMOTE_ROOT, "Atlas", report) && forall p | p in Paths(report) :: IsAtlasOutput(p)
  {
    report := Callback([OUTPUT_ROOT], [], [], []);
    assert InReport(OUTPUT_ROOT, report) && Under(REMOTE_ROOT, "Atlas", OUTPUT_ROOT);
  }

  /** A listing that the asset database could have after an atlas sync. */
  lemma OutputFiles(s: Editor, names: set<string>) returns (files: G.Listing)
    requires Inv(s)
    ensures G.WellFormed(files) && AtlasesListed(files, A.Synced(s.atlases, s.source, names))
    ensures forall n | n != "Atlas" :: !FolderChanged(s.files, files, n)
  {
    var pad := LongerThanAll(Guids(s.files));
    var paths := Enumerate(A.Synced(s.atlases, s.source, names).Keys);
    files := WithAtlases(s.files, pad, paths);
    WithAtlasesIsWellFormed(s.files, pad, paths);
    SyncedAtlasesAreListed(s, names, pad, paths);
    OthersUnchanged(s.files, pad, paths);
  }

  lemma SyncedAtlasesAreListed(s: Editor, names: set<string>, pad: string, paths: seq<string>)
    requires ProperSource(s.source) && !IsBlank(pad)
    requires forall p :: p in paths <==> p in A.Synced(s.atlases, s.source, names).Keys
    ensures AtlasesListed(WithAtlases(s.files, pad, paths), A.Synced(s.atlases, s.source, names))
  {
    SyncedAtlasesAreAddressable(s, names, pad);
    WithAtlasesListsThem(s.files, pad, paths, A.Synced(s.atlases, s.source, names));
  }

  lemma OthersUnchanged(files: G.Listing, pad: string, paths: seq<string>)
    ensures forall n | n != "Atlas" :: !FolderChanged(files, WithAtlases(files, pad, paths), n)
  {
  }

  /** The asset database always has an answer to an atlas sync. */
  lemma OutputAnswer(s: Editor) returns (e: Event)
    requires Inv(s) && s.progress.AtlasesNext?
    ensures e.SyncAtlases? && Enabled(s, e)
  {
    var names := ChangedNames(SOURCE_ROOT, s.progress.paths);
    if names == {} {
      e := SyncAtlases(s.files, []);
    } else {
      var files := OutputFiles(s, names);
      var report := OutputReport();
      e := SyncAtlases(files, [report]);
      assert Reported(REMOTE_ROOT, "Atlas", e.reports[0]);
    }
  }

  /** The pipeline is at rest exactly when no step of its own can be taken. */
  lemma RestsOnlyWhenDone(s: Editor)
    requires Inv(s)
    ensures Quiescent(s) <==> !exists e: Event :: IsOwnStep(e) && Enabled(s, e)
  {
    if s.queue != [] {
      assert Enabled(s, Deliver);
    } else if s.progress.GroupsNext? {
      assert Enabled(s, SyncGroups([]));
    } else if s.progress.AtlasesNext? {
      var e := OutputAnswer(s);
    } else if s.scheduled {
      assert Enabled(s, StartSync);
    } else if s.prefabsScheduled {
      assert Enabled(s, EnsurePrefabs([]));
    }
  }

  /**
   What the pipeline does not repair by itself: an atlas removed by hand, from a source folder that is there, is
   reported, and its report alone does not bring it back.
   */
  lemma RemovedAtlasStaysMissing(s: Editor, n: string, report: Callback)
    requires n in s.source && AtlasPath(n) in s.atlases && Paths(report) == {AtlasPath(n)}
    ensures !A.InSync(AB.AfterChanges(s.atlases - {AtlasPath(n)}, s.source, WatchedPaths(report)), s.source, n)
  {
    assert OUTPUT_ROOT + "/" <= AtlasPath(n);
    OutputIsNoSource(AtlasPath(n));
    PT.AtlasInSyncExactlyWhen(s.atlases - {AtlasPath(n)}, s.source, WatchedPaths(report), n);
  }

  /** A sync that concerns the folder brings it back, and so does a full one. */
  lemma RemovedAtlasComesBack(s: Editor, n: string, paths: set<string>)
    requires n in s.source && n in ChangedNames(SOURCE_ROOT, paths)
    ensures A.InSync(AB.AfterChanges(s.atlases - {AtlasPath(n)}, s.source, paths), s.source, n)
    ensures A.InSync(A.Rebuilt(s.atlases - {AtlasPath(n)}, s.source), s.source, n)
  {
    PT.AtlasInSyncExactlyWhen(s.atlases - {AtlasPath(n)}, s.source, paths, n);
    A.InSyncAfterExactlyWhen(s.atlases - {AtlasPath(n)}, s.source, s.source, n);
  }
}
