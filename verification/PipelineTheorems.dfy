/** What the sync pipeline guarantees over every run. */
module PipelineTheorems {
  import opened Options
  import opened Text
  import opened AssetPaths
  import opened WatchedTexts
  import opened Pipeline
  import G = GroupSpec
  import GT = GroupTheorems
  import GB = GroupBuilder
  import A = AtlasSpec
  import AB = AtlasBuilder

  /******* Bookkeeping *******/

  lemma {:induction false} QueueAppend(xs: seq<Callback>, ys: seq<Callback>)
    ensures QueuedPaths(xs + ys) == QueuedPaths(xs) + QueuedPaths(ys)
    ensures QueuedPrefabs(xs + ys) == QueuedPrefabs(xs) + QueuedPrefabs(ys)
  {
    if xs == [] {
      assert xs + ys == ys;
    } else {
      assert (xs + ys)[0] == xs[0] && (xs + ys)[1..] == xs[1..] + ys;
      QueueAppend(xs[1..], ys);
    }
  }

  lemma QueueAdd(queue: seq<Callback>, report: Callback)
    ensures QueuedPaths(queue + [report]) == QueuedPaths(queue) + WatchedPaths(report)
    ensures QueuedPrefabs(queue + [report]) == QueuedPrefabs(queue) + PrefabPaths(report)
  {
    QueueAppend(queue, [report]);
    assert QueuedPaths([report]) == WatchedPaths(report) && QueuedPrefabs([report]) == PrefabPaths(report);
  }

  lemma {:induction false} QueuedAt(queue: seq<Callback>, i: nat)
    requires i < |queue|
    ensures WatchedPaths(queue[i]) <= QueuedPaths(queue)
  {
    if i > 0 {
      QueuedAt(queue[1..], i - 1);
    }
  }

  /** A reported folder is covered by the paths the watcher takes from the report. */
  lemma ReportCovers(root: string, n: string, report: Callback)
    requires root == REMOTE_ROOT || root == SOURCE_ROOT
    requires ProperName(n) && Reported(root, n, report)
    ensures n in ChangedNames(root, WatchedPaths(report))
  {
    var p :| InReport(p, report) && Under(root, n, p);
    PathIsTaken(root, n, p);
    assert p in WatchedPaths(report);
  }

  lemma PathIsTaken(root: string, n: string, p: string)
    requires root == REMOTE_ROOT || root == SOURCE_ROOT
    requires ProperName(n) && Under(root, n, p)
    ensures ManagedName(root, p) == Some(n) && Watched(p)
  {
    RootsArePlain();
    UnderIsManaged(root, n, p);
  }

  lemma RootsArePlain()
    ensures !IsBlank(REMOTE_ROOT) && HasNoBackslash(REMOTE_ROOT)
    ensures !IsBlank(SOURCE_ROOT) && HasNoBackslash(SOURCE_ROOT)
  {
    assert !IsSpace(REMOTE_ROOT[0]) && !IsSpace(SOURCE_ROOT[0]);
  }

  lemma MoreWork(root: string, ps: set<string>, qs: set<string>)
    requires ps <= qs
    ensures ChangedNames(root, ps) <= ChangedNames(root, qs)
  {
  }

  /******* What a sync brings in sync *******/

  /**
   Exactly when a source folder's atlas is right after a sync for some paths: when the paths concern it, when it was
   right before, or when the folder is gone and the paths concern any.
   */
  lemma AtlasInSyncExactlyWhen(atlases: A.Atlases, source: set<string>, paths: set<string>, n: string)
    ensures var names := ChangedNames(SOURCE_ROOT, paths);
            A.InSync(AB.AfterChanges(atlases, source, paths), source, n) <==>
              n in names || A.InSync(atlases, source, n) || (n !in source && names != {})
  {
    A.InSyncAfterExactlyWhen(atlases, source, ChangedNames(SOURCE_ROOT, paths), n);
  }

  /**
   Exactly when a folder's group is right after a sync for some paths: when the paths concern it, when the folder is
   gone and the paths concern any, or when the group was right before, save for guids that folders concerned claim.
   */
  lemma GroupInSyncExactlyWhen(groups: G.Groups, files: G.Listing, paths: set<string>, n: string)
    ensures var folders := ChangedNames(REMOTE_ROOT, paths);
            G.InSync(GB.AfterChanges(groups, files, paths), files, n) <==>
              || n in folders
              || (folders == {} && G.InSync(groups, files, n))
              || (folders != {} && n !in files)
              || (folders != {} && G.GroupName(n) in groups
                  && G.Unclaimed(groups[G.GroupName(n)], files, folders) == G.EntriesOf(n, files[n]))
  {
    GT.InSyncAfterExactlyWhen(groups, files, ChangedNames(REMOTE_ROOT, paths), n);
  }

  /******* The invariant, event by event *******/

  lemma EditKeepsInv(s: Editor, e: Event)
    requires Inv(s) && e.Edit? && Enabled(s, e)
    ensures Inv(Apply(s, e))
  {
    var after := Apply(s, e);
    QueueAdd(s.queue, e.report);
    BarePrefabsAreTaken(s, e);
    EditedGroups(s, e, after);
    EditedAtlases(s, e, after);
  }

  /** A prefab that an edit leaves without the component is taken from its report. */
  lemma BarePrefabsAreTaken(s: Editor, e: Event)
    requires e.Edit? && EditReported(s, e)
    ensures e.bare - s.bare <= PrefabPaths(e.report)
  {
    forall p | p in e.bare - s.bare ensures p in PrefabPaths(e.report) {
      PrefabSpelled(p);
    }
  }

  lemma EditedGroups(s: Editor, e: Event, after: Editor)
    requires Inv(s) && e.Edit? && EditReported(s, e) && after.files == e.files && after.groups == e.groups
    requires after.loose.groups == s.loose.groups + ChangedGroups(s.groups, e.groups)
    requires GroupWork(s) + WatchedPaths(e.report) <= GroupWork(after)
    ensures GroupsAreNamed(after.groups, after.loose.groups)
    ensures forall n | n !in ChangedNames(REMOTE_ROOT, GroupWork(after)) :: GroupIsClean(after, n)
  {
    forall n | n !in ChangedNames(REMOTE_ROOT, GroupWork(after)) ensures GroupIsClean(after, n) {
      EditedGroup(s, e, after, n);
    }
    forall k | k in after.groups && G.IsManagedGroup(k) && k !in after.loose.groups ensures REMOTE_PREFIX <= k {
      assert k in s.groups;
    }
  }

  lemma EditedGroup(s: Editor, e: Event, after: Editor, n: string)
    requires Inv(s) && e.Edit? && EditReported(s, e) && after.files == e.files && after.groups == e.groups
    requires after.loose.groups == s.loose.groups + ChangedGroups(s.groups, e.groups)
    requires GroupWork(s) + WatchedPaths(e.report) <= GroupWork(after)
    requires n !in ChangedNames(REMOTE_ROOT, GroupWork(after))
    ensures GroupIsClean(after, n)
  {
    MoreWork(REMOTE_ROOT, GroupWork(s), GroupWork(after));
    MoreWork(REMOTE_ROOT, WatchedPaths(e.report), GroupWork(after));
    assert GroupIsClean(s, n);
    if FolderChanged(s.files, e.files, n) {
      ReportCovers(REMOTE_ROOT, n, e.report);
      assert false;
    }
  }

  lemma EditedAtlases(s: Editor, e: Event, after: Editor)
    requires Inv(s) && e.Edit? && EditReported(s, e) && after.source == e.source && after.atlases == e.atlases
    requires after.loose.atlases == s.loose.atlases + ChangedAtlases(s.atlases, e.atlases)
    requires AtlasWork(s) + WatchedPaths(e.report) <= AtlasWork(after)
    ensures AtlasesAreNamed(after.atlases, after.loose.atlases)
    ensures forall n | n !in ChangedNames(SOURCE_ROOT, AtlasWork(after)) :: AtlasIsClean(after, n)
  {
    forall n | n !in ChangedNames(SOURCE_ROOT, AtlasWork(after)) ensures AtlasIsClean(after, n) {
      EditedAtlas(s, e, after, n);
    }
    forall p | p in after.atlases && p !in after.loose.atlases ensures IsAtlas(p) {
      assert p in s.atlases;
    }
  }

  lemma EditedAtlas(s: Editor, e: Event, after: Editor, n: string)
    requires Inv(s) && e.Edit? && EditReported(s, e) && after.source == e.source && after.atlases == e.atlases
    requires after.loose.atlases == s.loose.atlases + ChangedAtlases(s.atlases, e.atlases)
    requires AtlasWork(s) + WatchedPaths(e.report) <= AtlasWork(after)
    requires n !in ChangedNames(SOURCE_ROOT, AtlasWork(after))
    ensures AtlasIsClean(after, n)
  {
    MoreWork(SOURCE_ROOT, AtlasWork(s), AtlasWork(after));
    MoreWork(SOURCE_ROOT, WatchedPaths(e.report), AtlasWork(after));
    assert AtlasIsClean(s, n);
    if (n in s.source) != (n in e.source) {
      ReportCovers(SOURCE_ROOT, n, e.report);
      assert false;
    }
  }

  lemma DeliverKeepsInv(s: Editor)
    requires Inv(s) && s.queue != []
    ensures Inv(Delivered(s))
  {
    var after := Delivered(s);
    assert GroupWork(after) == GroupWork(s) && AtlasWork(after) == AtlasWork(s);
    assert after.pendingPrefabs + QueuedPrefabs(after.queue) == s.pendingPrefabs + QueuedPrefabs(s.queue);
    StaysClean(s, after);
  }

  /** Steps that touch neither files, groups nor atlases, and drop no work. */
  lemma StaysClean(s: Editor, after: Editor)
    requires Inv(s) && after.files == s.files && after.source == s.source && after.groups == s.groups
    requires after.atlases == s.atlases
    requires after.loose.groups == s.loose.groups && after.loose.atlases == s.loose.atlases
    requires GroupWork(s) <= GroupWork(after) && AtlasWork(s) <= AtlasWork(after)
    ensures forall n | n !in ChangedNames(REMOTE_ROOT, GroupWork(after)) :: GroupIsClean(after, n)
    ensures forall n | n !in ChangedNames(SOURCE_ROOT, AtlasWork(after)) :: AtlasIsClean(after, n)
  {
    MoreWork(REMOTE_ROOT, GroupWork(s), GroupWork(after));
    MoreWork(SOURCE_ROOT, AtlasWork(s), AtlasWork(after));
    forall n | n !in ChangedNames(REMOTE_ROOT, GroupWork(after)) ensures GroupIsClean(after, n) {
      assert GroupIsClean(s, n);
    }
    forall n | n !in ChangedNames(SOURCE_ROOT, AtlasWork(after)) ensures AtlasIsClean(after, n) {
      assert AtlasIsClean(s, n);
    }
  }

  lemma StartKeepsInv(s: Editor)
    requires Inv(s) && Enabled(s, StartSync)
    ensures Inv(Apply(s, StartSync))
  {
    var after := Apply(s, StartSync);
    assert GroupWork(after) == GroupWork(s) && AtlasWork(after) == AtlasWork(s);
    StaysClean(s, after);
  }

  lemma SyncAtlasesKeepsInv(s: Editor, paths: set<string>, files: G.Listing, reports: seq<Callback>)
    requires Inv(s) && s.progress == AtlasesNext(paths) && SyncOutput(s, files, reports, paths)
    ensures Inv(AtlasesSynced(s, paths, files, reports))
  {
    var after := AtlasesSynced(s, paths, files, reports);
    QueueAppend(s.queue, reports);
    GroupsAfterAtlases(s, files, reports, after);
    AtlasesAfterSync(s, after, paths);
    SyncedAtlasesAreNamed(s, paths);
  }

  /** Groups that were clean are clean still; a changed output folder is on its way to the watcher. */
  lemma GroupsAfterAtlases(s: Editor, files: G.Listing, reports: seq<Callback>, after: Editor)
    requires Inv(s) && OutputOnItsWay(s, files, reports)
    requires after.files == files && after.groups == s.groups && after.loose.groups == s.loose.groups
    requires GroupWork(s) + QueuedPaths(reports) <= GroupWork(after)
    ensures forall n | n !in ChangedNames(REMOTE_ROOT, GroupWork(after)) :: GroupIsClean(after, n)
  {
    MoreWork(REMOTE_ROOT, GroupWork(s), GroupWork(after));
    MoreWork(REMOTE_ROOT, QueuedPaths(reports), GroupWork(after));
    forall n | n !in ChangedNames(REMOTE_ROOT, GroupWork(after)) ensures GroupIsClean(after, n) {
      assert GroupIsClean(s, n);
      if FolderChanged(s.files, files, n) {
        OutputIsReported(s, files, reports, n);
        assert false;
      }
    }
  }

  /** Only the output folder has changed, and if it has, that is reported. */
  ghost predicate OutputOnItsWay(s: Editor, files: G.Listing, reports: seq<Callback>) {
    && (forall n | n != "Atlas" :: !FolderChanged(s.files, files, n))
    && (FolderChanged(s.files, files, "Atlas") ==>
          exists i :: 0 <= i < |reports| && Reported(REMOTE_ROOT, "Atlas", reports[i]))
  }

  lemma OutputIsReported(s: Editor, files: G.Listing, reports: seq<Callback>, n: string)
    requires OutputOnItsWay(s, files, reports) && FolderChanged(s.files, files, n)
    ensures n in ChangedNames(REMOTE_ROOT, QueuedPaths(reports))
  {
    var i :| 0 <= i < |reports| && Reported(REMOTE_ROOT, "Atlas", reports[i]);
    assert !IsSpace("Atlas"[0]);
    ReportIsQueued(n, reports, i);
  }

  lemma ReportIsQueued(n: string, reports: seq<Callback>, i: nat)
    requires i < |reports| && ProperName(n) && Reported(REMOTE_ROOT, n, reports[i])
    ensures n in ChangedNames(REMOTE_ROOT, QueuedPaths(reports))
  {
    ReportCovers(REMOTE_ROOT, n, reports[i]);
    QueuedAt(reports, i);
    MoreWork(REMOTE_ROOT, WatchedPaths(reports[i]), QueuedPaths(reports));
  }

  lemma AtlasesAfterSync(s: Editor, after: Editor, paths: set<string>)
    requires Inv(s) && s.progress == AtlasesNext(paths)
    requires after.atlases == AB.AfterChanges(s.atlases, s.source, paths) && after.source == s.source
    requires after.loose.atlases == AtlasesLeft(s, paths)
    requires AtlasWork(s) <= AtlasWork(after) + paths
    ensures forall n | n !in ChangedNames(SOURCE_ROOT, AtlasWork(after)) :: AtlasIsClean(after, n)
  {
    ChangedNamesUnion(SOURCE_ROOT, AtlasWork(after), paths);
    MoreWork(SOURCE_ROOT, AtlasWork(s), AtlasWork(after) + paths);
    var names := ChangedNames(SOURCE_ROOT, paths);
    forall n | n !in ChangedNames(SOURCE_ROOT, AtlasWork(after)) ensures AtlasIsClean(after, n) {
      assert n in names || AtlasIsClean(s, n);
      AtlasInSyncExactlyWhen(s.atlases, s.source, paths, n);
      A.IsAtlasOfName(n, s.source - names);
    }
  }

  lemma SyncedAtlasesAreNamed(s: Editor, paths: set<string>)
    requires AtlasesAreNamed(s.atlases, s.loose.atlases)
    ensures AtlasesAreNamed(AB.AfterChanges(s.atlases, s.source, paths), AtlasesLeft(s, paths))
  {
    var names := ChangedNames(SOURCE_ROOT, paths);
    if names != {} {
      forall p | p in A.Synced(s.atlases, s.source, names) ensures IsAtlas(p) {
        A.OnlySourceAtlasesRemain(s.atlases, s.source, names, p);
      }
    }
  }

  lemma SyncGroupsKeepsInv(s: Editor, paths: set<string>, reports: seq<Callback>)
    requires Inv(s) && s.progress == GroupsNext(paths)
    ensures Inv(GroupsSynced(s, paths, reports))
  {
    var after := GroupsSynced(s, paths, reports);
    QueueAppend(s.queue, reports);
    GroupsAfterSync(s, after, paths);
    AtlasesStayClean(s, after);
    SyncedGroupsAreNamed(s, paths);
    GuidsStayUnique(s.groups, s.files, paths);
  }

  lemma AtlasesStayClean(s: Editor, after: Editor)
    requires Inv(s) && after.source == s.source && after.atlases == s.atlases
    requires after.loose.atlases == s.loose.atlases && AtlasWork(s) <= AtlasWork(after)
    ensures forall n | n !in ChangedNames(SOURCE_ROOT, AtlasWork(after)) :: AtlasIsClean(after, n)
  {
    MoreWork(SOURCE_ROOT, AtlasWork(s), AtlasWork(after));
    forall n | n !in ChangedNames(SOURCE_ROOT, AtlasWork(after)) ensures AtlasIsClean(after, n) {
      assert AtlasIsClean(s, n);
    }
  }

  lemma GuidsStayUnique(groups: G.Groups, files: G.Listing, paths: set<string>)
    requires G.WellFormed(files) && G.UniqueGuids(groups)
    ensures G.UniqueGuids(GB.AfterChanges(groups, files, paths))
  {
    GT.SyncKeepsGuidsUnique(groups, files, ChangedNames(REMOTE_ROOT, paths));
  }

  lemma SyncedGroupsAreNamed(s: Editor, paths: set<string>)
    requires GroupsAreNamed(s.groups, s.loose.groups)
    ensures GroupsAreNamed(GB.AfterChanges(s.groups, s.files, paths), GroupsLeft(s, paths))
  {
    var names := ChangedNames(REMOTE_ROOT, paths);
    if names != {} {
      forall k | k in G.Synced(s.groups, s.files, names) && G.IsManagedGroup(k) ensures REMOTE_PREFIX <= k {
        GT.SyncedAt(s.groups, s.files, names, k);
      }
    }
  }

  lemma GroupsAfterSync(s: Editor, after: Editor, paths: set<string>)
    requires Inv(s) && s.progress == GroupsNext(paths)
    requires after.groups == GB.AfterChanges(s.groups, s.files, paths) && after.files == s.files
    requires after.loose.groups == GroupsLeft(s, paths)
    requires GroupWork(s) <= GroupWork(after) + paths
    ensures forall n | n !in ChangedNames(REMOTE_ROOT, GroupWork(after)) :: GroupIsClean(after, n)
  {
    ChangedNamesUnion(REMOTE_ROOT, GroupWork(after), paths);
    MoreWork(REMOTE_ROOT, GroupWork(s), GroupWork(after) + paths);
    forall n | n !in ChangedNames(REMOTE_ROOT, GroupWork(after)) ensures GroupIsClean(after, n) {
      assert n in ChangedNames(REMOTE_ROOT, paths) || GroupIsClean(s, n);
      GroupAfterSync(s, paths, n);
    }
  }

  lemma GroupAfterSync(s: Editor, paths: set<string>, n: string)
    requires G.WellFormed(s.files) && (n in ChangedNames(REMOTE_ROOT, paths) || GroupIsClean(s, n))
    ensures G.GroupName(n) in GroupsLeft(s, paths)
            || G.InSync(GB.AfterChanges(s.groups, s.files, paths), s.files, n)
  {
    var names := ChangedNames(REMOTE_ROOT, paths);
    if n in names {
      GT.SyncedFoldersAreInSync(s.groups, s.files, names, n);
    } else if names != {} {
      if n in s.files && G.GroupName(n) in s.loose.groups {
        G.NamedForIs(G.GroupName(n), s.files.Keys - names);
      } else if n in s.files {
        GT.CleanFoldersStayInSync(s.groups, s.files, names, n);
      } else {
        GroupInSyncExactlyWhen(s.groups, s.files, paths, n);
      }
    }
  }

  lemma EnsurePrefabsKeepsInv(s: Editor, e: Event)
    requires Inv(s) && e.EnsurePrefabs? && Enabled(s, e)
    ensures Inv(Apply(s, e))
  {
    var after := Apply(s, e);
    QueueAppend(s.queue, e.reports);
    StaysClean(s, after);
  }

  lemma LoseKeepsInv(s: Editor, collected: bool, taken: bool, prefabs: bool)
    requires Inv(s)
    ensures Inv(Lost(s, collected, taken, prefabs))
  {
    var after := Lost(s, collected, taken, prefabs);
    LostGroups(s, after, LostPaths(s, collected, if taken then TakenForGroups(s) else {}));
    LostAtlases(s, after, LostPaths(s, collected, if taken then TakenForAtlases(s) else {}));
  }

  /** Folders whose paths were lost are loose, so the others are as clean as before. */
  lemma LostGroups(s: Editor, after: Editor, lost: set<string>)
    requires Inv(s) && after.files == s.files && after.groups == s.groups
    requires after.loose.groups == s.loose.groups + GroupsOf(ChangedNames(REMOTE_ROOT, lost))
    requires GroupWork(s) <= GroupWork(after) + lost
    ensures forall n | n !in ChangedNames(REMOTE_ROOT, GroupWork(after)) :: GroupIsClean(after, n)
  {
    ChangedNamesUnion(REMOTE_ROOT, GroupWork(after), lost);
    MoreWork(REMOTE_ROOT, GroupWork(s), GroupWork(after) + lost);
    forall n | n !in ChangedNames(REMOTE_ROOT, GroupWork(after)) ensures GroupIsClean(after, n) {
      assert n in ChangedNames(REMOTE_ROOT, lost) || GroupIsClean(s, n);
    }
  }

  lemma LostAtlases(s: Editor, after: Editor, lost: set<string>)
    requires Inv(s) && after.source == s.source && after.atlases == s.atlases
    requires after.loose.atlases == s.loose.atlases + AtlasesOf(ChangedNames(SOURCE_ROOT, lost))
    requires AtlasWork(s) <= AtlasWork(after) + lost
    ensures forall n | n !in ChangedNames(SOURCE_ROOT, AtlasWork(after)) :: AtlasIsClean(after, n)
  {
    ChangedNamesUnion(SOURCE_ROOT, AtlasWork(after), lost);
    MoreWork(SOURCE_ROOT, AtlasWork(s), AtlasWork(after) + lost);
    forall n | n !in ChangedNames(SOURCE_ROOT, AtlasWork(after)) ensures AtlasIsClean(after, n) {
      assert n in ChangedNames(SOURCE_ROOT, lost) || AtlasIsClean(s, n);
    }
  }

  lemma RebuildGroupsKeepsInv(s: Editor, reports: seq<Callback>)
    requires Inv(s) && Enabled(s, RebuildGroups(reports))
    ensures Inv(Apply(s, RebuildGroups(reports)))
  {
    var after := Apply(s, RebuildGroups(reports));
    QueueAppend(s.queue, reports);
    AtlasesStayClean(s, after);
    RebuiltGroupsAreClean(s.groups, s.files);
    assert forall n :: GroupIsClean(after, n);
  }

  lemma RebuiltGroupsAreClean(groups: G.Groups, files: G.Listing)
    requires G.WellFormed(files) && G.UniqueGuids(groups)
    ensures G.UniqueGuids(G.Rebuilt(groups, files)) && GroupsAreNamed(G.Rebuilt(groups, files), {})
    ensures forall n :: G.InSync(G.Rebuilt(groups, files), files, n)
  {
    GT.RebuildIsIdempotent(groups, files);
    GT.SyncKeepsGuidsUnique(groups, files, files.Keys);
    GT.RebuildIsFixedPoint(G.Rebuilt(groups, files), files);
  }

  lemma RebuildAtlasesKeepsInv(s: Editor, files: G.Listing, reports: seq<Callback>)
    requires Inv(s) && Enabled(s, RebuildAtlases(files, reports))
    ensures Inv(Apply(s, RebuildAtlases(files, reports)))
  {
    var after := Apply(s, RebuildAtlases(files, reports));
    QueueAppend(s.queue, reports);
    GroupsAfterAtlases(s, files, reports, after);
    RebuiltAtlasesAreClean(s.atlases, s.source);
    assert forall n :: AtlasIsClean(after, n);
  }

  lemma RebuiltAtlasesAreClean(atlases: A.Atlases, source: set<string>)
    ensures AtlasesAreNamed(A.Rebuilt(atlases, source), {})
    ensures forall n :: A.InSync(A.Rebuilt(atlases, source), source, n)
  {
    forall n ensures A.InSync(A.Rebuilt(atlases, source), source, n) {
      A.InSyncAfterExactlyWhen(atlases, source, source, n);
    }
    forall p | p in A.Rebuilt(atlases, source) ensures IsAtlas(p) {
      A.OnlySourceAtlasesRemain(atlases, source, source, p);
    }
  }

  lemma StepKeepsInv(s: Editor, e: Event)
    requires Inv(s) && Enabled(s, e)
    ensures Inv(Apply(s, e))
  {
    match e {
      case Edit(_, _, _, _, _, _) => EditKeepsInv(s, e);
      case RebuildAtlases(files, reports) => RebuildAtlasesKeepsInv(s, files, reports);
      case RebuildGroups(reports) => RebuildGroupsKeepsInv(s, reports);
      case Lose(collected, taken, prefabs) => LoseKeepsInv(s, collected, taken, prefabs);
      case Deliver => DeliverKeepsInv(s);
      case StartSync => StartKeepsInv(s);
      case SyncAtlases(files, reports) => SyncAtlasesKeepsInv(s, s.progress.paths, files, reports);
      case SyncGroups(reports) => SyncGroupsKeepsInv(s, s.progress.paths, reports);
      case EnsurePrefabs(_) => EnsurePrefabsKeepsInv(s, e);
    }
  }

  /** Over every run, each folder neither covered by outstanding paths nor loose is in sync. */
  lemma {:induction false} RunKeepsInv(states: seq<Editor>, events: seq<Event>)
    requires IsRun(states, events) && Inv(states[0])
    ensures Inv(states[|events|])
    decreases |events|
  {
    if events != [] {
      var k := |events| - 1;
      assert IsRun(states[..k + 1], events[..k]) by {
        assert forall i | 0 <= i < k :: Enabled(states[i], events[i]);
      }
      RunKeepsInv(states[..k + 1], events[..k]);
      StepKeepsInv(states[k], events[k]);
    }
  }

  /******* Quiescence *******/

  /** A managed group is there exactly when its folder is, with exactly the folder's entries. */
  ghost predicate GroupIsRight(s: Editor, k: string) {
    G.IsManagedGroup(k) ==>
      && (k in s.groups <==> G.NamedFor(k, s.files.Keys))
      && (k in s.groups ==> s.groups[k] == G.EntriesOf(G.FolderOf(k), s.files[G.FolderOf(k)]))
  }

  /** An atlas is there exactly when its source folder is, and packs just that. */
  ghost predicate AtlasIsRight(s: Editor, p: string) {
    && (p in s.atlases <==> A.IsAtlasOf(p, s.source))
    && (p in s.atlases ==> s.atlases[p] == A.AtlasFor(A.AtlasName(p)))
  }

  /** What is loose, changed by hand or lost sight of and not synced since, happens to be right. */
  ghost predicate LooseIsRight(s: Editor) {
    && (forall k | k in s.loose.groups :: GroupIsRight(s, k))
    && (forall p | p in s.loose.atlases :: AtlasIsRight(s, p))
  }

  /** Groups and atlases are as rebuilding everything would leave them. */
  ghost predicate AsRebuilt(s: Editor) {
    G.Rebuilt(s.groups, s.files) == s.groups && A.Rebuilt(s.atlases, s.source) == s.atlases
  }

  /**
   Once nothing is left to do, everything is as a full rebuild would leave it exactly when what is loose is right;
   with nothing loose, always.  And every prefab has its component, unless its path was lost.
   */
  lemma QuiescentIsRebuiltExactlyWhen(s: Editor)
    requires Inv(s) && Quiescent(s)
    ensures s.bare <= s.loose.prefabs
    ensures AsRebuilt(s) <==> LooseIsRight(s)
  {
    assert GroupWork(s) == {} && AtlasWork(s) == {};
    if LooseIsRight(s) {
      RightGroupsAreRebuilt(s);
      RightAtlasesAreRebuilt(s);
    }
    if AsRebuilt(s) {
      forall k | k in s.loose.groups ensures GroupIsRight(s, k) {
        if G.IsManagedGroup(k) {
          GT.RebuildDependsOnFilesAlone(s.groups, s.files, k);
        }
      }
      forall p | p in s.loose.atlases ensures AtlasIsRight(s, p) {
        RebuiltAtlasIsRight(s, p);
      }
    }
  }

  lemma RebuiltAtlasIsRight(s: Editor, p: string)
    requires A.Rebuilt(s.atlases, s.source) == s.atlases
    ensures AtlasIsRight(s, p)
  {
    A.RebuiltKeys(s.atlases, s.source);
    if n :| n in s.source && p == AtlasPath(n) {
      A.SyncedAt(s.atlases, s.source, s.source, n);
      A.AtlasNameOf(n);
    }
  }

  lemma RightGroupsAreRebuilt(s: Editor)
    requires G.WellFormed(s.files) && G.UniqueGuids(s.groups) && GroupsAreNamed(s.groups, s.loose.groups)
    requires forall n :: GroupIsClean(s, n)
    requires forall k | k in s.loose.groups :: GroupIsRight(s, k)
    ensures G.Rebuilt(s.groups, s.files) == s.groups
  {
    forall n ensures G.InSync(s.groups, s.files, n) {
      G.GroupNameProps(n);
      assert GroupIsClean(s, n);
      G.NamedForIs(G.GroupName(n), s.files.Keys);
    }
    forall k | k in s.groups && G.IsManagedGroup(k) ensures G.NamedFor(k, s.files.Keys) {
      if k in s.loose.groups {
        assert GroupIsRight(s, k);
      } else {
        assert k == G.GroupName(G.FolderOf(k));
        assert G.InSync(s.groups, s.files, G.FolderOf(k));
      }
    }
    GT.RebuildIsFixedPoint(s.groups, s.files);
  }

  lemma RightAtlasesAreRebuilt(s: Editor)
    requires AtlasesAreNamed(s.atlases, s.loose.atlases)
    requires forall n :: AtlasIsClean(s, n)
    requires forall p | p in s.loose.atlases :: AtlasIsRight(s, p)
    ensures A.Rebuilt(s.atlases, s.source) == s.atlases
  {
    forall n ensures A.InSync(s.atlases, s.source, n) {
      assert AtlasIsClean(s, n);
      A.IsAtlasOfName(n, s.source);
      A.AtlasNameOf(n);
    }
    forall p | p in s.atlases ensures A.IsAtlasOf(p, s.source) {
      if p in s.loose.atlases {
        assert AtlasIsRight(s, p);
      } else {
        var n :| p == AtlasPath(n);
        assert A.InSync(s.atlases, s.source, n);
      }
    }
    A.RebuildIsFixedPoint(s.atlases, s.source);
  }

  /**
   A run that ends with nothing left to do ends as a full rebuild would, exactly when what is loose by then is right.
   */
  lemma DrainedRunIsRebuiltExactlyWhen(states: seq<Editor>, events: seq<Event>)
    requires IsRun(states, events) && Inv(states[0]) && Quiescent(states[|events|])
    ensures states[|events|].bare <= states[|events|].loose.prefabs
    ensures AsRebuilt(states[|events|]) <==> LooseIsRight(states[|events|])
  {
    RunKeepsInv(states, events);
    QuiescentIsRebuiltExactlyWhen(states[|events|]);
  }

  /** A settled sync makes every source folder's atlas addressable under the folder's name. */
  lemma SettledAtlasesAreAddressable(s: Editor, n: string)
    requires Inv(s) && Quiescent(s) && n in s.source
    requires AtlasPath(n) !in s.loose.atlases && G.GroupName("Atlas") !in s.loose.groups
    ensures AtlasPath(n) in s.atlases && s.atlases[AtlasPath(n)].packables == {FolderPath(SOURCE_ROOT, n)}
    ensures HasAddress(s.groups, "Atlas", "Atlas" + "/" + n + "_remote")
  {
    assert GroupWork(s) == {} && AtlasWork(s) == {};
    assert AtlasIsClean(s, n) && GroupIsClean(s, "Atlas");
    var i :| 0 <= i < |s.files["Atlas"]| && IsAssetAt(s.files["Atlas"][i], AtlasPath(n));
    AssetHasAddress(s.groups, s.files, "Atlas", i);
    AtlasAddress("Atlas", n);
  }

  /** The group of a folder has an entry with the given address. */
  ghost predicate HasAddress(groups: G.Groups, folder: string, address: string) {
    G.GroupName(folder) in groups && address in groups[G.GroupName(folder)].Values
  }

  lemma AssetHasAddress(groups: G.Groups, files: G.Listing, folder: string, i: nat)
    requires G.WellFormed(files) && G.InSync(groups, files, folder)
    requires folder in files && i < |files[folder]| && G.Listed(files[folder][i])
    ensures HasAddress(groups, folder, G.BuildAddress(folder, files[folder][i].path))
  {
    G.EntriesAreTheAssets(files, folder, files[folder][i].guid);
    assert groups[G.GroupName(folder)][files[folder][i].guid] == G.BuildAddress(folder, files[folder][i].path);
  }

  lemma AtlasAddress(folder: string, n: string)
    requires ProperName(n)
    ensures G.BuildAddress(folder, AtlasPath(n)) == folder + "/" + n + "_remote"
  {
    AtlasPathSplits(n);
    AtlasFile(n, ".spriteatlas");
  }

  lemma AtlasPathSplits(n: string)
    ensures AtlasPath(n) == FolderPath(OUTPUT_ROOT, n + ".spriteatlas")
  {
    Associative(OUTPUT_ROOT + "/", n, ".spriteatlas");
  }

  lemma Associative(a: string, b: string, c: string)
    ensures (a + b) + c == a + (b + c)
  {
  }

  lemma AtlasFile(n: string, extension: string)
    requires ProperName(n) && extension != "" && extension[0] == '.'
    requires forall i | 1 <= i < |extension| :: extension[i] != '/' && extension[i] != '.'
    ensures FileName(FolderPath(OUTPUT_ROOT, n + extension)) == n + extension
    ensures WithoutExtension(n + extension) == n
  {
    var file := n + extension;
    assert forall i | 0 <= i < |file| :: file[i] == if i < |n| then n[i] else extension[i - |n|];
    FileNameOfChild(OUTPUT_ROOT, file);
    assert file[|n|] == '.' && LastDot(file, |file|) == |n|;
  }
}
