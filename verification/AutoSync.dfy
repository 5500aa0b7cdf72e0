/**
 The two watchers as they run, collecting paths in place.  Each method is proved to take the pipeline's step; the
 delayed sync, run without interruption, is three of them in a row.
 */
module AutoSync {
  import opened Options
  import opened AssetPaths
  import opened WatchedTexts
  import opened Pipeline
  import G = GroupSpec
  import GB = GroupBuilder
  import A = AtlasSpec
  import AB = AtlasBuilder

  /** A set's elements in some order. */
  method ToArray(paths: set<string>) returns (s: seq<string>)
    ensures Elements(s) == paths && |s| == |paths|
  {
    s := [];
    var rest := paths;
    while rest != {}
      invariant rest <= paths && Elements(s) == paths - rest && |s| + |rest| == |paths|
      decreases rest
    {
      var p :| p in rest;
      ElementsAdd(s, p);
      s := s + [p];
      rest := rest - {p};
    }
  }

  lemma ElementsAdd(s: seq<string>, x: string)
    ensures Elements(s + [x]) == Elements(s) + {x}
  {
  }

  predicate HasManagedAssetChange(paths: seq<string>) { exists i :: 0 <= i < |paths| && IsManagedPath(paths[i]) }

  predicate HasManagedAtlasChange(paths: seq<string>) { exists i :: 0 <= i < |paths| && IsManagedAtlasPath(paths[i]) }

  /** What a watcher takes from a list of paths. */
  function Taken(paths: seq<string>): set<string> { set p | p in paths && Watched(p) }

  lemma TakenSnoc(paths: seq<string>, i: nat)
    requires i < |paths|
    ensures Taken(paths[..i + 1]) == Taken(paths[..i]) + if Watched(paths[i]) then {paths[i]} else {}
  {
    assert paths[..i + 1] == paths[..i] + [paths[i]];
  }

  function AllPaths(cb: Callback): seq<string> { cb.imported + cb.deleted + cb.moved + cb.movedFrom }

  lemma TakenIsWatched(cb: Callback)
    ensures Taken(AllPaths(cb)) == WatchedPaths(cb)
  {
  }

  /** A callback concerns the watcher exactly when it has a path to take. */
  lemma ConcernsIff(cb: Callback)
    ensures (HasManagedAssetChange(cb.imported) || HasManagedAssetChange(cb.deleted)
             || HasManagedAssetChange(cb.moved) || HasManagedAssetChange(cb.movedFrom)
             || HasManagedAtlasChange(cb.imported) || HasManagedAtlasChange(cb.deleted)
             || HasManagedAtlasChange(cb.moved) || HasManagedAtlasChange(cb.movedFrom))
            <==> WatchedPaths(cb) != {}
  {
    forall part | part in [cb.imported, cb.deleted, cb.moved, cb.movedFrom]
      ensures HasManagedAssetChange(part) || HasManagedAtlasChange(part) <==> Taken(part) != {}
    {
      if i :| 0 <= i < |part| && Watched(part[i]) {
        assert part[i] in Taken(part);
      }
    }
    assert WatchedPaths(cb) == Taken(cb.imported) + Taken(cb.deleted) + Taken(cb.moved) + Taken(cb.movedFrom);
  }

  /** What is taken are the reported paths that are to be synced. */
  lemma TakenSpelled(cb: Callback)
    ensures WatchedPaths(cb) == SyncedAmong(cb.imported + cb.deleted + cb.moved + cb.movedFrom)
  {
    forall p
      ensures p in WatchedPaths(cb) <==> p in SyncedAmong(cb.imported + cb.deleted + cb.moved + cb.movedFrom)
    {
      WatchedSpelled(p);
    }
  }

  /** What the delivery of a callback changes of the part that the watcher holds. */
  lemma DeliveryTakes(s: Editor, cb: Callback)
    requires s.queue != [] && s.queue[0] == cb
    ensures var after := Delivered(s);
            && after.pending == s.pending + WatchedPaths(cb)
            && (after.scheduled <==> s.scheduled || WatchedPaths(cb) != {})
            && after.atlases == s.atlases && after.groups == s.groups
  {
  }

  class AddressablesGroupAutoSync {
    const db: AB.AssetDatabase
    const settings: GB.AddressableSettings
    var pendingPaths: set<string>
    var registered: bool            // whether the editor will call DelayedSync

    constructor (db: AB.AssetDatabase, settings: GB.AddressableSettings)
      ensures this.db == db && this.settings == settings && pendingPaths == {} && !registered
    {
      this.db, this.settings, pendingPaths, registered := db, settings, {}, false;
    }

    /** The part of the pipeline's state that the watcher holds. */
    ghost predicate Shows(s: Editor)
      reads this, db, settings
    {
      && s.pending == pendingPaths && s.scheduled == registered
      && s.atlases == db.atlases && s.groups == settings.groups
    }

    method OnPostprocessAllAssets(cb: Callback, ghost s: Editor)
      requires s.queue != [] && s.queue[0] == cb && Shows(s)
      modifies this
      ensures var synced := SyncedAmong(cb.imported + cb.deleted + cb.moved + cb.movedFrom);
              pendingPaths == old(pendingPaths) + synced && (registered <==> old(registered) || synced != {})
      ensures Shows(Delivered(s))
    {
      DeliveryTakes(s, cb);
      TakenSpelled(cb);
      ConcernsIff(cb);
      var hasAddressableChange := HasManagedAssetChange(cb.imported) || HasManagedAssetChange(cb.deleted)
        || HasManagedAssetChange(cb.moved) || HasManagedAssetChange(cb.movedFrom);
      var hasAtlasChange := HasManagedAtlasChange(cb.imported) || HasManagedAtlasChange(cb.deleted)
        || HasManagedAtlasChange(cb.moved) || HasManagedAtlasChange(cb.movedFrom);
      if !hasAddressableChange && !hasAtlasChange {
        return;
      }
      var changedPaths := AllPaths(cb);
      for i := 0 to |changedPaths|
        invariant pendingPaths == old(pendingPaths) + Taken(changedPaths[..i])
        invariant registered == old(registered)
      {
        TakenSnoc(changedPaths, i);
        if IsManagedPath(changedPaths[i]) || IsManagedAtlasPath(changedPaths[i]) {
          pendingPaths := pendingPaths + {changedPaths[i]};
        }
      }
      assert changedPaths[..|changedPaths|] == changedPaths;
      TakenIsWatched(cb);
      registered := true;
    }

    /**
     The delayed call.  `source` are the source folders; the remote folders are listed only after the atlases are
     written, as `files`.
     */
    method DelayedSync(source: seq<string>, files: G.Listing, folders: seq<string>,
                       ghost s: Editor, ghost e: Event, ghost f: Event)
      requires registered && Shows(s) && Elements(source) == s.source && Elements(folders) == files.Keys
      requires G.WellFormed(s.files) && G.UniqueGuids(s.groups) && ProperSource(s.source)
      requires s.progress == Idle && "Assets" in db.folders
      requires e.SyncAtlases? && e.files == files && Enabled(Apply(s, StartSync), e)
      requires f.SyncGroups? && Enabled(Apply(Apply(s, StartSync), e), f)
      modifies this, db, settings
      ensures pendingPaths == {} && !registered
      ensures db.atlases == AB.AfterChanges(old(db.atlases), Elements(source), old(pendingPaths))
      ensures settings.groups == GB.AfterChanges(old(settings.groups), files, old(pendingPaths))
      ensures Shows(Apply(Apply(Apply(s, StartSync), e), f))
    {
      registered := false;
      var paths := ToArray(pendingPaths);
      pendingPaths := {};
      CallTakesSteps(s, e, f);
      SourceIsProper(source, s);
      AB.SyncChangedPaths(db, source, paths);
      GB.SyncChangedPaths(settings, files, folders, paths);
    }
  }

  lemma SourceIsProper(source: seq<string>, s: Editor)
    requires ProperSource(s.source) && Elements(source) == s.source
    ensures forall n | n in source :: ProperName(n)
  {
    forall n | n in source ensures ProperName(n) {
      assert n in Elements(source);
    }
  }

  /** What the three steps of a delayed call do to the part that the watcher holds. */
  lemma CallTakesSteps(s: Editor, e: Event, f: Event)
    requires G.WellFormed(s.files) && Enabled(s, StartSync)
    requires e.SyncAtlases? && Enabled(Apply(s, StartSync), e)
    requires f.SyncGroups? && Enabled(Apply(Apply(s, StartSync), e), f)
    ensures G.WellFormed(e.files)
    ensures var after := Apply(Apply(Apply(s, StartSync), e), f);
            && after.pending == {} && !after.scheduled
            && after.atlases == AB.AfterChanges(s.atlases, s.source, s.pending)
            && after.groups == GB.AfterChanges(s.groups, e.files, s.pending)
  {
  }

  /******* Prefabs *******/

  /** The prefabs of the asset database; a prefab is bare while it lacks the component. */
  class PrefabDatabase {
    var bare: set<string>
    var complete: set<string>
    var saved: seq<string>          // the prefabs written, in order
    var flushes: nat                // how often the assets were saved

    constructor (bare: set<string>, complete: set<string>)
      ensures this.bare == bare && this.complete == complete && saved == [] && flushes == 0
    {
      this.bare, this.complete, saved, flushes := bare, complete, [], 0;
    }

    method SavePrefab(path: string)
      modifies this
      ensures bare == old(bare) - {path} && complete == old(complete) + {path}
      ensures saved == old(saved) + [path] && flushes == old(flushes)
    {
      bare, complete, saved := bare - {path}, complete + {path}, saved + [path];
    }

    method SaveAssets()
      modifies this`flushes
      ensures flushes == old(flushes) + 1
    {
      flushes := flushes + 1;
    }

    /** Adds the component to a prefab that exists without it; a missing or complete prefab is left alone. */
    method EnsureMonoItem(path: string) returns (added: bool)
      modifies this
      ensures added <==> path in old(bare) && path !in old(complete)
      ensures !added ==> bare == old(bare) && complete == old(complete) && saved == old(saved)
      ensures added ==> bare == old(bare) - {path} && complete == old(complete) + {path} && saved == old(saved) + [path]
      ensures flushes == old(flushes)
    {
      if path !in bare && path !in complete {
        return false;
      }
      if path in complete {
        return false;
      }
      SavePrefab(path);
      return true;
    }

    /** Ensures the component on each of some prefabs, and writes those that lacked it, each once. */
    method EnsureEach(paths: seq<string>) returns (added: nat)
      requires bare !! complete
      modifies this
      ensures bare !! complete
      ensures bare == old(bare) - Elements(paths) && flushes == old(flushes)
      ensures saved == old(saved) + Lacking(old(bare), paths) && added == |Lacking(old(bare), paths)|
    {
      added := 0;
      assert paths[..|paths|] == paths && Elements(paths[..0]) == {};
      for i := 0 to |paths|
        invariant bare !! complete && bare == old(bare) - Elements(paths[..i]) && flushes == old(flushes)
        invariant saved == old(saved) + Lacking(old(bare), paths[..i]) && added == |Lacking(old(bare), paths[..i])|
      {
        ElementsSnoc(paths, i);
        assert paths[..i + 1][..i] == paths[..i];
        var changed := EnsureMonoItem(paths[i]);
        if changed {
          added := added + 1;
        }
      }
    }
  }

  /** The bare prefabs among some paths, each at its first appearance. */
  function Lacking(bare: set<string>, paths: seq<string>): seq<string> {
    if paths == [] then []
    else
      var most, last := paths[..|paths| - 1], paths[|paths| - 1];
      Lacking(bare, most) + if last in bare - Elements(most) then [last] else []
  }

  lemma {:induction false} LackingIsBare(bare: set<string>, paths: seq<string>)
    ensures Elements(Lacking(bare, paths)) == bare * Elements(paths)
    ensures |Lacking(bare, paths)| == |bare * Elements(paths)|
  {
    if paths != [] {
      var most, last := paths[..|paths| - 1], paths[|paths| - 1];
      LackingIsBare(bare, most);
      ElementsSnoc(paths, |paths| - 1);
      assert paths[..|paths|] == paths;
      if last in bare - Elements(most) {
        ElementsAdd(Lacking(bare, most), last);
        assert bare * Elements(paths) == bare * Elements(most) + {last};
      } else {
        assert bare * Elements(paths) == bare * Elements(most);
      }
    }
  }

  function TakenPrefabs(paths: seq<string>): set<string> { set p | p in paths && IsManagedPrefabPath(p) }

  lemma TakenPrefabsSnoc(paths: seq<string>, i: nat)
    requires i < |paths|
    ensures TakenPrefabs(paths[..i + 1])
         == TakenPrefabs(paths[..i]) + if IsManagedPrefabPath(paths[i]) then {paths[i]} else {}
  {
    assert paths[..i + 1] == paths[..i] + [paths[i]];
  }

  lemma TakenPrefabsSpelled(paths: seq<string>)
    ensures TakenPrefabs(paths) == PrefabsAmong(paths)
  {
    forall p ensures p in TakenPrefabs(paths) <==> p in PrefabsAmong(paths) {
      PrefabSpelled(p);
    }
  }

  lemma DeliveryTakesPrefabs(s: Editor, cb: Callback)
    requires s.queue != [] && s.queue[0] == cb
    ensures var after := Delivered(s);
            && after.pendingPrefabs == s.pendingPrefabs + PrefabsAmong(cb.imported) + PrefabsAmong(cb.moved)
            && (after.prefabsScheduled <==> s.prefabsScheduled || after.pendingPrefabs != {})
            && after.bare == s.bare
  {
    TakenPrefabsSpelled(cb.imported);
    TakenPrefabsSpelled(cb.moved);
    assert PrefabPaths(cb) == TakenPrefabs(cb.imported) + TakenPrefabs(cb.moved);
  }

  class AddressablePrefabMonoItemImporter {
    const db: PrefabDatabase
    var pendingPrefabPaths: set<string>
    var registered: bool            // whether the editor will call EnsurePendingPrefabs

    constructor (db: PrefabDatabase)
      ensures this.db == db && pendingPrefabPaths == {} && !registered
    {
      this.db, pendingPrefabPaths, registered := db, {}, false;
    }

    ghost predicate Shows(s: Editor)
      reads this, db
    {
      s.pendingPrefabs == pendingPrefabPaths && s.prefabsScheduled == registered && s.bare == db.bare
    }

    method AddPendingPrefabPaths(paths: seq<string>)
      modifies this`pendingPrefabPaths
      ensures pendingPrefabPaths == old(pendingPrefabPaths) + PrefabsAmong(paths)
    {
      TakenPrefabsSpelled(paths);
      assert paths[..|paths|] == paths;
      for i := 0 to |paths|
        invariant pendingPrefabPaths == old(pendingPrefabPaths) + TakenPrefabs(paths[..i])
      {
        TakenPrefabsSnoc(paths, i);
        if IsManagedPrefabPath(paths[i]) {
          pendingPrefabPaths := pendingPrefabPaths + {paths[i]};
        }
      }
    }

    method OnPostprocessAllAssets(cb: Callback, ghost s: Editor)
      requires s.queue != [] && s.queue[0] == cb && Shows(s)
      modifies this
      ensures pendingPrefabPaths == old(pendingPrefabPaths) + PrefabsAmong(cb.imported) + PrefabsAmong(cb.moved)
      ensures registered <==> old(registered) || pendingPrefabPaths != {}
      ensures Shows(Delivered(s))
    {
      DeliveryTakesPrefabs(s, cb);
      AddPendingPrefabPaths(cb.imported);
      AddPendingPrefabPaths(cb.moved);
      if |pendingPrefabPaths| == 0 {
        return;
      }
      registered := true;
    }

    method EnsurePendingPrefabs(ghost s: Editor, ghost e: Event)
      requires Shows(s) && registered && db.bare !! db.complete
      requires e.EnsurePrefabs? && Enabled(s, e)
      modifies this, db
      ensures pendingPrefabPaths == {} && !registered
      ensures db.bare == old(db.bare) - old(pendingPrefabPaths)
      ensures old(db.saved) <= db.saved
              && Elements(db.saved[|old(db.saved)|..]) == old(db.bare * pendingPrefabPaths)
              && |db.saved| == |old(db.saved)| + |old(db.bare * pendingPrefabPaths)|
      ensures db.flushes == old(db.flushes) + if old(db.bare * pendingPrefabPaths) == {} then 0 else 1
      ensures Shows(Apply(s, e))
    {
      registered := false;
      var prefabPaths := ToArray(pendingPrefabPaths);
      pendingPrefabPaths := {};
      LackingIsBare(db.bare, prefabPaths);
      ghost var written := Lacking(db.bare, prefabPaths);
      var added := db.EnsureEach(prefabPaths);
      assert db.saved[|old(db.saved)|..] == written;
      if added > 0 {
        db.SaveAssets();
      }
    }
  }
}
