/** Which reported paths the two watchers are there for, spelled out. */
module WatchedTexts {
  import opened Text
  import opened Spelling
  import opened AssetPaths

  /** A prefab of the remote root. */
  predicate IsPrefab(path: string) {
    StartsInAnyCase(path, "Assets/Addressables_Remote/Prefabs") && EndsInAnyCase(path, ".prefab")
  }

  /** A remote asset or an atlas source. */
  predicate IsSynced(path: string) {
    StartsInAnyCase(path, "Assets/Addressables_Remote") || StartsInAnyCase(path, "Assets/Aarts/Atlas_Remote")
  }

  function PrefabsAmong(paths: seq<string>): set<string> { set p | p in paths && IsPrefab(p) }

  function SyncedAmong(paths: seq<string>): set<string> { set p | p in paths && IsSynced(p) }

  lemma PrefabSpelled(path: string)
    ensures IsManagedPrefabPath(path) <==> IsPrefab(path)
  {
    StartsSpelled(path, PREFAB_ROOT);
    EndsSpelled(path, ".prefab");
    if IsPrefab(path) {
      assert SameLetter(path[0], 'A');
      assert !IsSpace(path[0]);
    }
  }

  lemma WatchedSpelled(path: string)
    ensures Watched(path) <==> IsSynced(path)
  {
    StartsSpelled(path, REMOTE_ROOT);
    StartsSpelled(path, SOURCE_ROOT);
  }
}
