/**
 Sprite atlases as they should be: one atlas in the output folder per child folder of the source root, packing
 exactly that folder.
 */
module AtlasSpec {
  import opened Options
  import opened Text
  import opened AssetPaths

  datatype Atlas = Atlas(packables: set<string>, enableRotation: bool, enableTightPacking: bool, includeInBuild: bool)

  /** The atlases in the output folder, by path. */
  type Atlases = map<string, Atlas>

  /** The atlas a source folder calls for. */
  function AtlasFor(name: string): Atlas { Atlas({FolderPath(SOURCE_ROOT, name)}, false, false, false) }

  ghost predicate IsAtlasOf(path: string, names: set<string>) { exists n :: n in names && path == AtlasPath(n) }

  /** The source folder behind an atlas path. */
  function AtlasName(path: string): string {
    if |path| < |OUTPUT_ROOT| + 13 then "" else path[|OUTPUT_ROOT| + 1..|path| - 12]
  }

  lemma AtlasNameOf(n: string)
    ensures AtlasName(AtlasPath(n)) == n
  {
  }

  lemma IsAtlasOfName(n: string, names: set<string>)
    ensures IsAtlasOf(AtlasPath(n), names) <==> n in names
  {
    if IsAtlasOf(AtlasPath(n), names) {
      var m :| m in names && AtlasPath(n) == AtlasPath(m);
      AtlasPathInjective(m, n);
    }
  }

  /** Syncing one source folder: its atlas is written, or removed when the folder is gone. */
  ghost function SyncOne(atlases: Atlases, source: set<string>, name: string): Atlases {
    if name in source then atlases[AtlasPath(name) := AtlasFor(name)] else atlases - {AtlasPath(name)}
  }

  /** Syncing a set of source folders. */
  ghost function SyncSome(atlases: Atlases, source: set<string>, names: set<string>): Atlases {
    map p | p in atlases.Keys + (set n | n in names && n in source :: AtlasPath(n))
            && !IsAtlasOf(p, names - source) ::
      if IsAtlasOf(p, names) then AtlasFor(AtlasName(p)) else atlases[p]
  }

  ghost function DropUnused(atlases: Atlases, source: set<string>): Atlases {
    map p | p in atlases && IsAtlasOf(p, source) :: atlases[p]
  }

  /** The outcome of a sync of some source folders, clean-up included. */
  ghost function Synced(atlases: Atlases, source: set<string>, names: set<string>): Atlases {
    DropUnused(SyncSome(atlases, source, names), source)
  }

  ghost function Rebuilt(atlases: Atlases, source: set<string>): Atlases { Synced(atlases, source, source) }

  /** A source folder has its atlas exactly when it exists, and the atlas packs just that folder. */
  ghost predicate InSync(atlases: Atlases, source: set<string>, name: string) {
    && (AtlasPath(name) in atlases <==> name in source)
    && (name in source ==> atlases[AtlasPath(name)] == AtlasFor(name))
  }

  /******* Theorems *******/

  /** The outcome for the atlas of a source folder. */
  lemma SyncedAt(atlases: Atlases, source: set<string>, names: set<string>, n: string)
    ensures var after, p := Synced(atlases, source, names), AtlasPath(n);
            && (p in after <==> n in source && (n in names || p in atlases))
            && (p in after ==> after[p] == if n in names then AtlasFor(n) else atlases[p])
  {
    IsAtlasOfName(n, names);
    IsAtlasOfName(n, source);
    IsAtlasOfName(n, names - source);
    AtlasNameOf(n);
    if n in names && n in source {
      assert AtlasPath(n) in (set m | m in names && m in source :: AtlasPath(m));
    }
  }

  /** No atlas is left that no source folder stands behind. */
  lemma OnlySourceAtlasesRemain(atlases: Atlases, source: set<string>, names: set<string>, p: string)
    requires p in Synced(atlases, source, names)
    ensures IsAtlasOf(p, source)
  {
  }

  lemma SyncSomeAt(atlases: Atlases, source: set<string>, names: set<string>, p: string)
    ensures var after := SyncSome(atlases, source, names);
            if IsAtlasOf(p, names) then
              && (p in after <==> IsAtlasOf(p, source))
              && (p in after ==> after[p] == AtlasFor(AtlasName(p)))
            else
              && (p in after <==> p in atlases)
              && (p in after ==> after[p] == atlases[p])
  {
    if IsAtlasOf(p, names) {
      var n :| n in names && p == AtlasPath(n);
      IsAtlasOfName(n, source);
      IsAtlasOfName(n, names - source);
      if n in source {
        assert p in (set m | m in names && m in source :: AtlasPath(m));
      }
    }
  }

  /** Syncing folders one after another is syncing them all. */
  lemma SyncSomeStep(atlases: Atlases, source: set<string>, names: set<string>, n: string)
    ensures SyncOne(SyncSome(atlases, source, names), source, n) == SyncSome(atlases, source, names + {n})
  {
    var one, all := SyncOne(SyncSome(atlases, source, names), source, n), SyncSome(atlases, source, names + {n});
    forall p
      ensures p in one <==> p in all
      ensures p in one ==> one[p] == all[p]
    {
      SyncSomeAt(atlases, source, names, p);
      SyncSomeAt(atlases, source, names + {n}, p);
      AtlasOfMore(p, names, n);
      IsAtlasOfName(n, source);
      AtlasNameOf(n);
    }
  }

  lemma AtlasOfMore(p: string, names: set<string>, n: string)
    ensures IsAtlasOf(p, names + {n}) <==> IsAtlasOf(p, names) || p == AtlasPath(n)
  {
    if IsAtlasOf(p, names) {
      var m :| m in names && p == AtlasPath(m);
      assert m in names + {n};
    }
    if p == AtlasPath(n) {
      assert n in names + {n};
    }
  }

  lemma SyncNothing(atlases: Atlases, source: set<string>)
    ensures SyncSome(atlases, source, {}) == atlases
  {
  }

  /** Source folders synced come out in sync; those that were in sync stay so. */
  lemma SyncedFoldersAreInSync(atlases: Atlases, source: set<string>, names: set<string>, n: string)
    requires n in names || InSync(atlases, source, n)
    ensures InSync(Synced(atlases, source, names), source, n)
  {
    SyncedAt(atlases, source, names, n);
  }

  /** Exactly the folders synced, gone, or in sync before are in sync after a sync of some source folders. */
  lemma InSyncAfterExactlyWhen(atlases: Atlases, source: set<string>, names: set<string>, n: string)
    ensures InSync(Synced(atlases, source, names), source, n) <==>
              n in names || n !in source || InSync(atlases, source, n)
  {
    SyncedAt(atlases, source, names, n);
  }

  /** Incremental atlas sync agrees with the rebuild when the folders left out are in sync. */
  lemma IncrementalEqualsRebuild(atlases: Atlases, source: set<string>, names: set<string>)
    requires forall n | n !in names :: InSync(atlases, source, n)
    ensures Synced(atlases, source, names) == Rebuilt(atlases, source)
  {
    var some, all := Synced(atlases, source, names), Rebuilt(atlases, source);
    forall p
      ensures p in some <==> p in all
      ensures p in some ==> some[p] == all[p]
    {
      if IsAtlasOf(p, source) {
        var n :| n in source && p == AtlasPath(n);
        SyncedAt(atlases, source, names, n);
        SyncedAt(atlases, source, source, n);
        assert n !in names ==> InSync(atlases, source, n);
      }
    }
  }

  /** Exactly one atlas per source folder and nothing else is exactly what a rebuild leaves alone. */
  lemma RebuildIsFixedPoint(atlases: Atlases, source: set<string>)
    ensures Rebuilt(atlases, source) == atlases <==>
              (forall n :: InSync(atlases, source, n)) && (forall p | p in atlases :: IsAtlasOf(p, source))
  {
    if (forall n :: InSync(atlases, source, n)) && (forall p | p in atlases :: IsAtlasOf(p, source)) {
      IncrementalEqualsRebuild(atlases, source, {});
      SyncNothing(atlases, source);
      assert DropUnused(atlases, source) == atlases;
    }
    if Rebuilt(atlases, source) == atlases {
      forall n ensures InSync(atlases, source, n) {
        SyncedAt(atlases, source, source, n);
      }
    }
  }

  /** A rebuild depends on the source folders alone. */
  lemma RebuildDependsOnSourceAlone(a: Atlases, b: Atlases, source: set<string>)
    ensures Rebuilt(a, source) == Rebuilt(b, source)
    ensures Rebuilt(a, source).Keys == set n | n in source :: AtlasPath(n)
  {
    RebuiltKeys(a, source);
    RebuiltKeys(b, source);
    forall p | p in Rebuilt(a, source) ensures Rebuilt(a, source)[p] == Rebuilt(b, source)[p] {
      var n :| n in source && p == AtlasPath(n);
      SyncedAt(a, source, source, n);
      SyncedAt(b, source, source, n);
    }
  }

  lemma RebuiltKeys(a: Atlases, source: set<string>)
    ensures Rebuilt(a, source).Keys == set n | n in source :: AtlasPath(n)
  {
    forall p ensures p in Rebuilt(a, source) <==> IsAtlasOf(p, source) {
      if IsAtlasOf(p, source) {
        var n :| n in source && p == AtlasPath(n);
        SyncedAt(a, source, source, n);
      }
    }
  }
}
