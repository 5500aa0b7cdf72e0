/** What the atlases are after a sync, and which folders a path stands for, spelled out on paths and settings. */
module AtlasContents {
  import opened Options
  import opened Text
  import opened Spelling
  import opened AssetPaths
  import opened PathPlaces
  import opened AtlasSpec

  /******* Atlases *******/

  function PathOfAtlas(n: string): string { "Assets/Addressables_Remote/Atlas/" + n + ".spriteatlas" }

  /** An atlas packs one source folder, without rotation, without tight packing, and is kept out of the build. */
  predicate Packs(atlas: Atlas, n: string) {
    && atlas.packables == {"Assets/Aarts/Atlas_Remote/" + n}
    && !atlas.enableRotation && !atlas.enableTightPacking && !atlas.includeInBuild
  }

  predicate HasAtlas(atlases: Atlases, n: string) { PathOfAtlas(n) in atlases && Packs(atlases[PathOfAtlas(n)], n) }

  /** Every atlas belongs to one of the given source folders. */
  ghost predicate OnlyAtlasesOf(atlases: Atlases, source: set<string>) {
    forall p | p in atlases :: exists n :: n in source && p == PathOfAtlas(n)
  }

  lemma PathSpelled(n: string)
    ensures AtlasPath(n) == PathOfAtlas(n)
  {
    assert OUTPUT_ROOT + "/" == "Assets/Addressables_Remote/Atlas/";
  }

  lemma AtlasSpelled(n: string)
    ensures Packs(AtlasFor(n), n)
  {
    assert FolderPath(SOURCE_ROOT, n) == "Assets/Aarts/Atlas_Remote/" + n;
  }

  lemma SyncedSpelled(atlases: Atlases, source: set<string>, names: set<string>, n: string)
    requires n in names
    ensures n in source ==> HasAtlas(Synced(atlases, source, names), n)
    ensures n !in source ==> PathOfAtlas(n) !in Synced(atlases, source, names)
  {
    PathSpelled(n);
    AtlasSpelled(n);
    SyncedAt(atlases, source, names, n);
  }

  lemma OnlySourceSpelled(atlases: Atlases, source: set<string>, names: set<string>)
    ensures OnlyAtlasesOf(Synced(atlases, source, names), source)
  {
    forall p | p in Synced(atlases, source, names) ensures exists n :: n in source && p == PathOfAtlas(n) {
      OnlySourceAtlasesRemain(atlases, source, names, p);
      var n :| n in source && p == AtlasPath(n);
      PathSpelled(n);
    }
  }

  lemma RebuiltSpelled(atlases: Atlases, source: set<string>)
    ensures forall n | n in source :: HasAtlas(Rebuilt(atlases, source), n)
    ensures OnlyAtlasesOf(Rebuilt(atlases, source), source)
  {
    forall n | n in source ensures HasAtlas(Rebuilt(atlases, source), n) {
      SyncedSpelled(atlases, source, source, n);
    }
    OnlySourceSpelled(atlases, source, source);
  }

  /** A path that is a child folder of the source root, or lies in it. */
  predicate ConcernsSource(path: string, n: string) {
    path == "Assets/Aarts/Atlas_Remote/" + n || "Assets/Aarts/Atlas_Remote/" + n + "/" <= path
  }

  predicate IsSourceName(name: string) {
    !OnlyWhite(name) && forall i | 0 <= i < |name| :: name[i] != '/' && name[i] != '\\'
  }

  lemma ConcernedIsAttributed(path: string, n: string)
    requires ConcernsSource(path, n) && IsSourceName(n)
    ensures AttributedTo("Assets/Aarts/Atlas_Remote", path, n)
  {
    assert FolderPath(SOURCE_ROOT, n) == "Assets/Aarts/Atlas_Remote/" + n;
    BlankSpelled(n);
    assert !IsSpace(SOURCE_ROOT[0]);
    UnderIsAttributed(SOURCE_ROOT, n, path);
  }
}
