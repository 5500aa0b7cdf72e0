/** The atlas builder as it runs, changing folders and atlases of the asset database in place. */
module AtlasBuilder {
  import opened Options
  import opened Text
  import opened AssetPaths
  import opened AtlasSpec
  import opened AtlasContents
  import opened Spelling
  import opened PathPlaces
  import opened FolderLevels

  /******* The asset database *******/

  class AssetDatabase {
    var folders: set<string>
    var atlases: map<string, Atlas>

    constructor (folders: set<string>, atlases: map<string, Atlas>)
      ensures this.folders == folders && this.atlases == atlases
    {
      this.folders := folders;
      this.atlases := atlases;
    }

    /** Only an existing folder can get a child, and only one at a time. */
    method CreateFolder(parent: string, name: string)
      requires parent in folders && forall i | 0 <= i < |name| :: name[i] != '/'
      modifies this`folders
      ensures folders == old(folders) + {FolderPath(parent, name)}
    {
      folders := folders + {FolderPath(parent, name)};
    }
  }

  /** Makes a path and every folder above it exist, from the top down; nothing else changes. */
  method EnsureFolder(db: AssetDatabase, folderPath: string)
    requires folderPath[..FirstSlash(folderPath, 0)] in db.folders
    modifies db`folders
    ensures forall f :: f in db.folders <==> f in old(db.folders) || IsLevel(folderPath, f)
    ensures folderPath in db.folders
  {
    var segments := Split(folderPath);
    var current := segments[0];
    assert segments[..1] == [segments[0]] && segments[0] == folderPath[..FirstSlash(folderPath, 0)];
    for i := 1 to |segments|
      invariant current == Join(segments[..i]) && current in db.folders
      invariant db.folders == old(db.folders) + Prefixes(segments, i - 1)
    {
      var next := FolderPath(current, segments[i]);
      NextPrefix(segments, i);
      if next !in db.folders {
        SegmentsArePlain(folderPath, i);
        db.CreateFolder(current, segments[i]);
      }
      current := next;
    }
    assert segments[..|segments|] == segments;
    JoinSplit(folderPath);
    forall f ensures f in db.folders <==> f in old(db.folders) || IsLevel(folderPath, f) {
      PrefixesAreLevels(folderPath, f);
    }
  }

  /******* One folder *******/

  /** A sprite atlas as it is created, before any setting is applied. */
  const NEW_ATLAS := Atlas({}, true, true, true)

  function ApplyDefaultSettings(atlas: Atlas, includeInBuild: bool): Atlas {
    atlas.(includeInBuild := includeInBuild, enableRotation := false, enableTightPacking := false)
  }

  /** Creates or refreshes the atlas of a source folder and packs just that folder into it. */
  method SyncFolder(db: AssetDatabase, folderPath: string) returns (atlasPath: Option<string>)
    requires IsChildOf(SOURCE_ROOT, folderPath)
    modifies db`atlases
    ensures IsBlank(FileName(folderPath)) ==> atlasPath == None && db.atlases == old(db.atlases)
    ensures !IsBlank(FileName(folderPath)) ==>
              && atlasPath == Some(AtlasPath(FileName(folderPath)))
              && db.atlases == old(db.atlases)[AtlasPath(FileName(folderPath)) := AtlasFor(FileName(folderPath))]
  {
    var folderName := FileName(folderPath);
    if IsBlank(folderName) {
      return None;
    }
    var path, atlas := AtlasPath(folderName), NEW_ATLAS;
    if path !in db.atlases {
      atlas := ApplyDefaultSettings(NEW_ATLAS, false);
      db.atlases := db.atlases[path := atlas];
    } else {
      atlas := ApplyDefaultSettings(db.atlases[path], false);
    }
    var packables := atlas.packables;
    if |packables| > 0 {
      atlas := atlas.(packables := atlas.packables - packables);
    }
    atlas := atlas.(packables := atlas.packables + {folderPath});
    db.atlases := db.atlases[path := atlas];
    return Some(path);
  }

  method RemoveAtlasForFolder(db: AssetDatabase, folderPath: string)
    modifies db`atlases
    ensures db.atlases ==
            if IsBlank(FileName(folderPath)) then old(db.atlases)
            else old(db.atlases) - {AtlasPath(FileName(folderPath))}
  {
    if IsBlank(FileName(folderPath)) {
      return;
    }
    var atlasPath := AtlasPath(FileName(folderPath));
    if atlasPath in db.atlases {
      db.atlases := db.atlases - {atlasPath};
    }
  }

  /******* Whole syncs *******/

  function AtlasPaths(names: set<string>): set<string> { set n | n in names :: AtlasPath(n) }

  lemma AtlasPathsAdd(names: set<string>, n: string)
    ensures AtlasPaths(names + {n}) == AtlasPaths(names) + {AtlasPath(n)}
  {
  }

  lemma InAtlasPaths(p: string, names: set<string>)
    ensures p in AtlasPaths(names) <==> IsAtlasOf(p, names)
  {
  }

  /** The atlases after a sync for a set of changed paths; paths outside the source root call for none. */
  ghost function AfterChanges(atlases: Atlases, source: set<string>, paths: set<string>): Atlases {
    var names := ChangedNames(SOURCE_ROOT, paths);
    if names == {} then atlases else Synced(atlases, source, names)
  }

  /** Deletes every atlas that is not valid. */
  method RemoveUnusedAtlases(db: AssetDatabase, validAtlasPaths: set<string>, ghost source: set<string>)
    requires validAtlasPaths == AtlasPaths(source)
    modifies db`atlases
    ensures db.atlases == DropUnused(old(db.atlases), source)
  {
    var todo := db.atlases.Keys;
    while todo != {}
      invariant todo <= old(db.atlases).Keys
      invariant db.atlases ==
                  map p | p in old(db.atlases) && (p !in todo ==> IsAtlasOf(p, source)) :: old(db.atlases)[p]
      decreases todo
    {
      var p :| p in todo;
      todo := todo - {p};
      InAtlasPaths(p, source);
      if p in validAtlasPaths {
        continue;
      }
      db.atlases := db.atlases - {p};
    }
  }

  method CollectValidAtlasPaths(subFolders: seq<string>) returns (paths: set<string>)
    ensures paths == AtlasPaths(Elements(subFolders))
  {
    paths := {};
    assert subFolders[..|subFolders|] == subFolders;
    for i := 0 to |subFolders|
      invariant paths == AtlasPaths(Elements(subFolders[..i]))
    {
      ElementsSnoc(subFolders, i);
      AtlasPathsAdd(Elements(subFolders[..i]), subFolders[i]);
      paths := paths + {AtlasPath(subFolders[i])};
    }
  }

  /** The full sync, whatever the order in which the source folders come. */
  method SyncAll(db: AssetDatabase, subFolders: seq<string>)
    requires "Assets" in db.folders && forall n | n in subFolders :: ProperName(n)
    modifies db
    ensures db.atlases == Rebuilt(old(db.atlases), Elements(subFolders))
    ensures forall n | n in subFolders :: HasAtlas(db.atlases, n)
    ensures OnlyAtlasesOf(db.atlases, Elements(subFolders))
    ensures db.folders == old(db.folders) + OutputFolders()
  {
    EnsureOutputRoot(db);
    ghost var source := Elements(subFolders);
    var validAtlasPaths := {};
    SyncNothing(db.atlases, source);
    assert subFolders[..|subFolders|] == subFolders && Elements(subFolders[..0]) == {};
    for i := 0 to |subFolders|
      invariant db.folders == old(db.folders) + OutputFolders()
      invariant validAtlasPaths == AtlasPaths(Elements(subFolders[..i]))
      invariant db.atlases == SyncSome(old(db.atlases), source, Elements(subFolders[..i]))
    {
      ElementsSnoc(subFolders, i);
      AtlasPathsAdd(Elements(subFolders[..i]), subFolders[i]);
      SyncSomeStep(old(db.atlases), source, Elements(subFolders[..i]), subFolders[i]);
      FileNameOfChild(SOURCE_ROOT, subFolders[i]);
      assert subFolders[i] in source;
      var atlasPath := SyncFolder(db, FolderPath(SOURCE_ROOT, subFolders[i]));
      if atlasPath.Some? {
        validAtlasPaths := validAtlasPaths + {atlasPath.value};
      }
    }
    RemoveUnusedAtlases(db, validAtlasPaths, source);
    RebuiltSpelled(old(db.atlases), source);
    assert forall n | n in subFolders :: n in source;
  }

  /** The folders an atlas sync makes, if they are missing. */
  function OutputFolders(): set<string> { {"Assets/Addressables_Remote", "Assets/Addressables_Remote/Atlas"} }

  /** Makes the output folder and the remote root above it, as far as they are missing. */
  method EnsureOutputRoot(db: AssetDatabase)
    requires "Assets" in db.folders
    modifies db`folders
    ensures db.folders == old(db.folders) + OutputFolders()
  {
    OutputRootStartsAtAssets();
    EnsureFolder(db, OUTPUT_ROOT);
    forall f
      ensures IsLevel(OUTPUT_ROOT, f) <==> f == "Assets/Addressables_Remote" || f == "Assets/Addressables_Remote/Atlas"
    {
      OutputRootLevels(f);
    }
  }

  lemma OutputRootLevels(f: string)
    ensures IsLevel(OUTPUT_ROOT, f) <==> f == "Assets/Addressables_Remote" || f == "Assets/Addressables_Remote/Atlas"
  {
    assert |OUTPUT_ROOT| == 32 && OUTPUT_ROOT[6] == '/' && OUTPUT_ROOT[26] == '/';
    assert forall i | 0 <= i < 32 && i != 6 && i != 26 :: OUTPUT_ROOT[i] != '/';
    assert OUTPUT_ROOT[..26] == "Assets/Addressables_Remote" && OUTPUT_ROOT[..32] == OUTPUT_ROOT;
    assert HasSlashBefore(OUTPUT_ROOT, 26) && HasSlashBefore(OUTPUT_ROOT, 32);
    assert CutAt(OUTPUT_ROOT, 26) && CutAt(OUTPUT_ROOT, 32);
  }

  lemma OutputRootStartsAtAssets()
    ensures OUTPUT_ROOT[..FirstSlash(OUTPUT_ROOT, 0)] == "Assets"
  {
    assert FirstSlash(OUTPUT_ROOT, 0) == 6 by {
      assert OUTPUT_ROOT[6] == '/';
      assert forall j | 0 <= j < 6 :: OUTPUT_ROOT[j] != '/';
    }
    assert OUTPUT_ROOT[..6] == "Assets";
  }

  /** One changed folder: its atlas is refreshed, or removed with the folder. */
  method SyncChangedFolder(db: AssetDatabase, source: set<string>, folderPath: string, validAtlasPaths: set<string>)
    returns (valid: set<string>)
    requires "Assets" in db.folders && IsChildOf(SOURCE_ROOT, folderPath) && validAtlasPaths == AtlasPaths(source)
    requires forall n | n in source :: ProperName(n)
    modifies db
    ensures valid == validAtlasPaths
    ensures db.folders == old(db.folders) + OutputFolders()
    ensures DropUnused(db.atlases, source) == DropUnused(SyncOne(old(db.atlases), source, FileName(folderPath)), source)
  {
    valid := validAtlasPaths;
    EnsureOutputRoot(db);
    DropGone(db.atlases, source, FileName(folderPath));
    if FileName(folderPath) in source {
      var atlasPath := SyncFolder(db, folderPath);
      if atlasPath.Some? {
        valid := valid + {atlasPath.value};
      }
    } else {
      RemoveAtlasForFolder(db, folderPath);
    }
  }

  /** For the clean-up it makes no difference whether the atlas of a missing folder was removed before. */
  lemma DropGone(atlases: Atlases, source: set<string>, n: string)
    ensures n !in source ==> DropUnused(SyncOne(atlases, source, n), source) == DropUnused(atlases, source)
  {
    IsAtlasOfName(n, source);
  }

  /** What one folder's sync leaves after clean-up depends only on what was there after clean-up. */
  lemma DropThenSync(a: Atlases, b: Atlases, source: set<string>, n: string)
    requires DropUnused(a, source) == DropUnused(b, source)
    ensures DropUnused(SyncOne(a, source, n), source) == DropUnused(SyncOne(b, source, n), source)
  {
    DropGone(a, source, n);
    DropGone(b, source, n);
    if n in source {
      IsAtlasOfName(n, source);
      assert DropUnused(SyncOne(a, source, n), source) == DropUnused(a, source)[AtlasPath(n) := AtlasFor(n)];
      assert DropUnused(SyncOne(b, source, n), source) == DropUnused(b, source)[AtlasPath(n) := AtlasFor(n)];
    }
  }

  method SyncFolders(db: AssetDatabase, subFolders: seq<string>, folders: seq<string>)
    requires "Assets" in db.folders && folders != []
    requires forall n | n in subFolders :: ProperName(n)
    requires forall i | 0 <= i < |folders| :: IsChildOf(SOURCE_ROOT, folders[i])
    modifies db
    ensures db.atlases == Synced(old(db.atlases), Elements(subFolders), FileNames(folders))
    ensures db.folders == old(db.folders) + OutputFolders()
  {
    var validAtlasPaths := CollectValidAtlasPaths(subFolders);
    var source := Elements(subFolders);
    SyncFoldersStart(db.atlases, source, folders);
    for i := 0 to |folders|
      invariant db.folders == if i == 0 then old(db.folders) else old(db.folders) + OutputFolders()
      invariant validAtlasPaths == AtlasPaths(source)
      invariant DropUnused(db.atlases, source) == Synced(old(db.atlases), source, FileNames(folders[..i]))
    {
      SyncFoldersStep(old(db.atlases), db.atlases, source, folders, i);
      validAtlasPaths := SyncChangedFolder(db, source, folders[i], validAtlasPaths);
    }
    RemoveUnusedAtlases(db, validAtlasPaths, source);
  }

  lemma SyncFoldersStart(atlases: Atlases, source: set<string>, folders: seq<string>)
    ensures DropUnused(atlases, source) == Synced(atlases, source, FileNames(folders[..0]))
    ensures folders[..|folders|] == folders
  {
    SyncNothing(atlases, source);
    assert FileNames(folders[..0]) == {};
  }

  lemma SyncFoldersStep(start: Atlases, atlases: Atlases, source: set<string>, folders: seq<string>, i: nat)
    requires i < |folders| && DropUnused(atlases, source) == Synced(start, source, FileNames(folders[..i]))
    ensures DropUnused(SyncOne(atlases, source, FileName(folders[i])), source)
         == Synced(start, source, FileNames(folders[..i + 1]))
  {
    var names := FileNames(folders[..i]);
    assert folders[..i + 1] == folders[..i] + [folders[i]];
    FileNamesSnoc(folders[..i], folders[i]);
    SyncSomeStep(start, source, names, FileName(folders[i]));
    DropThenSync(atlases, SyncSome(start, source, names), source, FileName(folders[i]));
  }

  /** The incremental sync: the folders of the changed paths, then a clean-up; nothing when there are none. */
  method SyncChangedPaths(db: AssetDatabase, subFolders: seq<string>, paths: seq<string>)
    requires "Assets" in db.folders && forall n | n in subFolders :: ProperName(n)
    modifies db
    ensures db.atlases == AfterChanges(old(db.atlases), Elements(subFolders), Elements(paths))
    ensures forall p, n | p in paths && AttributedTo("Assets/Aarts/Atlas_Remote", p, n) ::
              if n in subFolders then HasAtlas(db.atlases, n) else PathOfAtlas(n) !in db.atlases
    ensures if exists p, n :: p in paths && AttributedTo("Assets/Aarts/Atlas_Remote", p, n)
            then OnlyAtlasesOf(db.atlases, Elements(subFolders)) && db.folders == old(db.folders) + OutputFolders()
            else db.atlases == old(db.atlases) && db.folders == old(db.folders)
  {
    ChangesSpelled(db.atlases, subFolders, paths);
    NothingIsAttributed(SOURCE_ROOT, paths);
    var folders := FoldersToSync(SOURCE_ROOT, paths);
    if |folders| == 0 {
      return;
    }
    assert FileName(folders[0]) in FileNames(folders);
    SyncFolders(db, subFolders, folders);
  }

  lemma ChangesSpelled(atlases: Atlases, subFolders: seq<string>, paths: seq<string>)
    ensures var after := AfterChanges(atlases, Elements(subFolders), Elements(paths));
            && (forall p, n | p in paths && AttributedTo("Assets/Aarts/Atlas_Remote", p, n) ::
                  if n in subFolders then HasAtlas(after, n) else PathOfAtlas(n) !in after)
            && if exists p, n :: p in paths && AttributedTo("Assets/Aarts/Atlas_Remote", p, n)
               then OnlyAtlasesOf(after, Elements(subFolders)) else after == atlases
  {
    var names, source := ChangedNames(SOURCE_ROOT, Elements(paths)), Elements(subFolders);
    forall p, n | p in paths && AttributedTo(SOURCE_ROOT, p, n)
      ensures names != {}
      ensures n in subFolders ==> HasAtlas(AfterChanges(atlases, source, Elements(paths)), n)
      ensures n !in subFolders ==> PathOfAtlas(n) !in AfterChanges(atlases, source, Elements(paths))
    {
      ChangedAreAttributed(SOURCE_ROOT, paths, n);
      SyncedSpelled(atlases, source, names, n);
      assert n in subFolders <==> n in source;
    }
    NothingIsAttributed(SOURCE_ROOT, paths);
    OnlySourceSpelled(atlases, source, names);
  }
}
