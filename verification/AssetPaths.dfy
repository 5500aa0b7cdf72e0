/** Asset paths: the roots the editor tools watch, and which child folder of a root a path belongs to. */
module AssetPaths {
  import opened Options
  import opened Text

  const REMOTE_ROOT := "Assets/Addressables_Remote"
  const REMOTE_PREFIX := "remote_"
  const PREFAB_ROOT := "Assets/Addressables_Remote/Prefabs"
  const SOURCE_ROOT := "Assets/Aarts/Atlas_Remote"
  const OUTPUT_ROOT := "Assets/Addressables_Remote/Atlas"
  const SETTINGS_ROOT := "Assets/AddressableAssetsData"

  predicate IsSlash(c: char) { c == '/' }

  function Normalize(path: string): (r: string)
    ensures |r| == |path| && forall i | 0 <= i < |path| :: r[i] == if path[i] == '\\' then '/' else path[i]
  {
    seq(|path|, i requires 0 <= i < |path| => if path[i] == '\\' then '/' else path[i])
  }

  /** The position of the first slash, or the length. */
  function FirstSlash(s: string, i: nat): (k: nat)
    requires i <= |s|
    ensures i <= k <= |s| && (forall j | i <= j < k :: s[j] != '/') && (k < |s| ==> s[k] == '/')
    decreases |s| - i
  {
    if i < |s| && s[i] != '/' then FirstSlash(s, i + 1) else i
  }

  /** The position after the last slash among the first k characters. */
  function AfterLastSlash(s: string, k: nat): (i: nat)
    requires k <= |s|
    ensures i <= k && (forall j | i <= j < k :: s[j] != '/') && (i > 0 ==> s[i - 1] == '/')
  {
    if k == 0 || s[k - 1] == '/' then k else AfterLastSlash(s, k - 1)
  }

  function FileName(path: string): string { path[AfterLastSlash(path, |path|)..] }

  /** The position of the last dot, or the length. */
  function LastDot(s: string, k: nat): (i: nat)
    requires k <= |s|
    ensures i < k ==> s[i] == '.' && forall j | i < j < k :: s[j] != '.'
    ensures i >= k ==> i == |s| && forall j | 0 <= j < k :: s[j] != '.'
  {
    if k == 0 then |s| else if s[k - 1] == '.' then k - 1 else var i := LastDot(s, k - 1); if i < k - 1 then i else |s|
  }

  function WithoutExtension(fileName: string): string { fileName[..LastDot(fileName, |fileName|)] }

  /** The name of the child folder of root that a path belongs to, if it belongs to one. */
  function ManagedName(root: string, path: string): (name: Option<string>)
    ensures name.Some? ==> forall i | 0 <= i < |name.value| :: name.value[i] != '/'
  {
    var normalized := Normalize(path);
    if IsBlank(path) || !StartsWithIgnoreCase(normalized, root) then None
    else
      var relative := Trim(normalized[|root|..], IsSlash);
      if IsBlank(relative) then None else Some(relative[..FirstSlash(relative, 0)])
  }

  function FolderPath(root: string, name: string): string { root + "/" + name }

  function ManagedFolderPath(root: string, path: string): Option<string> {
    match ManagedName(root, path)
    case None => None
    case Some(name) => Some(FolderPath(root, name))
  }

  /** A name a folder can have. */
  predicate ProperName(name: string) {
    !IsBlank(name) && forall i | 0 <= i < |name| :: name[i] != '/' && name[i] != '\\'
  }

  /** A path is a child folder of root, or lies in it. */
  predicate Under(root: string, name: string, path: string) {
    path == FolderPath(root, name) || StartsWith(path, FolderPath(root, name) + "/")
  }

  predicate HasNoBackslash(s: string) { forall i | 0 <= i < |s| :: s[i] != '\\' }

  lemma FileNameOfChild(root: string, name: string)
    requires forall i | 0 <= i < |name| :: name[i] != '/'
    ensures FileName(FolderPath(root, name)) == name
  {
    var path := FolderPath(root, name);
    var i := AfterLastSlash(path, |path|);
    assert path[|root|] == '/';
    assert forall j | |root| < j < |path| :: path[j] == name[j - |root| - 1];
    assert i == |root| + 1;
  }

  /** A name followed by nothing or by a slash is a text whose first segment is the name. */
  lemma SegmentOf(name: string, tail: string)
    requires ProperName(name) && (tail == "" || tail[0] == '/')
    ensures !IsBlank(name + tail) && FirstSlash(name + tail, 0) == |name| && (name + tail)[..|name|] == name
  {
    var s := name + tail;
    assert forall i | 0 <= i < |name| :: s[i] == name[i];
    assert tail != "" ==> s[|name|] == tail[0];
    var k :| 0 <= k < |name| && !IsSpace(name[k]);
    assert !IsSpace(s[k]);
  }

  /** Trimming a slash, a name, and whatever follows leaves the name and the beginning of what follows. */
  lemma TrimmedSegment(name: string, rest: string) returns (tail: string)
    requires ProperName(name) && (rest == "" || rest[0] == '/')
    ensures (tail == "" || tail[0] == '/') && Trim("/" + (name + rest), IsSlash) == name + tail
  {
    var inner := name + rest;
    var s := "/" + inner;
    var i, j := TrimSplits(s, IsSlash);
    assert inner[0] == name[0] && inner[|name| - 1] == name[|name| - 1];
    assert s[1] == inner[0] && s[|name|] == inner[|name| - 1];
    assert i == 1 && |name| < j;
    tail := rest[..j - 1 - |name|];
    assert s[1..j] == inner[..j - 1];
    assert inner[..j - 1] == name + tail;
  }

  lemma FirstSegmentOf(name: string, rest: string)
    requires ProperName(name) && (rest == "" || rest[0] == '/')
    ensures var relative := Trim("/" + (name + rest), IsSlash);
            !IsBlank(relative) && relative[..FirstSlash(relative, 0)] == name
  {
    var tail := TrimmedSegment(name, rest);
    SegmentOf(name, tail);
  }

  /** A prefix in lower case is the lower case of the prefix. */
  lemma LowerPrefix(s: string, prefix: string)
    requires prefix <= s
    ensures StartsWithIgnoreCase(s, prefix)
  {
    assert Lower(s)[..|prefix|] == Lower(prefix);
  }

  lemma NormalizePrefix(s: string, prefix: string)
    requires prefix <= s && HasNoBackslash(prefix)
    ensures prefix <= Normalize(s)
  {
    assert forall i | 0 <= i < |prefix| :: Normalize(s)[i] == prefix[i];
  }

  lemma NotBlank(s: string, prefix: string)
    requires prefix <= s && !IsBlank(prefix)
    ensures !IsBlank(s)
  {
    var k :| 0 <= k < |prefix| && !IsSpace(prefix[k]);
    assert s[k] == prefix[k];
  }

  /** A path in a child folder is attributed to that folder. */
  lemma UnderIsManaged(root: string, name: string, path: string)
    requires !IsBlank(root) && HasNoBackslash(root) && ProperName(name) && Under(root, name, path)
    ensures ManagedName(root, path) == Some(name)
    ensures StartsWithIgnoreCase(path, root)
  {
    var folder, n := FolderPath(root, name), Normalize(path);
    assert root <= folder <= path;
    NormalizePrefix(path, folder);
    LowerPrefix(path, root);
    LowerPrefix(n, root);
    NotBlank(path, root);
    var tail := n[|folder|..];
    assert n[|root|..] == "/" + (name + tail);
    if path != folder {
      NormalizePrefix(path, folder + "/");
      assert tail[0] == (folder + "/")[|folder|];
    }
    FirstSegmentOf(name, tail);
  }

  /******* The watchers' filters *******/

  predicate IsManagedPath(path: string) { StartsWithIgnoreCase(path, REMOTE_ROOT) }

  predicate IsManagedAtlasPath(path: string) { StartsWithIgnoreCase(path, SOURCE_ROOT) }

  predicate IsManagedPrefabPath(path: string) {
    !IsBlank(path) && EndsWithIgnoreCase(path, ".prefab") && StartsWithIgnoreCase(path, PREFAB_ROOT)
  }

  predicate Watched(path: string) { IsManagedPath(path) || IsManagedAtlasPath(path) }

  /** The atlas of a source folder. */
  function AtlasPath(name: string): string { OUTPUT_ROOT + "/" + name + ".spriteatlas" }

  lemma AtlasPathInjective(m: string, n: string)
    requires AtlasPath(m) == AtlasPath(n)
    ensures m == n
  {
    var k := |OUTPUT_ROOT| + 1;
    assert AtlasPath(m)[k..|AtlasPath(m)| - 12] == m;
    assert AtlasPath(n)[k..|AtlasPath(n)| - 12] == n;
  }

  /** Folders and files that syncing atlases may write: the output folder, its parent, and what is inside. */
  predicate IsAtlasOutput(path: string) {
    path == REMOTE_ROOT || path == OUTPUT_ROOT || StartsWith(path, OUTPUT_ROOT + "/")
  }

  /** Atlas output is watched by the group sync alone: it triggers neither atlas sync nor prefab checks. */
  lemma OutputTriggersNoAtlasSync(path: string)
    requires IsAtlasOutput(path)
    ensures !IsManagedAtlasPath(path) && !IsManagedPrefabPath(path) && IsManagedPath(path)
  {
    assert REMOTE_ROOT <= path;
    LowerPrefix(path, REMOTE_ROOT);
    RootsAreApart(path);
    if path != REMOTE_ROOT {
      assert path[27] == 'A' && Lower(path)[27] == 'a';
      assert Lower(PREFAB_ROOT)[27] == 'p';
    }
  }

  /** The assets that hold the group settings. */
  predicate IsSettings(path: string) { StartsWith(path, SETTINGS_ROOT) }

  /** What syncing groups saves is watched by nobody. */
  lemma SettingsAreUnwatched(path: string)
    requires IsSettings(path)
    ensures !Watched(path) && !IsManagedPrefabPath(path)
  {
    assert path[18] == 'A' && Lower(path)[18] == 'a';
    assert path[7] == 'A' && path[8] == 'd' && Lower(path)[8] == 'd';
    assert Lower(REMOTE_ROOT)[18] == 's' && Lower(PREFAB_ROOT)[18] == 's' && Lower(SOURCE_ROOT)[8] == 'a';
  }

  /** The two watched roots have no path in common. */
  lemma RootsAreApart(path: string)
    ensures !(IsManagedPath(path) && IsManagedAtlasPath(path))
  {
    assert Lower(REMOTE_ROOT)[8] == 'd' && Lower(SOURCE_ROOT)[8] == 'a';
  }

  /******* Collections of paths *******/

  function Elements(s: seq<string>): set<string> { set x | x in s }

  lemma ElementsSnoc(s: seq<string>, i: nat)
    requires i < |s|
    ensures Elements(s[..i + 1]) == Elements(s[..i]) + {s[i]}
  {
    assert s[..i + 1] == s[..i] + [s[i]];
  }

  function FileNames(paths: seq<string>): set<string> { set f | f in paths :: FileName(f) }

  lemma FileNamesSnoc(s: seq<string>, x: string)
    ensures FileNames(s + [x]) == FileNames(s) + {FileName(x)}
  {
  }

  /** The child folders of a root that paths belong to. */
  function ChangedNames(root: string, paths: set<string>): set<string> {
    set p | p in paths && ManagedName(root, p).Some? :: ManagedName(root, p).value
  }

  lemma ChangedNamesUnion(root: string, ps: set<string>, qs: set<string>)
    ensures ChangedNames(root, ps + qs) == ChangedNames(root, ps) + ChangedNames(root, qs)
  {
  }

  lemma ChangedNamesAdd(root: string, paths: set<string>, p: string)
    ensures ChangedNames(root, paths + {p}) ==
            ChangedNames(root, paths) + match ManagedName(root, p) case None => {} case Some(n) => {n}
  {
  }

  predicate IsChildOf(root: string, path: string) { path == FolderPath(root, FileName(path)) }

  /** Distinct child folders of a root, one for each of the given names. */
  ghost predicate AreFolders(root: string, folders: seq<string>, names: set<string>) {
    && FileNames(folders) == names
    && (forall i | 0 <= i < |folders| :: IsChildOf(root, folders[i]))
    && (forall i, j | 0 <= i < j < |folders| :: folders[i] != folders[j])
  }

  lemma AddFolder(root: string, folders: seq<string>, names: set<string>, n: string)
    requires AreFolders(root, folders, names) && forall i | 0 <= i < |n| :: n[i] != '/'
    ensures AreFolders(root, if FolderPath(root, n) in folders then folders else folders + [FolderPath(root, n)],
                       names + {n})
  {
    var folder := FolderPath(root, n);
    FileNameOfChild(root, n);
    FileNamesSnoc(folders, folder);
    if folder in folders {
      assert FileName(folder) in FileNames(folders);
      assert names + {n} == names;
    } else {
      AreFoldersSnoc(root, folders, names, folder);
    }
  }

  lemma AreFoldersSnoc(root: string, folders: seq<string>, names: set<string>, folder: string)
    requires AreFolders(root, folders, names) && folder !in folders && IsChildOf(root, folder)
    ensures AreFolders(root, folders + [folder], names + {FileName(folder)})
  {
    FileNamesSnoc(folders, folder);
  }

  /** The distinct child folders that paths belong to, in order of first appearance. */
  method FoldersToSync(root: string, paths: seq<string>) returns (folders: seq<string>)
    ensures AreFolders(root, folders, ChangedNames(root, Elements(paths)))
  {
    folders := [];
    assert paths[..|paths|] == paths;
    for i := 0 to |paths|
      invariant AreFolders(root, folders, ChangedNames(root, Elements(paths[..i])))
    {
      ElementsSnoc(paths, i);
      ChangedNamesAdd(root, Elements(paths[..i]), paths[i]);
      var folder := ManagedFolderPath(root, paths[i]);
      if folder.Some? {
        AddFolder(root, folders, ChangedNames(root, Elements(paths[..i])), ManagedName(root, paths[i]).value);
        if folder.value !in folders {
          folders := folders + [folder.value];
        }
      }
    }
  }
}
