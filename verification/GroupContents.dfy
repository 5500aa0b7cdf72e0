/**
 What the groups hold after a sync, spelled out on the assets found: which of them have an entry, and under which
 address.
 */
module GroupContents {
  import opened Options
  import opened Text
  import opened Spelling
  import opened AssetPaths
  import opened GroupSpec
  import opened GroupTheorems
  import opened PathPlaces

  /** Position k is where the file name of a path begins. */
  predicate FileNameAt(path: string, k: nat) {
    && k <= |path| && (k > 0 ==> path[k - 1] == '/')
    && forall i | k <= i < |path| :: path[i] != '/'
  }

  ghost predicate FileNameStartsWithDot(path: string) {
    exists k: nat :: FileNameAt(path, k) && DotAt(path, k)
  }

  predicate DotAt(path: string, k: nat) { k < |path| && path[k] == '.' }

  /** The file name of a path, without what follows its last dot. */
  ghost predicate IsStem(path: string, stem: string) {
    exists k: nat :: FileNameAt(path, k) && StemAt(path, stem, k)
  }

  predicate StemAt(path: string, stem: string, k: nat) {
    && k + |stem| <= |path| && path[k..k + |stem|] == stem
    && if k + |stem| == |path| then forall i | k <= i < |path| :: path[i] != '.'
       else path[k + |stem|] == '.' && forall i | k + |stem| < i < |path| :: path[i] != '.'
  }

  /** An asset that gets an entry: no folder, not the login prefab, no hidden file, no script and no meta file. */
  ghost predicate GetsEntry(a: Asset) {
    && !OnlyWhite(a.guid) && !a.isFolder
    && !EqualInAnyCase(a.path, "Assets/Addressables_Remote/Prefabs/UI_Login.prefab")
    && !FileNameStartsWithDot(a.path)
    && !EndsInAnyCase(a.path, ".cs") && !EndsInAnyCase(a.path, ".meta")
  }

  /** The group of a folder is there, and holds exactly the folder's assets that get an entry, each at its address. */
  ghost predicate HoldsExactly(groups: Groups, folder: string, assets: seq<Asset>) {
    && "remote_" + folder in groups
    && (forall g :: g in groups["remote_" + folder] <==>
          exists i :: 0 <= i < |assets| && assets[i].guid == g && GetsEntry(assets[i]))
    && (forall i | 0 <= i < |assets| && GetsEntry(assets[i]) && assets[i].guid in groups["remote_" + folder] ::
          HasAddress(groups["remote_" + folder][assets[i].guid], folder, assets[i].path))
  }

  ghost predicate HasAddress(address: string, folder: string, path: string) {
    exists stem :: IsStem(path, stem) && address == folder + "/" + stem + "_remote"
  }

  lemma FileNameIs(path: string, k: nat)
    requires FileNameAt(path, k)
    ensures FileName(path) == path[k..]
  {
    assert AfterLastSlash(path, |path|) == k;
  }

  lemma FileNameExists(path: string) returns (k: nat)
    ensures FileNameAt(path, k) && FileName(path) == path[k..]
  {
    k := AfterLastSlash(path, |path|);
  }

  lemma DotSpelled(path: string)
    ensures StartsWith(FileName(path), ".") <==> FileNameStartsWithDot(path)
  {
    var k := FileNameExists(path);
    DotFirst(path, k);
    if FileNameStartsWithDot(path) {
      var j: nat :| FileNameAt(path, j) && DotAt(path, j);
      FileNameIs(path, j);
      DotFirst(path, j);
    }
  }

  lemma DotFirst(path: string, k: nat)
    requires k <= |path|
    ensures StartsWith(path[k..], ".") <==> DotAt(path, k)
  {
  }

  lemma StemSpelled(path: string)
    ensures IsStem(path, WithoutExtension(FileName(path)))
  {
    var k := FileNameExists(path);
    StemShift(path, k);
  }

  lemma StemShift(path: string, k: nat)
    requires k <= |path|
    ensures StemAt(path, WithoutExtension(path[k..]), k)
  {
    var name := path[k..];
    var d := LastDot(name, |name|);
    DotShift(path, k, d);
    assert path[k..k + d] == name[..d];
  }

  lemma DotShift(path: string, k: nat, d: nat)
    requires k <= |path| && d == LastDot(path[k..], |path| - k)
    ensures d < |path| - k ==> path[k + d] == '.' && forall i | k + d < i < |path| :: path[i] != '.'
    ensures d == |path| - k ==> forall i | k <= i < |path| :: path[i] != '.'
    ensures d <= |path| - k
  {
    var name := path[k..];
    forall i | k <= i < |path| ensures path[i] == name[i - k] {
    }
  }

  /** The code's filter is the spelled one. */
  lemma ListedSpelled(a: Asset)
    ensures Listed(a) <==> GetsEntry(a)
  {
    BlankSpelled(a.guid);
    EqualSpelled(a.path, LOGIN_PREFAB);
    DotSpelled(a.path);
    EndsSpelled(a.path, ".cs");
    EndsSpelled(a.path, ".meta");
  }

  lemma GroupNameSpelled(n: string)
    ensures GroupName(n) == "remote_" + n
  {
  }

  /** A group in sync holds exactly what it should. */
  lemma InSyncHoldsExactly(groups: Groups, files: Listing, n: string)
    requires WellFormed(files) && n in files && InSync(groups, files, n)
    ensures HoldsExactly(groups, n, files[n])
  {
    var assets, entries := files[n], EntriesOf(n, files[n]);
    GroupNameSpelled(n);
    forall g ensures g in entries <==> exists i :: 0 <= i < |assets| && assets[i].guid == g && GetsEntry(assets[i]) {
      EntrySpelled(files, n, g);
    }
    forall i | 0 <= i < |assets| && GetsEntry(assets[i]) && assets[i].guid in entries
      ensures HasAddress(entries[assets[i].guid], n, assets[i].path)
    {
      ListedSpelled(assets[i]);
      EntriesAreTheAssets(files, n, assets[i].guid);
      StemSpelled(assets[i].path);
    }
  }

  lemma EntrySpelled(files: Listing, n: string, g: string)
    requires WellFormed(files) && n in files
    ensures g in EntriesOf(n, files[n]) <==>
              exists i :: 0 <= i < |files[n]| && files[n][i].guid == g && GetsEntry(files[n][i])
  {
    EntriesAreTheAssets(files, n, g);
    forall i | 0 <= i < |files[n]| ensures Listed(files[n][i]) <==> GetsEntry(files[n][i]) {
      ListedSpelled(files[n][i]);
    }
  }

  /** A path that is a child folder of the remote root, or lies in it. */
  predicate ConcernsFolder(path: string, folder: string) {
    || path == "Assets/Addressables_Remote/" + folder
    || "Assets/Addressables_Remote/" + folder + "/" <= path
  }

  lemma ConcernsSpelled(path: string, folder: string)
    requires ConcernsFolder(path, folder)
    ensures Under(REMOTE_ROOT, folder, path)
  {
    assert FolderPath(REMOTE_ROOT, folder) == "Assets/Addressables_Remote/" + folder;
  }

  /** A folder name as it is in a path: not only white space, and no slash of either kind. */
  predicate IsFolderName(name: string) {
    !OnlyWhite(name) && forall i | 0 <= i < |name| :: name[i] != '/' && name[i] != '\\'
  }

  lemma FolderNameSpelled(name: string)
    ensures ProperName(name) <==> IsFolderName(name)
  {
    BlankSpelled(name);
  }

  /** Paths that concern a folder are attributed to it. */
  lemma ConcernedIsAttributed(path: string, folder: string)
    requires ConcernsFolder(path, folder) && IsFolderName(folder)
    ensures AttributedTo("Assets/Addressables_Remote", path, folder)
  {
    ConcernsSpelled(path, folder);
    FolderNameSpelled(folder);
    assert !IsSpace(REMOTE_ROOT[0]);
    UnderIsAttributed(REMOTE_ROOT, folder, path);
  }
}
