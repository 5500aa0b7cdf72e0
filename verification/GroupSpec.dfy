/**
 Addressables groups as they should be: one group per child folder of the remote root, holding exactly the
 folder's assets.  The sync, full or incremental, is specified as a function from old groups and files to
 new groups.
 */
module GroupSpec {
  import opened Options
  import opened Text
  import opened AssetPaths

  /** One result of a search in the asset database. */
  datatype Asset = Asset(guid: string, path: string, isFolder: bool)

  /** The child folders of the remote root, each with the assets found in it. */
  type Listing = map<string, seq<Asset>>

  /** A group's entries: the address of each guid. */
  type Entries = map<string, string>

  type Groups = map<string, Entries>

  const LOGIN_PREFAB := "Assets/Addressables_Remote/Prefabs/UI_Login.prefab"

  predicate IsAddressable(a: Asset) {
    && !EqualIgnoreCase(a.path, LOGIN_PREFAB)
    && !a.isFolder
    && !StartsWith(FileName(a.path), ".")
    && !EndsWithIgnoreCase(a.path, ".cs")
    && !EndsWithIgnoreCase(a.path, ".meta")
  }

  /** Assets that get an entry. */
  predicate Listed(a: Asset) { IsAddressable(a) && !IsBlank(a.guid) }

  function BuildAddress(folder: string, path: string): string {
    folder + "/" + WithoutExtension(FileName(path)) + "_remote"
  }

  /** The entries the assets of a folder call for. */
  function EntriesOf(folder: string, assets: seq<Asset>): Entries {
    if assets == [] then map[]
    else
      var a := assets[|assets| - 1];
      var rest := EntriesOf(folder, assets[..|assets| - 1]);
      if Listed(a) then rest[a.guid := BuildAddress(folder, a.path)] else rest
  }

  function GroupName(folder: string): string { REMOTE_PREFIX + folder }

  function FolderOf(group: string): string
    requires |REMOTE_PREFIX| <= |group|
  {
    group[|REMOTE_PREFIX|..]
  }

  predicate IsManagedGroup(group: string) { StartsWithIgnoreCase(group, REMOTE_PREFIX) }

  predicate NamedFor(group: string, folders: set<string>) {
    StartsWith(group, REMOTE_PREFIX) && FolderOf(group) in folders
  }

  /** Guids that entries of the given folders lay claim to. */
  ghost predicate Claimed(guid: string, files: Listing, folders: set<string>) {
    exists n :: n in folders && n in files && guid in EntriesOf(n, files[n])
  }

  ghost function Unclaimed(entries: Entries, files: Listing, folders: set<string>): Entries {
    map g | g in entries && !Claimed(g, files, folders) :: entries[g]
  }

  /** A group gets exactly the given entries, and every other group loses their guids. */
  ghost function Install(groups: Groups, group: string, entries: Entries): Groups {
    map k | k in groups.Keys + {group} :: if k == group then entries else groups[k] - entries.Keys
  }

  /** Syncing one folder: its group is rebuilt, or removed when the folder is gone. */
  ghost function SyncOne(groups: Groups, files: Listing, folder: string): Groups {
    if folder in files then Install(groups, GroupName(folder), EntriesOf(folder, files[folder]))
    else groups - {GroupName(folder)}
  }

  /** Syncing a set of folders. */
  ghost function SyncSome(groups: Groups, files: Listing, folders: set<string>): Groups {
    map k | k in groups.Keys + (set n | n in folders && n in files :: GroupName(n))
            && !NamedFor(k, folders - files.Keys) ::
      if NamedFor(k, folders) then EntriesOf(FolderOf(k), files[FolderOf(k)])
      else Unclaimed(groups[k], files, folders)
  }

  /** Managed groups that no folder stands behind go; all others stay. */
  ghost function DropUnused(groups: Groups, files: Listing): Groups {
    map k | k in groups && (IsManagedGroup(k) ==> NamedFor(k, files.Keys)) :: groups[k]
  }

  /** The outcome of a sync of some folders, clean-up included. */
  ghost function Synced(groups: Groups, files: Listing, folders: set<string>): Groups {
    DropUnused(SyncSome(groups, files, folders), files)
  }

  /** The outcome of a full rebuild. */
  ghost function Rebuilt(groups: Groups, files: Listing): Groups { Synced(groups, files, files.Keys) }

  /******* Well-formedness *******/

  /** Folder names are proper, and a guid stands for one asset at one place. */
  ghost predicate WellFormed(files: Listing) {
    && (forall n | n in files :: ProperName(n))
    && (forall m, n, i, j | m in files && n in files && 0 <= i < |files[m]| && 0 <= j < |files[n]|
          && !IsBlank(files[m][i].guid) && files[m][i].guid == files[n][j].guid ::
          m == n && files[m][i].path == files[n][j].path)
  }

  /** A guid is in at most one group. */
  ghost predicate UniqueGuids(groups: Groups) {
    forall j, k, g | j in groups && k in groups && g in groups[j] && g in groups[k] :: j == k
  }

  /** A folder's group exists exactly when the folder does, and then holds exactly its entries. */
  ghost predicate InSync(groups: Groups, files: Listing, folder: string) {
    && (GroupName(folder) in groups <==> folder in files)
    && (folder in files ==> groups[GroupName(folder)] == EntriesOf(folder, files[folder]))
  }

  lemma GroupNameProps(n: string)
    ensures StartsWith(GroupName(n), REMOTE_PREFIX) && FolderOf(GroupName(n)) == n && IsManagedGroup(GroupName(n))
  {
    LowerPrefix(GroupName(n), REMOTE_PREFIX);
  }

  lemma NamedForIs(k: string, folders: set<string>)
    ensures NamedFor(k, folders) ==> k == GroupName(FolderOf(k)) && IsManagedGroup(k)
    ensures forall n | k == GroupName(n) :: NamedFor(k, folders) <==> n in folders
  {
    if StartsWith(k, REMOTE_PREFIX) {
      LowerPrefix(k, REMOTE_PREFIX);
    }
    forall n | k == GroupName(n) ensures NamedFor(k, folders) <==> n in folders {
      GroupNameProps(n);
    }
  }

  /** An entry's guid is the guid of an asset of the folder. */
  lemma {:induction false} EntryHasAsset(folder: string, assets: seq<Asset>, g: string) returns (i: nat)
    requires g in EntriesOf(folder, assets)
    ensures i < |assets| && assets[i].guid == g && !IsBlank(g) && Listed(assets[i])
    ensures EntriesOf(folder, assets)[g] == BuildAddress(folder, assets[i].path)
  {
    var last := assets[|assets| - 1];
    if Listed(last) && last.guid == g {
      i := |assets| - 1;
    } else {
      i := EntryHasAsset(folder, assets[..|assets| - 1], g);
    }
  }

  /** Every listed asset has an entry, under its own address when guids are unambiguous. */
  lemma {:induction false} AssetHasEntry(folder: string, assets: seq<Asset>, i: nat)
    requires i < |assets| && Listed(assets[i])
    ensures assets[i].guid in EntriesOf(folder, assets)
    decreases |assets|
  {
    if i < |assets| - 1 {
      AssetHasEntry(folder, assets[..|assets| - 1], i);
    }
  }

  /** What an entry table is: the listed assets by guid, each under its address. */
  lemma EntriesAreTheAssets(files: Listing, n: string, g: string)
    requires WellFormed(files) && n in files
    ensures g in EntriesOf(n, files[n]) <==>
              exists i :: 0 <= i < |files[n]| && Listed(files[n][i]) && files[n][i].guid == g
    ensures forall i | 0 <= i < |files[n]| && Listed(files[n][i]) && files[n][i].guid == g ::
              g in EntriesOf(n, files[n]) && EntriesOf(n, files[n])[g] == BuildAddress(n, files[n][i].path)
  {
    forall i | 0 <= i < |files[n]| && Listed(files[n][i]) && files[n][i].guid == g
      ensures g in EntriesOf(n, files[n]) && EntriesOf(n, files[n])[g] == BuildAddress(n, files[n][i].path)
    {
      AssetHasEntry(n, files[n], i);
      var j := EntryHasAsset(n, files[n], g);
      assert files[n][i].path == files[n][j].path;
    }
    if g in EntriesOf(n, files[n]) {
      var j := EntryHasAsset(n, files[n], g);
    }
  }

  /** Two folders never lay claim to one guid. */
  lemma ClaimsAreApart(files: Listing, m: string, n: string, g: string)
    requires WellFormed(files) && m in files && n in files
    requires g in EntriesOf(m, files[m]) && g in EntriesOf(n, files[n])
    ensures m == n
  {
    var i := EntryHasAsset(m, files[m], g);
    var j := EntryHasAsset(n, files[n], g);
  }
}
