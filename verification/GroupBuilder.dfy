/**
 The group builder as it runs: loops over folders, assets, entries and groups that change the settings in
 place.  Each method is proved against the sync specification.
 */
module GroupBuilder {
  import opened Options
  import opened Text
  import opened Spelling
  import opened AssetPaths
  import opened GroupSpec
  import opened GroupTheorems
  import opened GroupContents
  import opened PathPlaces

  /** The outcome of a sync for a set of changed paths; paths outside the root call for none. */
  ghost function AfterChanges(groups: Groups, files: Listing, paths: set<string>): Groups {
    var folders := ChangedNames(REMOTE_ROOT, paths);
    if folders == {} then groups else Synced(groups, files, folders)
  }

  function CollectAssets(assets: seq<Asset>): seq<Asset> {
    if assets == [] then []
    else
      var rest := CollectAssets(assets[..|assets| - 1]);
      if IsAddressable(assets[|assets| - 1]) then rest + [assets[|assets| - 1]] else rest
  }

  lemma {:induction false} CollectKeepsEntries(folder: string, assets: seq<Asset>)
    ensures EntriesOf(folder, CollectAssets(assets)) == EntriesOf(folder, assets)
  {
    if assets != [] {
      var most, last := assets[..|assets| - 1], assets[|assets| - 1];
      CollectKeepsEntries(folder, most);
      if IsAddressable(last) {
        assert (CollectAssets(most) + [last])[..|CollectAssets(most)|] == CollectAssets(most);
      }
    }
  }

  /** A group takes over entries from wherever they are. */
  ghost function Adopt(groups: Groups, group: string, entries: Entries): Groups
    requires group in groups
  {
    map k | k in groups :: if k == group then groups[k] + entries else groups[k] - entries.Keys
  }

  /******* Settings *******/

  /** The Addressables settings: groups by name. */
  class AddressableSettings {
    var groups: map<string, map<string, string>>

    constructor (groups: map<string, map<string, string>>)
      ensures this.groups == groups
    {
      this.groups := groups;
    }

    method CreateGroup(name: string)
      requires name !in groups
      modifies this
      ensures groups == old(groups)[name := map[]]
    {
      groups := groups[name := map[]];
    }

    method RemoveGroup(name: string)
      modifies this
      ensures groups == old(groups) - {name}
    {
      groups := groups - {name};
    }

    /** The entry of a guid ends up in the given group, and in no other, under a new address. */
    method CreateOrMoveEntry(guid: string, group: string, address: string)
      requires group in groups
      modifies this
      ensures groups == Adopt(old(groups), group, map[guid := address])
    {
      groups := map k | k in groups :: if k == group then groups[k][guid := address] else groups[k] - {guid};
      AdoptOne(old(groups), group, guid, address);
    }

    method RemoveAssetEntry(guid: string)
      modifies this
      ensures groups == map k | k in old(groups) :: old(groups)[k] - {guid}
    {
      groups := map k | k in groups :: groups[k] - {guid};
    }
  }

  /******* One folder *******/

  method GetOrCreateGroup(settings: AddressableSettings, name: string)
    modifies settings
    ensures settings.groups ==
            if name in old(settings.groups) then old(settings.groups) else old(settings.groups)[name := map[]]
  {
    if name !in settings.groups {
      settings.CreateGroup(name);
    }
  }

  method AdoptAssets(settings: AddressableSettings, group: string, folder: string, assets: seq<Asset>)
    returns (validGuids: set<string>)
    requires group in settings.groups
    modifies settings
    ensures settings.groups == Adopt(old(settings.groups), group, EntriesOf(folder, assets))
    ensures validGuids == EntriesOf(folder, assets).Keys
  {
    var assetPaths := CollectAssets(assets);
    validGuids := {};
    assert EntriesOf(folder, []) == map[];
    AdoptNothing(settings.groups, group);
    for i := 0 to |assetPaths|
      invariant validGuids == EntriesOf(folder, assetPaths[..i]).Keys
      invariant group in old(settings.groups)
      invariant settings.groups == Adopt(old(settings.groups), group, EntriesOf(folder, assetPaths[..i]))
    {
      var a := assetPaths[i];
      EntriesSnoc(folder, assetPaths, i);
      CollectedIsAddressable(assets, i);
      if IsBlank(a.guid) {
        continue;
      }
      validGuids := validGuids + {a.guid};
      AdoptStep(old(settings.groups), group, EntriesOf(folder, assetPaths[..i]), a.guid, BuildAddress(folder, a.path));
      settings.CreateOrMoveEntry(a.guid, group, BuildAddress(folder, a.path));
    }
    assert assetPaths[..|assetPaths|] == assetPaths;
    CollectKeepsEntries(folder, assets);
  }

  method RemoveStaleEntries(settings: AddressableSettings, group: string, validGuids: set<string>)
    requires group in settings.groups && UniqueGuids(settings.groups)
    modifies settings
    ensures settings.groups == Retain(old(settings.groups), group, validGuids)
  {
    var entries := settings.groups[group].Keys;
    RetainAll(settings.groups, group, validGuids + entries);
    while entries != {}
      invariant entries <= old(settings.groups)[group].Keys
      invariant settings.groups == Retain(old(settings.groups), group, validGuids + entries)
      decreases entries
    {
      var guid :| guid in entries;
      ghost var keep := validGuids + entries;
      entries := entries - {guid};
      if guid in validGuids {
        assert validGuids + entries == keep;
        continue;
      }
      assert validGuids + entries == keep - {guid};
      RetainFewer(old(settings.groups), group, keep, guid);
      settings.RemoveAssetEntry(guid);
    }
    assert validGuids + entries == validGuids;
  }

  /** Brings one group in line with its folder. */
  method SyncGroupEntries(settings: AddressableSettings, group: string, folder: string, assets: seq<Asset>)
    requires group in settings.groups && UniqueGuids(settings.groups)
    modifies settings
    ensures settings.groups == Install(old(settings.groups), group, EntriesOf(folder, assets))
  {
    var validGuids := AdoptAssets(settings, group, folder, assets);
    AdoptKeepsUnique(old(settings.groups), group, EntriesOf(folder, assets));
    RemoveStaleEntries(settings, group, validGuids);
    RetainAdopted(old(settings.groups), group, EntriesOf(folder, assets));
  }

  /** Syncs the group of a folder that exists. */
  method SyncFolder(settings: AddressableSettings, files: Listing, folderName: string)
    requires folderName in files && UniqueGuids(settings.groups)
    modifies settings
    ensures settings.groups == SyncOne(old(settings.groups), files, folderName)
  {
    GetOrCreateGroup(settings, GroupName(folderName));
    ghost var before := settings.groups;
    SyncGroupEntries(settings, GroupName(folderName), folderName, files[folderName]);
    assert Install(before, GroupName(folderName), EntriesOf(folderName, files[folderName]))
        == Install(old(settings.groups), GroupName(folderName), EntriesOf(folderName, files[folderName]));
  }

  method SyncSingleFolder(settings: AddressableSettings, files: Listing, folderPath: string)
    requires UniqueGuids(settings.groups)
    modifies settings
    ensures settings.groups == SyncOne(old(settings.groups), files, FileName(folderPath))
  {
    if FileName(folderPath) !in files {
      RemoveGroupForFolder(settings, folderPath);
      return;
    }
    SyncFolder(settings, files, FileName(folderPath));
  }

  method RemoveGroupForFolder(settings: AddressableSettings, folderPath: string)
    modifies settings
    ensures settings.groups == old(settings.groups) - {GroupName(FileName(folderPath))}
  {
    if GroupName(FileName(folderPath)) in settings.groups {
      settings.RemoveGroup(GroupName(FileName(folderPath)));
    }
  }

  /******* Whole syncs *******/

  function GroupNames(folders: set<string>): set<string> { set n | n in folders :: GroupName(n) }

  lemma GroupNamesAdd(folders: set<string>, n: string)
    ensures GroupNames(folders + {n}) == GroupNames(folders) + {GroupName(n)}
  {
  }

  /** The group names that folders stand behind; `subFolders` is the root's children in any order. */
  method BuildValidGroupNames(subFolders: seq<string>) returns (names: set<string>)
    ensures names == GroupNames(Elements(subFolders))
  {
    names := {};
    assert subFolders[..|subFolders|] == subFolders;
    for i := 0 to |subFolders|
      invariant names == GroupNames(Elements(subFolders[..i]))
    {
      ElementsSnoc(subFolders, i);
      GroupNamesAdd(Elements(subFolders[..i]), subFolders[i]);
      names := names + {GroupName(subFolders[i])};
    }
  }

  method RemoveUnusedGroups(settings: AddressableSettings, validGroupNames: set<string>, ghost files: Listing)
    requires validGroupNames == GroupNames(files.Keys)
    modifies settings
    ensures settings.groups == DropUnused(old(settings.groups), files)
  {
    var todo := set k | k in settings.groups && IsManagedGroup(k);
    while todo != {}
      invariant forall k | k in todo :: k in old(settings.groups) && IsManagedGroup(k)
      invariant settings.groups == map k | k in old(settings.groups)
                  && (IsManagedGroup(k) && k !in todo ==> NamedFor(k, files.Keys)) :: old(settings.groups)[k]
      decreases todo
    {
      var k :| k in todo;
      todo := todo - {k};
      ValidNames(k, files);
      if k in validGroupNames {
        continue;
      }
      settings.RemoveGroup(k);
    }
  }

  lemma ValidNames(k: string, files: Listing)
    ensures k in GroupNames(files.Keys) <==> NamedFor(k, files.Keys)
  {
    NamedForIs(k, files.Keys);
  }

  /** The full rebuild, whatever the order in which the child folders come. */
  method SyncFolderGroups(settings: AddressableSettings, files: Listing, subFolders: seq<string>)
    requires WellFormed(files) && UniqueGuids(settings.groups) && Elements(subFolders) == files.Keys
    modifies settings
    ensures settings.groups == Rebuilt(old(settings.groups), files)
    ensures forall n | n in files :: HoldsExactly(settings.groups, n, files[n])
    ensures OnlyFoldersHaveGroups(settings.groups, files)
  {
    var validGroupNames := SyncRoot(settings, files, subFolders);
    RemoveUnusedGroups(settings, validGroupNames, files);
    RebuiltSpelled(old(settings.groups), files);
  }

  /** Every group whose name starts, in any letter case, with the prefix is the group of a folder. */
  ghost predicate OnlyFoldersHaveGroups(groups: Groups, files: Listing) {
    forall k | k in groups && StartsInAnyCase(k, "remote_") :: exists n :: n in files && k == "remote_" + n
  }

  lemma RebuiltSpelled(groups: Groups, files: Listing)
    requires WellFormed(files)
    ensures forall n | n in files :: HoldsExactly(Rebuilt(groups, files), n, files[n])
    ensures OnlyFoldersHaveGroups(Rebuilt(groups, files), files)
  {
    forall n | n in files ensures HoldsExactly(Rebuilt(groups, files), n, files[n]) {
      SyncedFoldersAreInSync(groups, files, files.Keys, n);
      InSyncHoldsExactly(Rebuilt(groups, files), files, n);
    }
    DroppedSpelled(SyncSome(groups, files, files.Keys), files);
  }

  lemma DroppedSpelled(groups: Groups, files: Listing)
    ensures OnlyFoldersHaveGroups(DropUnused(groups, files), files)
  {
    forall k | k in DropUnused(groups, files) && StartsInAnyCase(k, "remote_")
      ensures exists n :: n in files && k == "remote_" + n
    {
      StartsSpelled(k, REMOTE_PREFIX);
      assert NamedFor(k, files.Keys);
      NamedForIs(k, files.Keys);
      GroupNameSpelled(FolderOf(k));
    }
  }

  method SyncRoot(settings: AddressableSettings, files: Listing, subFolders: seq<string>)
    returns (validGroupNames: set<string>)
    requires WellFormed(files) && UniqueGuids(settings.groups) && Elements(subFolders) == files.Keys
    modifies settings
    ensures settings.groups == SyncSome(old(settings.groups), files, files.Keys)
    ensures validGroupNames == GroupNames(files.Keys)
  {
    validGroupNames := {};
    SyncNothing(settings.groups, files);
    assert subFolders[..|subFolders|] == subFolders;
    assert Elements(subFolders[..0]) == {};
    for i := 0 to |subFolders|
      invariant validGroupNames == GroupNames(Elements(subFolders[..i]))
      invariant settings.groups == SyncSome(old(settings.groups), files, Elements(subFolders[..i]))
    {
      var folderName := subFolders[i];
      SyncRootStep(old(settings.groups), files, subFolders, i);
      validGroupNames := validGroupNames + {GroupName(folderName)};
      SyncFolder(settings, files, folderName);
    }
  }

  lemma SyncRootStep(groups: Groups, files: Listing, subFolders: seq<string>, i: nat)
    requires WellFormed(files) && UniqueGuids(groups) && Elements(subFolders) == files.Keys && i < |subFolders|
    ensures var done, some := Elements(subFolders[..i]), SyncSome(groups, files, Elements(subFolders[..i]));
            && subFolders[i] in files && UniqueGuids(some)
            && SyncOne(some, files, subFolders[i]) == SyncSome(groups, files, Elements(subFolders[..i + 1]))
            && GroupNames(Elements(subFolders[..i + 1])) == GroupNames(done) + {GroupName(subFolders[i])}
  {
    var done := Elements(subFolders[..i]);
    assert subFolders[i] in Elements(subFolders);
    ElementsSnoc(subFolders, i);
    GroupNamesAdd(done, subFolders[i]);
    SyncSomeKeepsUnique(groups, files, done);
    SyncSomeStep(groups, files, done, subFolders[i]);
  }

  method SyncFolders(settings: AddressableSettings, files: Listing, folders: seq<string>)
    requires WellFormed(files) && UniqueGuids(settings.groups)
    modifies settings
    ensures settings.groups == SyncSome(old(settings.groups), files, FileNames(folders))
  {
    SyncNothing(settings.groups, files);
    assert FileNames(folders[..0]) == {} && folders[..|folders|] == folders;
    for i := 0 to |folders|
      invariant settings.groups == SyncSome(old(settings.groups), files, FileNames(folders[..i]))
    {
      SyncFoldersStep(old(settings.groups), files, folders, i);
      SyncSingleFolder(settings, files, folders[i]);
    }
  }

  lemma SyncFoldersStep(groups: Groups, files: Listing, folders: seq<string>, i: nat)
    requires WellFormed(files) && UniqueGuids(groups) && i < |folders|
    ensures var some := SyncSome(groups, files, FileNames(folders[..i]));
            && UniqueGuids(some)
            && SyncOne(some, files, FileName(folders[i])) == SyncSome(groups, files, FileNames(folders[..i + 1]))
  {
    assert folders[..i + 1] == folders[..i] + [folders[i]];
    FileNamesSnoc(folders[..i], folders[i]);
    SyncSomeKeepsUnique(groups, files, FileNames(folders[..i]));
    SyncSomeStep(groups, files, FileNames(folders[..i]), FileName(folders[i]));
  }

  /** The incremental sync: the folders of the changed paths, then a clean-up; nothing when there are none. */
  method SyncChangedPaths(settings: AddressableSettings, files: Listing, subFolders: seq<string>, paths: seq<string>)
    requires WellFormed(files) && UniqueGuids(settings.groups) && Elements(subFolders) == files.Keys
    modifies settings
    ensures settings.groups == AfterChanges(old(settings.groups), files, Elements(paths))
    ensures forall p, n | p in paths && AttributedTo("Assets/Addressables_Remote", p, n) ::
              FolderIsRight(settings.groups, files, n)
    ensures if exists p, n :: p in paths && AttributedTo("Assets/Addressables_Remote", p, n)
            then OnlyFoldersHaveGroups(settings.groups, files) else settings.groups == old(settings.groups)
  {
    ChangesSpelled(settings.groups, files, paths);
    var folders := FoldersToSync(REMOTE_ROOT, paths);
    if |folders| == 0 {
      return;
    }
    assert FileName(folders[0]) in FileNames(folders);
    SyncFolders(settings, files, folders);
    var validGroupNames := BuildValidGroupNames(subFolders);
    RemoveUnusedGroups(settings, validGroupNames, files);
  }

  /** A folder's group holds exactly what it should, or is gone with the folder. */
  ghost predicate FolderIsRight(groups: Groups, files: Listing, n: string) {
    if n in files then HoldsExactly(groups, n, files[n]) else "remote_" + n !in groups
  }

  lemma ChangesSpelled(groups: Groups, files: Listing, paths: seq<string>)
    requires WellFormed(files)
    ensures var after := AfterChanges(groups, files, Elements(paths));
            && (forall p, n | p in paths && AttributedTo("Assets/Addressables_Remote", p, n) ::
                  FolderIsRight(after, files, n))
            && if exists p, n :: p in paths && AttributedTo("Assets/Addressables_Remote", p, n)
               then OnlyFoldersHaveGroups(after, files) else after == groups
  {
    var folders := ChangedNames(REMOTE_ROOT, Elements(paths));
    forall p, n | p in paths && AttributedTo(REMOTE_ROOT, p, n)
      ensures folders != {} && FolderIsRight(AfterChanges(groups, files, Elements(paths)), files, n)
    {
      ChangedAreAttributed(REMOTE_ROOT, paths, n);
      SyncedSpelled(groups, files, folders, n);
    }
    NothingIsAttributed(REMOTE_ROOT, paths);
    DroppedSpelled(SyncSome(groups, files, folders), files);
  }

  lemma SyncedSpelled(groups: Groups, files: Listing, folders: set<string>, n: string)
    requires WellFormed(files) && n in folders
    ensures FolderIsRight(Synced(groups, files, folders), files, n)
  {
    SyncedFoldersAreInSync(groups, files, folders, n);
    GroupNameSpelled(n);
    if n in files {
      InSyncHoldsExactly(Synced(groups, files, folders), files, n);
    }
  }

  lemma EntriesSnoc(folder: string, assets: seq<Asset>, i: nat)
    requires i < |assets|
    ensures EntriesOf(folder, assets[..i + 1]) ==
            if Listed(assets[i])
            then EntriesOf(folder, assets[..i])[assets[i].guid := BuildAddress(folder, assets[i].path)]
            else EntriesOf(folder, assets[..i])
  {
    assert assets[..i + 1][..i] == assets[..i];
  }

  lemma {:induction false} CollectedIsAddressable(assets: seq<Asset>, i: nat)
    requires i < |CollectAssets(assets)|
    ensures IsAddressable(CollectAssets(assets)[i])
    decreases |assets|
  {
    var most := assets[..|assets| - 1];
    if i < |CollectAssets(most)| {
      CollectedIsAddressable(most, i);
    }
  }

  lemma AdoptNothing(groups: Groups, group: string)
    requires group in groups
    ensures Adopt(groups, group, map[]) == groups
  {
    forall k | k in groups ensures Adopt(groups, group, map[])[k] == groups[k] {
      assert groups[k] - {} == groups[k] && groups[k] + map[] == groups[k];
    }
  }

  lemma AdoptOne(groups: Groups, group: string, guid: string, address: string)
    requires group in groups
    ensures Adopt(groups, group, map[guid := address])
         == map k | k in groups :: if k == group then groups[k][guid := address] else groups[k] - {guid}
  {
    assert map[guid := address].Keys == {guid};
    forall k | k in groups
      ensures Adopt(groups, group, map[guid := address])[k]
           == if k == group then groups[k][guid := address] else groups[k] - {guid}
    {
      assert groups[k] + map[guid := address] == groups[k][guid := address];
    }
  }

  lemma AdoptStep(groups: Groups, group: string, entries: Entries, guid: string, address: string)
    requires group in groups
    ensures Adopt(Adopt(groups, group, entries), group, map[guid := address])
         == Adopt(groups, group, entries[guid := address])
  {
    var more := entries[guid := address];
    assert map[guid := address].Keys == {guid} && more.Keys == entries.Keys + {guid};
    forall k | k in groups
      ensures Adopt(Adopt(groups, group, entries), group, map[guid := address])[k] == Adopt(groups, group, more)[k]
    {
      assert groups[k] + entries + map[guid := address] == groups[k] + more;
      assert groups[k] - entries.Keys - {guid} == groups[k] - more.Keys;
    }
  }

  lemma AdoptKeepsUnique(groups: Groups, group: string, entries: Entries)
    requires group in groups && UniqueGuids(groups)
    ensures UniqueGuids(Adopt(groups, group, entries))
  {
  }

  /** A group keeps only entries with the given guids. */
  ghost function Retain(groups: Groups, group: string, guids: set<string>): Groups
    requires group in groups
  {
    groups[group := map g | g in groups[group] && g in guids :: groups[group][g]]
  }

  lemma RetainAll(groups: Groups, group: string, guids: set<string>)
    requires group in groups && groups[group].Keys <= guids
    ensures Retain(groups, group, guids) == groups
  {
    assert (map g | g in groups[group] && g in guids :: groups[group][g]) == groups[group];
  }

  lemma RetainFewer(groups: Groups, group: string, guids: set<string>, guid: string)
    requires group in groups && guid in groups[group] && UniqueGuids(groups)
    ensures Retain(groups, group, guids - {guid})
         == map k | k in Retain(groups, group, guids) :: Retain(groups, group, guids)[k] - {guid}
  {
    forall k | k in groups
      ensures Retain(groups, group, guids - {guid})[k] == Retain(groups, group, guids)[k] - {guid}
    {
      if k != group {
        assert guid !in groups[k];
        assert groups[k] - {guid} == groups[k];
      }
    }
  }

  /** Adopting a folder's entries and dropping all others is installing them. */
  lemma RetainAdopted(groups: Groups, group: string, entries: Entries)
    requires group in groups
    ensures Retain(Adopt(groups, group, entries), group, entries.Keys) == Install(groups, group, entries)
  {
    var held := groups[group] + entries;
    assert (map g | g in held && g in entries.Keys :: held[g]) == entries;
  }
}
