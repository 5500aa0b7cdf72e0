/** What the group sync guarantees, for all groups, files and sets of changed folders. */
module GroupTheorems {
  import opened Options
  import opened Text
  import opened AssetPaths
  import opened GroupSpec

  /** The outcome for a group named after a folder, and for any other group. */
  lemma SyncSomeAt(groups: Groups, files: Listing, folders: set<string>, k: string)
    ensures var after := SyncSome(groups, files, folders);
            && (NamedFor(k, folders) ==>
                  && (k in after <==> FolderOf(k) in files)
                  && (k in after ==> after[k] == EntriesOf(FolderOf(k), files[FolderOf(k)])))
            && (!NamedFor(k, folders) ==>
                  && (k in after <==> k in groups)
                  && (k in after ==> after[k] == Unclaimed(groups[k], files, folders)))
  {
    NamedForIs(k, folders);
    NamedForIs(k, folders - files.Keys);
    if NamedFor(k, folders) && FolderOf(k) in files {
      assert k in (set n | n in folders && n in files :: GroupName(n));
    }
  }

  lemma SyncOneAt(groups: Groups, files: Listing, n: string, k: string)
    ensures var after := SyncOne(groups, files, n);
            && (k == GroupName(n) ==>
                  && (k in after <==> n in files)
                  && (k in after ==> after[k] == EntriesOf(n, files[n])))
            && (k != GroupName(n) ==>
                  && (k in after <==> k in groups)
                  && (k in after ==>
                        after[k] == if n in files then groups[k] - EntriesOf(n, files[n]).Keys else groups[k]))
  {
  }

  lemma SyncedAt(groups: Groups, files: Listing, folders: set<string>, k: string)
    ensures var after := Synced(groups, files, folders);
            && (NamedFor(k, folders) ==>
                  && (k in after <==> FolderOf(k) in files)
                  && (k in after ==> after[k] == EntriesOf(FolderOf(k), files[FolderOf(k)])))
            && (!NamedFor(k, folders) ==>
                  && (k in after <==> k in groups && (IsManagedGroup(k) ==> NamedFor(k, files.Keys)))
                  && (k in after ==> after[k] == Unclaimed(groups[k], files, folders)))
  {
    SyncSomeAt(groups, files, folders, k);
    NamedForIs(k, folders);
    NamedForIs(k, files.Keys);
  }

  /** Syncing folders one after another is syncing them all, in whatever order. */
  lemma SyncSomeStep(groups: Groups, files: Listing, folders: set<string>, n: string)
    requires WellFormed(files)
    ensures SyncOne(SyncSome(groups, files, folders), files, n) == SyncSome(groups, files, folders + {n})
  {
    var some, one, all := SyncSome(groups, files, folders), SyncOne(SyncSome(groups, files, folders), files, n),
                          SyncSome(groups, files, folders + {n});
    forall k
      ensures k in one <==> k in all
      ensures k in one ==> one[k] == all[k]
    {
      SyncSomeAt(groups, files, folders, k);
      SyncSomeAt(groups, files, folders + {n}, k);
      SyncOneAt(some, files, n, k);
      NamedForIs(k, folders);
      NamedForIs(k, folders + {n});
      GroupNameProps(n);
      if k in one && k != GroupName(n) {
        if NamedFor(k, folders) {
          OthersLoseNothing(files, FolderOf(k), n);
        } else {
          ClaimStep(groups[k], files, folders, n);
        }
      }
    }
  }

  /** Installing one folder takes nothing from another folder's entries. */
  lemma OthersLoseNothing(files: Listing, m: string, n: string)
    requires WellFormed(files) && m in files && m != n
    ensures n in files ==> EntriesOf(m, files[m]) - EntriesOf(n, files[n]).Keys == EntriesOf(m, files[m])
  {
    if n in files {
      forall g | g in EntriesOf(m, files[m]) ensures g !in EntriesOf(n, files[n]) {
        if g in EntriesOf(n, files[n]) {
          ClaimsAreApart(files, m, n, g);
        }
      }
    }
  }

  lemma ClaimStep(entries: Entries, files: Listing, folders: set<string>, n: string)
    ensures (if n in files then Unclaimed(entries, files, folders) - EntriesOf(n, files[n]).Keys
             else Unclaimed(entries, files, folders))
         == Unclaimed(entries, files, folders + {n})
  {
    forall g
      ensures Claimed(g, files, folders + {n}) <==>
                Claimed(g, files, folders) || (n in files && g in EntriesOf(n, files[n]))
    {
      if Claimed(g, files, folders) {
        var m :| m in folders && m in files && g in EntriesOf(m, files[m]);
        assert m in folders + {n};
      }
    }
  }

  lemma SyncNothing(groups: Groups, files: Listing)
    ensures SyncSome(groups, files, {}) == groups
  {
    forall k
      ensures k in SyncSome(groups, files, {}) <==> k in groups
      ensures k in groups ==> SyncSome(groups, files, {})[k] == groups[k]
    {
      SyncSomeAt(groups, files, {}, k);
      if k in groups {
        assert Unclaimed(groups[k], files, {}) == groups[k];
      }
    }
  }

  /******* Theorems *******/

  /** The managed groups after a full rebuild depend on the files alone, not on the groups before it. */
  lemma RebuildDependsOnFilesAlone(groups: Groups, files: Listing, k: string)
    requires IsManagedGroup(k)
    ensures k in Rebuilt(groups, files) <==> NamedFor(k, files.Keys)
    ensures k in Rebuilt(groups, files) ==> Rebuilt(groups, files)[k] == EntriesOf(FolderOf(k), files[FolderOf(k)])
  {
    SyncedAt(groups, files, files.Keys, k);
  }

  /** An unmanaged group survives every sync, and loses exactly the guids that synced folders lay claim to. */
  lemma UnmanagedOnlyLosesClaims(groups: Groups, files: Listing, folders: set<string>, k: string)
    requires !IsManagedGroup(k)
    ensures k in Synced(groups, files, folders) <==> k in groups
    ensures k in groups ==> Synced(groups, files, folders)[k] == Unclaimed(groups[k], files, folders)
  {
    SyncedAt(groups, files, folders, k);
    NamedForIs(k, folders);
  }

  /** Synced folders come out in sync, whether they exist or not, in any order and from any groups. */
  lemma SyncedFoldersAreInSync(groups: Groups, files: Listing, folders: set<string>, n: string)
    requires n in folders
    ensures InSync(Synced(groups, files, folders), files, n)
  {
    GroupNameProps(n);
    SyncedAt(groups, files, folders, GroupName(n));
  }

  /** Moving entries never damages a clean group: a folder in sync stays in sync while others are synced. */
  lemma CleanFoldersStayInSync(groups: Groups, files: Listing, folders: set<string>, n: string)
    requires WellFormed(files) && InSync(groups, files, n)
    ensures InSync(Synced(groups, files, folders), files, n)
  {
    if n in folders {
      SyncedFoldersAreInSync(groups, files, folders, n);
    } else {
      var k := GroupName(n);
      GroupNameProps(n);
      NamedForIs(k, folders);
      NamedForIs(k, files.Keys);
      SyncedAt(groups, files, folders, k);
      if n in files {
        OwnClaimsOnly(files, folders, n);
      }
    }
  }

  /**
   Exactly the folders synced, gone, or in sync before but for guids that synced folders claim, are in sync after a
   sync of some folders.
   */
  lemma InSyncAfterExactlyWhen(groups: Groups, files: Listing, folders: set<string>, n: string)
    ensures InSync(Synced(groups, files, folders), files, n) <==>
              || n in folders || n !in files
              || (GroupName(n) in groups && Unclaimed(groups[GroupName(n)], files, folders) == EntriesOf(n, files[n]))
  {
    GroupNameProps(n);
    SyncedAt(groups, files, folders, GroupName(n));
    NamedForIs(GroupName(n), folders);
    NamedForIs(GroupName(n), files.Keys);
  }

  lemma OwnClaimsOnly(files: Listing, folders: set<string>, n: string)
    requires WellFormed(files) && n in files && n !in folders
    ensures Unclaimed(EntriesOf(n, files[n]), files, folders) == EntriesOf(n, files[n])
  {
    forall g | g in EntriesOf(n, files[n]) ensures !Claimed(g, files, folders) {
      if Claimed(g, files, folders) {
        var m :| m in folders && m in files && g in EntriesOf(m, files[m]);
        ClaimsAreApart(files, m, n, g);
      }
    }
  }

  lemma SyncSomeKeepsUnique(groups: Groups, files: Listing, folders: set<string>)
    requires WellFormed(files) && UniqueGuids(groups)
    ensures UniqueGuids(SyncSome(groups, files, folders))
  {
    var after := SyncSome(groups, files, folders);
    forall j, k, g | j in after && k in after && g in after[j] && g in after[k] ensures j == k {
      SyncSomeAt(groups, files, folders, j);
      SyncSomeAt(groups, files, folders, k);
      NamedForIs(j, folders);
      NamedForIs(k, folders);
      if NamedFor(j, folders) && NamedFor(k, folders) {
        ClaimsAreApart(files, FolderOf(j), FolderOf(k), g);
      } else if NamedFor(j, folders) || NamedFor(k, folders) {
        assert Claimed(g, files, folders);
      }
    }
  }

  /** Every sync keeps a guid in at most one group. */
  lemma SyncKeepsGuidsUnique(groups: Groups, files: Listing, folders: set<string>)
    requires WellFormed(files) && UniqueGuids(groups)
    ensures UniqueGuids(Synced(groups, files, folders))
  {
    SyncSomeKeepsUnique(groups, files, folders);
  }

  /**
   Incremental sync refines the full rebuild: when every folder outside the changed ones is in sync, syncing
   the changed ones gives exactly what rebuilding everything would, in managed and unmanaged groups alike.
   */
  lemma IncrementalEqualsRebuild(groups: Groups, files: Listing, folders: set<string>)
    requires WellFormed(files) && UniqueGuids(groups)
    requires forall n | n !in folders :: InSync(groups, files, n)
    ensures Synced(groups, files, folders) == Rebuilt(groups, files)
  {
    var some, all := Synced(groups, files, folders), Rebuilt(groups, files);
    forall k
      ensures k in some <==> k in all
      ensures k in some ==> some[k] == all[k]
    {
      SyncedAt(groups, files, folders, k);
      SyncedAt(groups, files, files.Keys, k);
      NamedForIs(k, folders);
      NamedForIs(k, files.Keys);
      if !NamedFor(k, folders) && NamedFor(k, files.Keys) {
        assert InSync(groups, files, FolderOf(k));
        OwnClaimsOnly(files, folders, FolderOf(k));
      }
      if !NamedFor(k, folders) && !NamedFor(k, files.Keys) && k in groups {
        SameClaims(groups, files, folders, k);
      }
    }
  }

  /** What clean folders claim is in their own groups already. */
  lemma SameClaims(groups: Groups, files: Listing, folders: set<string>, k: string)
    requires UniqueGuids(groups) && k in groups && !NamedFor(k, files.Keys)
    requires forall n | n !in folders :: InSync(groups, files, n)
    ensures Unclaimed(groups[k], files, folders) == Unclaimed(groups[k], files, files.Keys)
  {
    forall g | g in groups[k] ensures Claimed(g, files, folders) <==> Claimed(g, files, files.Keys) {
      if Claimed(g, files, files.Keys) {
        var n :| n in files.Keys && n in files && g in EntriesOf(n, files[n]);
        NamedForIs(k, files.Keys);
        GroupNameProps(n);
        assert n in folders;
      }
      if Claimed(g, files, folders) {
        var n :| n in folders && n in files && g in EntriesOf(n, files[n]);
        assert n in files.Keys;
      }
    }
  }

  /** No managed group lacks a folder, up to letter case. */
  ghost predicate NoStrays(groups: Groups, files: Listing) {
    forall k | k in groups && IsManagedGroup(k) :: NamedFor(k, files.Keys)
  }

  /** Groups are as a rebuild would leave them exactly when all folders are in sync and there are no strays. */
  lemma RebuildIsFixedPoint(groups: Groups, files: Listing)
    requires WellFormed(files) && UniqueGuids(groups)
    ensures Rebuilt(groups, files) == groups <==> (forall n :: InSync(groups, files, n)) && NoStrays(groups, files)
  {
    if (forall n :: InSync(groups, files, n)) && NoStrays(groups, files) {
      IncrementalEqualsRebuild(groups, files, {});
      SyncNothing(groups, files);
      assert DropUnused(groups, files) == groups;
    }
    if Rebuilt(groups, files) == groups {
      forall n ensures InSync(groups, files, n) {
        if n in files {
          SyncedFoldersAreInSync(groups, files, files.Keys, n);
        } else {
          GroupNameProps(n);
          RebuildDependsOnFilesAlone(groups, files, GroupName(n));
        }
      }
      forall k | k in groups && IsManagedGroup(k) ensures NamedFor(k, files.Keys) {
        RebuildDependsOnFilesAlone(groups, files, k);
      }
    }
  }

  /** Rebuilding twice is rebuilding once. */
  lemma RebuildIsIdempotent(groups: Groups, files: Listing)
    requires WellFormed(files)
    ensures Rebuilt(Rebuilt(groups, files), files) == Rebuilt(groups, files)
  {
    var once, twice := Rebuilt(groups, files), Rebuilt(Rebuilt(groups, files), files);
    forall k
      ensures k in once <==> k in twice
      ensures k in once ==> once[k] == twice[k]
    {
      if IsManagedGroup(k) {
        RebuildDependsOnFilesAlone(groups, files, k);
        RebuildDependsOnFilesAlone(once, files, k);
      } else {
        UnmanagedTwice(groups, files, k);
      }
    }
  }

  lemma UnmanagedTwice(groups: Groups, files: Listing, k: string)
    requires !IsManagedGroup(k)
    ensures var once, twice := Rebuilt(groups, files), Rebuilt(Rebuilt(groups, files), files);
            (k in once <==> k in twice) && (k in once ==> once[k] == twice[k])
  {
    UnmanagedOnlyLosesClaims(groups, files, files.Keys, k);
    UnmanagedOnlyLosesClaims(Rebuilt(groups, files), files, files.Keys, k);
  }

  /******* Addresses *******/

  /** What an address keeps of a path. */
  function Stem(path: string): string { WithoutExtension(FileName(path)) }

  /** Two addresses are equal exactly when folder and stem are: neither subfolders nor extensions make a difference. */
  lemma AddressesAgreeExactlyWhen(m: string, p: string, n: string, q: string)
    requires ProperName(m) && ProperName(n)
    ensures BuildAddress(m, p) == BuildAddress(n, q) <==> m == n && Stem(p) == Stem(q)
  {
    if BuildAddress(m, p) == BuildAddress(n, q) {
      SlashDecides(m, Stem(p) + "_remote", n, Stem(q) + "_remote");
      AssociativeParts(m, Stem(p), "_remote");
      AssociativeParts(n, Stem(q), "_remote");
      SuffixDecides(Stem(p), Stem(q), "_remote");
    }
  }

  lemma AssociativeParts(folder: string, stem: string, suffix: string)
    ensures folder + "/" + stem + suffix == folder + "/" + (stem + suffix)
  {
  }

  lemma SlashDecides(m: string, a: string, n: string, b: string)
    requires forall i | 0 <= i < |m| :: m[i] != '/'
    requires forall i | 0 <= i < |n| :: n[i] != '/'
    ensures m + "/" + a == n + "/" + b ==> m == n && a == b
  {
    var s, t := m + "/" + a, n + "/" + b;
    assert s[|m|] == '/' && forall i | 0 <= i < |m| :: s[i] == m[i];
    assert t[|n|] == '/' && forall i | 0 <= i < |n| :: t[i] == n[i];
    assert FirstSlash(s, 0) == |m| && FirstSlash(t, 0) == |n|;
    if s == t {
      assert s[..|m|] == m && t[..|n|] == n;
      assert s[|m| + 1..] == a && t[|n| + 1..] == b;
    }
  }

  lemma SuffixDecides(a: string, b: string, suffix: string)
    ensures a + suffix == b + suffix ==> a == b
  {
    assert (a + suffix)[..|a|] == a && (b + suffix)[..|b|] == b;
  }

  ghost predicate DistinctAddresses(entries: Entries) {
    forall g, h | g in entries && h in entries && g != h :: entries[g] != entries[h]
  }

  ghost predicate DistinctStems(assets: seq<Asset>) {
    forall i, j | 0 <= i < |assets| && 0 <= j < |assets| && Listed(assets[i]) && Listed(assets[j])
      && assets[i].guid != assets[j].guid :: Stem(assets[i].path) != Stem(assets[j].path)
  }

  /** A folder's addresses are distinct exactly when the stems of its listed assets are. */
  lemma AddressesAreDistinctExactlyWhen(files: Listing, n: string)
    requires WellFormed(files) && n in files
    ensures DistinctAddresses(EntriesOf(n, files[n])) <==> DistinctStems(files[n])
  {
    var assets, entries := files[n], EntriesOf(n, files[n]);
    if DistinctAddresses(entries) {
      forall i, j | 0 <= i < |assets| && 0 <= j < |assets| && Listed(assets[i]) && Listed(assets[j])
          && assets[i].guid != assets[j].guid
        ensures Stem(assets[i].path) != Stem(assets[j].path)
      {
        EntriesAreTheAssets(files, n, assets[i].guid);
        EntriesAreTheAssets(files, n, assets[j].guid);
        assert entries[assets[i].guid] != entries[assets[j].guid];
      }
    }
    if DistinctStems(assets) {
      forall g, h | g in entries && h in entries && g != h ensures entries[g] != entries[h] {
        var i := EntryHasAsset(n, assets, g);
        var j := EntryHasAsset(n, assets, h);
        AddressesAgreeExactlyWhen(n, assets[i].path, n, assets[j].path);
      }
    }
  }

  /** Addresses, unlike guids, can clash: for want of the extension, and for want of the subfolder. */
  lemma AddressesCanClash(root: string, sub: string)
    requires ProperName(sub)
    ensures BuildAddress("Bg", FolderPath(root, "main.png")) == BuildAddress("Bg", FolderPath(root, "main.mat"))
    ensures BuildAddress("Bg", FolderPath(root, "main.png"))
         == BuildAddress("Bg", FolderPath(FolderPath(root, sub), "main.png"))
  {
    FileNameOfChild(root, "main.png");
    FileNameOfChild(root, "main.mat");
    FileNameOfChild(FolderPath(root, sub), "main.png");
    assert "main.png"[4] == '.' && LastDot("main.png", 8) == 4;
    assert "main.mat"[4] == '.' && LastDot("main.mat", 8) == 4;
    assert "main.png"[..4] == "main.mat"[..4];
  }
}
