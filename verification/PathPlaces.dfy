/** Where in a path the folder name is that a sync attributes the path to. */
module PathPlaces {
  import opened Options
  import opened Text
  import opened Spelling
  import opened AssetPaths

  /** From position i of a path, after slashes only, the first segment behind its first `from` characters is n. */
  predicate SegmentAt(path: string, from: nat, n: string, i: nat) {
    && from <= i && i + |n| <= |path| && path[i..i + |n|] == n
    && (forall k | from <= k < i :: path[k] == '/')
    && (forall k | 0 <= k < |n| :: n[k] != '/')
    && (i + |n| < |path| ==> path[i + |n|] == '/')
  }

  /** A path is attributed only to what its text, with slashes turned forward, has as first segment behind the root. */
  lemma AttributedOnlyTo(root: string, path: string, n: string) returns (i: nat)
    requires ManagedName(root, path) == Some(n)
    ensures StartsInAnyCase(Normalize(path), root) && SegmentAt(Normalize(path), |root|, n, i)
  {
    BehindRoot(root, path, n);
    i := FirstSegment(Normalize(path), |root|, n);
  }

  lemma FirstSegment(s: string, from: nat, n: string) returns (i: nat)
    requires from <= |s| && var relative := Trim(s[from..], IsSlash); n == relative[..FirstSlash(relative, 0)]
    ensures SegmentAt(s, from, n, i)
  {
    var a, b := TrimSplits(s[from..], IsSlash);
    i := from + a;
    SegmentIn(s, from, s[from..], a, b, n);
  }

  lemma BehindRoot(root: string, path: string, n: string)
    requires ManagedName(root, path) == Some(n)
    ensures StartsInAnyCase(Normalize(path), root)
    ensures var relative := Trim(Normalize(path)[|root|..], IsSlash); n == relative[..FirstSlash(relative, 0)]
  {
    StartsSpelled(Normalize(path), root);
  }

  lemma SegmentIn(s: string, from: nat, rest: string, a: nat, b: nat, n: string)
    requires from <= |s| && rest == s[from..] && a <= b <= |rest|
    requires forall k | 0 <= k < a || b <= k < |rest| :: rest[k] == '/'
    requires n == rest[a..b][..FirstSlash(rest[a..b], 0)]
    ensures SegmentAt(s, from, n, from + a)
  {
    var relative := rest[a..b];
    assert forall k | 0 <= k < |rest| :: s[from + k] == rest[k];
    assert forall k | 0 <= k < |relative| :: relative[k] == rest[a + k];
    assert forall k | from <= k < from + a :: s[k] == rest[k - from];
  }

  predicate OnlySlashesFrom(s: string, from: nat) { forall k | from <= k < |s| :: s[k] == '/' }

  /**
   What a path is attributed to: the path, not only white space and with slashes turned forward, starts in any letter
   case with the root, and n is its first segment behind it; a segment of white space counts when more follows.
   */
  predicate AttributedAt(root: string, path: string, n: string, i: nat) {
    && !OnlyWhite(path) && StartsInAnyCase(Normalize(path), root)
    && n != "" && SegmentAt(Normalize(path), |root|, n, i)
    && (OnlyWhite(n) ==> !OnlySlashesFrom(Normalize(path), i + |n|))
  }

  ghost predicate AttributedTo(root: string, path: string, n: string) {
    exists i: nat :: AttributedAt(root, path, n, i)
  }

  lemma AttributedExactlyWhen(root: string, path: string, n: string)
    ensures ManagedName(root, path) == Some(n) <==> AttributedTo(root, path, n)
  {
    var s := Normalize(path);
    BlankSpelled(path);
    StartsSpelled(s, root);
    if ManagedName(root, path) == Some(n) {
      var i := FirstSegment(s, |root|, n);
      SegmentCounts(s, |root|, n, i);
      assert AttributedAt(root, path, n, i);
    }
    if i: nat :| AttributedAt(root, path, n, i) {
      CountedSegment(s, |root|, n, i);
    }
  }

  /** A first segment is not empty, and when it is white space more follows. */
  lemma SegmentCounts(s: string, from: nat, n: string, i: nat)
    requires from <= |s| && SegmentAt(s, from, n, i)
    requires var relative := Trim(s[from..], IsSlash);
             !IsBlank(relative) && n == relative[..FirstSlash(relative, 0)]
    ensures n != "" && (OnlyWhite(n) ==> !OnlySlashesFrom(s, i + |n|))
  {
    var rest, relative := s[from..], Trim(s[from..], IsSlash);
    var a, b := TrimSplits(rest, IsSlash);
    assert forall k | 0 <= k < |rest| :: s[from + k] == rest[k];
    assert relative[0] == rest[a];
    assert from + a == i by {
      assert s[i] == n[0] && s[from + a] == rest[a];
    }
    BlankSpelled(n);
    if OnlyWhite(n) {
      var k :| 0 <= k < |relative| && !IsSpace(relative[k]);
      assert k >= |n|;
      assert s[from + b - 1] == rest[b - 1];
    }
  }

  /** A segment that counts is what is left of the path between slashes, up to the next one. */
  lemma CountedSegment(s: string, from: nat, n: string, i: nat)
    requires from <= |s| && n != "" && SegmentAt(s, from, n, i) && (OnlyWhite(n) ==> !OnlySlashesFrom(s, i + |n|))
    ensures var relative := Trim(s[from..], IsSlash);
            !IsBlank(relative) && n == relative[..FirstSlash(relative, 0)]
  {
    var rest, relative := s[from..], Trim(s[from..], IsSlash);
    var a, b := TrimSplits(rest, IsSlash);
    SegmentBetween(s, from, rest, a, b, n, i);
    SliceOfRest(s, from, a, b);
    PrefixOfSlice(s, i, from + b, n);
    FirstSegmentIs(relative, n);
    NotAllWhite(relative, n);
  }

  lemma SliceOfRest(s: string, from: nat, a: nat, b: nat)
    requires a <= b && from + b <= |s|
    ensures s[from..][a..b] == s[from + a..from + b]
  {
  }

  lemma PrefixOfSlice(s: string, i: nat, j: nat, n: string)
    requires i + |n| <= j <= |s| && s[i..i + |n|] == n
    ensures n <= s[i..j] && (i + |n| < j ==> s[i..j][|n|] == s[i + |n|])
  {
    assert s[i..j][..|n|] == s[i..i + |n|];
  }

  lemma FirstSegmentIs(relative: string, n: string)
    requires n <= relative && (forall k | 0 <= k < |n| :: n[k] != '/') && (n < relative ==> relative[|n|] == '/')
    ensures FirstSlash(relative, 0) == |n| && relative[..|n|] == n
  {
    assert forall k | 0 <= k < |n| :: relative[k] == n[k];
  }

  lemma NotAllWhite(relative: string, n: string)
    requires n <= relative && (OnlyWhite(n) ==> |n| < |relative| && relative[|n|] == '/')
    ensures !IsBlank(relative)
  {
    BlankSpelled(n);
    if OnlyWhite(n) {
      assert !IsSpace(relative[|n|]);
    } else {
      var k :| 0 <= k < |n| && !IsSpace(n[k]);
      assert relative[k] == n[k];
    }
  }

  lemma SegmentBetween(s: string, from: nat, rest: string, a: nat, b: nat, n: string, i: nat)
    requires from <= |s| && rest == s[from..] && a <= b <= |rest|
    requires forall k | 0 <= k < a || b <= k < |rest| :: rest[k] == '/'
    requires a < b ==> rest[a] != '/' && rest[b - 1] != '/'
    requires n != "" && SegmentAt(s, from, n, i)
    ensures from + a == i && a + |n| <= b
    ensures !OnlySlashesFrom(s, i + |n|) ==> a + |n| < b
  {
    assert forall k | 0 <= k < |rest| :: s[from + k] == rest[k];
    assert s[i] == n[0] && s[i + |n| - 1] == n[|n| - 1];
    assert rest[i - from] == n[0] && rest[i + |n| - 1 - from] == n[|n| - 1];
    if !OnlySlashesFrom(s, i + |n|) {
      var k :| i + |n| <= k < |s| && s[k] != '/';
      assert rest[k - from] == s[k];
    }
  }

  /** The folders a sync is concerned with are those its paths are attributed to. */
  lemma ChangedAreAttributed(root: string, paths: seq<string>, n: string)
    ensures n in ChangedNames(root, Elements(paths)) <==> exists p :: p in paths && AttributedTo(root, p, n)
  {
    forall p
      ensures p in Elements(paths) && ManagedName(root, p) == Some(n) <==> p in paths && AttributedTo(root, p, n)
    {
      AttributedExactlyWhen(root, p, n);
    }
    if n in ChangedNames(root, Elements(paths)) {
      var p :| p in Elements(paths) && ManagedName(root, p) == Some(n);
      assert p in paths && AttributedTo(root, p, n);
    }
    if p :| p in paths && AttributedTo(root, p, n) {
      assert p in Elements(paths) && ManagedName(root, p) == Some(n);
    }
  }

  /** No folder is concerned exactly when no path is attributed to any. */
  lemma NothingIsAttributed(root: string, paths: seq<string>)
    ensures ChangedNames(root, Elements(paths)) == {} <==> forall p, n | p in paths :: !AttributedTo(root, p, n)
  {
    var names := ChangedNames(root, Elements(paths));
    forall p, n | p in paths && AttributedTo(root, p, n) ensures n in names {
      ChangedAreAttributed(root, paths, n);
    }
    if n :| n in names {
      ChangedAreAttributed(root, paths, n);
    }
  }

  /** A path that is a child folder of a root, or lies in it, is attributed to that folder. */
  lemma UnderIsAttributed(root: string, n: string, path: string)
    requires !IsBlank(root) && HasNoBackslash(root) && ProperName(n) && Under(root, n, path)
    ensures AttributedTo(root, path, n)
  {
    UnderIsManaged(root, n, path);
    AttributedExactlyWhen(root, path, n);
  }
}
