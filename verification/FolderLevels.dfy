/** Splitting a path at its slashes, and what the pieces are on the path itself. */
module FolderLevels {
  import opened Text
  import opened AssetPaths

  /** A path's segments. */
  function Split(s: string): (segments: seq<string>)
    ensures segments != []
    decreases |s|
  {
    var k := FirstSlash(s, 0);
    if k == |s| then [s] else [s[..k]] + Split(s[k + 1..])
  }

  function Join(segments: seq<string>): string
    requires segments != []
  {
    if |segments| == 1 then segments[0]
    else Join(segments[..|segments| - 1]) + "/" + segments[|segments| - 1]
  }

  lemma {:induction false} JoinFront(a: string, rest: seq<string>)
    requires rest != []
    ensures Join([a] + rest) == a + "/" + Join(rest)
    decreases |rest|
  {
    var all := [a] + rest;
    if |rest| > 1 {
      var most := rest[..|rest| - 1];
      JoinFront(a, most);
      assert all[..|all| - 1] == [a] + most;
      assert Join(all) == (a + "/" + Join(most)) + "/" + rest[|rest| - 1];
      assert Join(rest) == Join(most) + "/" + rest[|rest| - 1];
    } else {
      assert all[..1] == [a];
    }
  }

  /** Splitting a path and joining its segments gives the path back. */
  lemma {:induction false} JoinSplit(s: string)
    ensures Join(Split(s)) == s
    decreases |s|
  {
    var k := FirstSlash(s, 0);
    if k < |s| {
      JoinSplit(s[k + 1..]);
      JoinFront(s[..k], Split(s[k + 1..]));
      assert s == s[..k] + "/" + s[k + 1..];
    }
  }

  /** No segment has a slash in it. */
  lemma {:induction false} SegmentsArePlain(s: string, i: nat)
    requires i < |Split(s)|
    ensures forall j | 0 <= j < |Split(s)[i]| :: Split(s)[i][j] != '/'
    decreases |s|
  {
    var k := FirstSlash(s, 0);
    if k < |s| && i > 0 {
      SegmentsArePlain(s[k + 1..], i - 1);
    }
  }

  /** The path made of the first i + 1 segments. */
  function Prefix(segments: seq<string>, i: nat): string
    requires i < |segments|
  {
    Join(segments[..i + 1])
  }

  /** The prefixes of a path below its first segment, up to n. */
  function Prefixes(segments: seq<string>, n: nat): set<string>
    requires n < |segments|
  {
    set i | 1 <= i <= n :: Prefix(segments, i)
  }

  /** A prefix is the one before it with one more segment. */
  lemma NextPrefix(segments: seq<string>, i: nat)
    requires 1 <= i < |segments|
    ensures Prefix(segments, i) == FolderPath(Join(segments[..i]), segments[i])
    ensures Prefixes(segments, i) == Prefixes(segments, i - 1) + {Prefix(segments, i)}
  {
    var most := segments[..i + 1];
    assert most[..i] == segments[..i] && most[i] == segments[i];
  }

  /******* Levels *******/

  /** A path can be cut at k: at its end, or before a slash. */
  predicate CutAt(path: string, k: nat) { k <= |path| && (k == |path| || path[k] == '/') }

  /** A folder on the way to a path, or the path itself: a cut after an earlier slash. */
  ghost predicate IsLevel(path: string, folder: string) {
    exists k: nat :: CutAt(path, k) && HasSlashBefore(path, k) && folder == path[..k]
  }

  predicate HasSlashBefore(path: string, k: nat)
    requires k <= |path|
  {
    exists j | 0 <= j < k :: path[j] == '/'
  }

  lemma SlashBefore(path: string, k: nat)
    requires k <= |path|
    ensures HasSlashBefore(path, k) <==> FirstSlash(path, 0) < k
  {
  }

  lemma JoinTail(s: string, i: nat)
    requires FirstSlash(s, 0) < |s| && 0 < i < |Split(s)|
    ensures var k := FirstSlash(s, 0);
            i - 1 < |Split(s[k + 1..])| && Prefix(Split(s), i) == s[..k] + "/" + Prefix(Split(s[k + 1..]), i - 1)
  {
    var k := FirstSlash(s, 0);
    var rest := Split(s[k + 1..]);
    assert Split(s)[..i + 1] == [s[..k]] + rest[..i];
    JoinFront(s[..k], rest[..i]);
  }

  lemma FirstPrefix(s: string)
    ensures Prefix(Split(s), 0) == s[..FirstSlash(s, 0)]
  {
    assert Split(s)[..1] == [Split(s)[0]];
    assert s[..|s|] == s;
  }

  lemma CutTail(s: string, k: nat, d: nat)
    requires k < |s| && s[k] == '/' && k + 1 + d <= |s|
    ensures s[..k + 1 + d] == s[..k] + "/" + s[k + 1..][..d]
    ensures k + 1 + d < |s| ==> s[k + 1..][d] == s[k + 1 + d]
  {
  }

  lemma TailPrefix(s: string, i: nat, d: nat)
    requires FirstSlash(s, 0) < |s| && 0 < i < |Split(s)| && d < |s| - FirstSlash(s, 0)
    requires var tail := s[FirstSlash(s, 0) + 1..];
             i - 1 < |Split(tail)| && Prefix(Split(tail), i - 1) == tail[..d]
    ensures Prefix(Split(s), i) == s[..FirstSlash(s, 0) + 1 + d]
  {
    JoinTail(s, i);
    CutTail(s, FirstSlash(s, 0), d);
  }

  lemma CutsShift(s: string, k: nat, d: nat)
    requires k < |s| && s[k] == '/' && k + 1 + d <= |s|
    ensures CutAt(s[k + 1..], d) <==> CutAt(s, k + 1 + d)
  {
  }

  /** Every prefix is a cut. */
  lemma {:induction false} PrefixIsCut(s: string, i: nat) returns (c: nat)
    requires i < |Split(s)|
    ensures CutAt(s, c) && Prefix(Split(s), i) == s[..c]
    ensures i > 0 ==> FirstSlash(s, 0) < c
    decreases |s|
  {
    var k := FirstSlash(s, 0);
    if i == 0 {
      c := k;
      FirstPrefix(s);
    } else {
      var d := PrefixIsCut(s[k + 1..], i - 1);
      c := k + 1 + d;
      CutsShift(s, k, d);
      TailPrefix(s, i, d);
    }
  }

  /** Every cut is a prefix. */
  lemma {:induction false} CutIsPrefix(s: string, c: nat) returns (i: nat)
    requires CutAt(s, c) && FirstSlash(s, 0) <= c
    ensures i < |Split(s)| && Prefix(Split(s), i) == s[..c]
    ensures FirstSlash(s, 0) < c ==> i > 0
    decreases |s|
  {
    var k := FirstSlash(s, 0);
    if c == k {
      i := 0;
      FirstPrefix(s);
    } else {
      var d := c - k - 1;
      CutsShift(s, k, d);
      assert FirstSlash(s[k + 1..], 0) <= d;
      var j := CutIsPrefix(s[k + 1..], d);
      i := j + 1;
      TailPrefix(s, i, d);
    }
  }

  /** The prefixes of a path are its levels. */
  lemma PrefixesAreLevels(s: string, folder: string)
    ensures folder in Prefixes(Split(s), |Split(s)| - 1) <==> IsLevel(s, folder)
  {
    if folder in Prefixes(Split(s), |Split(s)| - 1) {
      var i :| 1 <= i <= |Split(s)| - 1 && folder == Prefix(Split(s), i);
      var c := PrefixIsCut(s, i);
      SlashBefore(s, c);
    }
    if IsLevel(s, folder) {
      var k: nat :| CutAt(s, k) && HasSlashBefore(s, k) && folder == s[..k];
      SlashBefore(s, k);
      var i := CutIsPrefix(s, k);
    }
  }
}
