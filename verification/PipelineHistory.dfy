/** What became of an atlas since it was last changed by hand or lost sight of, told from the events since. */
module PipelineHistory {
  import opened Options
  import opened Text
  import opened AssetPaths
  import opened Pipeline
  import opened PipelineTheorems
  import G = GroupSpec
  import A = AtlasSpec
  import AB = AtlasBuilder

  /** An event that makes the atlas of source folder n loose: it is changed by hand, or collected paths are lost. */
  ghost predicate Loosens(s: Editor, e: Event, n: string) {
    e.Lose? || (e.Edit? && AtlasPath(n) in ChangedAtlases(s.atlases, e.atlases))
  }

  /**
   An event that brings the atlas of source folder n in order: a full atlas rebuild, or an atlas sync that concerns the
   folder, or concerns any when the folder is gone.
   */
  ghost predicate Repairs(s: Editor, e: Event, n: string) {
    e.RebuildAtlases? || (e.SyncAtlases? && s.progress.AtlasesNext? && SyncRepairs(s, s.progress.paths, n))
  }

  ghost predicate SyncRepairs(s: Editor, paths: set<string>, n: string) {
    var names := ChangedNames(SOURCE_ROOT, paths);
    n in names || (names != {} && n !in s.source)
  }

  /** Both states have the same at path p. */
  predicate SameAtlas(a: A.Atlases, b: A.Atlases, p: string) {
    (p in a <==> p in b) && (p in a && p in b ==> a[p] == b[p])
  }

  /** One event: what is loose stays so until repaired, and stays what it is. */
  lemma LooseStep(s: Editor, e: Event, n: string)
    requires Enabled(s, e) && !Loosens(s, e, n)
    ensures var t, p := Apply(s, e), AtlasPath(n);
            && (p in t.loose.atlases <==> p in s.loose.atlases && !Repairs(s, e, n))
            && (p in t.loose.atlases ==> SameAtlas(s.atlases, t.atlases, p))
  {
    match e {
      case SyncAtlases(files, reports) => LooseSync(s, s.progress.paths, n);
      case _ =>
    }
  }

  lemma LooseSync(s: Editor, paths: set<string>, n: string)
    ensures var p := AtlasPath(n);
            && (p in AtlasesLeft(s, paths) <==> p in s.loose.atlases && !SyncRepairs(s, paths, n))
            && (p in AtlasesLeft(s, paths) ==> SameAtlas(s.atlases, AB.AfterChanges(s.atlases, s.source, paths), p))
  {
    var names := ChangedNames(SOURCE_ROOT, paths);
    A.IsAtlasOfName(n, s.source - names);
    A.SyncedAt(s.atlases, s.source, names, n);
  }

  /** Between points i and j of a run nothing makes the atlas of source folder n loose. */
  ghost predicate Undisturbed(states: seq<Editor>, events: seq<Event>, i: nat, j: nat, n: string)
    requires |states| == |events| + 1 && j <= |events|
  {
    forall k | i <= k < j :: !Loosens(states[k], events[k], n)
  }

  /** Some event between points i and j repairs the atlas of source folder n. */
  ghost predicate Repaired(states: seq<Editor>, events: seq<Event>, i: nat, j: nat, n: string)
    requires |states| == |events| + 1 && j <= |events|
  {
    exists k :: i <= k < j && Repairs(states[k], events[k], n)
  }

  /** Event k leaves what is loose as it is, or repairs it. */
  ghost predicate KeepsOrRepairs(states: seq<Editor>, events: seq<Event>, k: nat, n: string)
    requires |states| == |events| + 1
  {
    k < |events| ==>
      var a, b, p := states[k], states[k + 1], AtlasPath(n);
      && (p in b.loose.atlases <==> p in a.loose.atlases && !Repairs(a, events[k], n))
      && (p in b.loose.atlases ==> SameAtlas(a.atlases, b.atlases, p))
  }

  lemma RunStep(states: seq<Editor>, events: seq<Event>, k: nat, n: string)
    requires IsRun(states, events) && k < |events| && !Loosens(states[k], events[k], n)
    ensures KeepsOrRepairs(states, events, k, n)
  {
    assert Enabled(states[k], events[k]) && states[k + 1] == Apply(states[k], events[k]);
    LooseStep(states[k], events[k], n);
  }

  lemma {:induction false} LooseRun(states: seq<Editor>, events: seq<Event>, i: nat, j: nat, n: string)
    requires |states| == |events| + 1 && i <= j <= |events|
    requires forall k | i <= k < j :: KeepsOrRepairs(states, events, k, n)
    ensures AtlasPath(n) in states[j].loose.atlases <==>
              AtlasPath(n) in states[i].loose.atlases && !Repaired(states, events, i, j, n)
    ensures AtlasPath(n) in states[j].loose.atlases ==> SameAtlas(states[i].atlases, states[j].atlases, AtlasPath(n))
    decreases j
  {
    if i < j {
      LooseRun(states, events, i, j - 1, n);
      assert KeepsOrRepairs(states, events, j - 1, n);
      RepairedSnoc(states, events, i, j, n);
    }
  }

  lemma RepairedSnoc(states: seq<Editor>, events: seq<Event>, i: nat, j: nat, n: string)
    requires |states| == |events| + 1 && i < j <= |events|
    ensures Repaired(states, events, i, j, n) <==>
              Repaired(states, events, i, j - 1, n) || Repairs(states[j - 1], events[j - 1], n)
  {
    if Repaired(states, events, i, j, n) {
      var k :| i <= k < j && Repairs(states[k], events[k], n);
      assert k < j - 1 || k == j - 1;
    }
  }

  /**
   Exactly when an atlas is right at rest, told from its history: let point i be any after it was last changed by hand
   or lost sight of.  It is right when it was not loose then, when an event since repaired it, or when what was there
   at point i is what the source folder, as it is now, calls for.
   */
  lemma AtlasAtRestExactlyWhen(states: seq<Editor>, events: seq<Event>, i: nat, n: string)
    requires IsRun(states, events) && Inv(states[0]) && Quiescent(states[|events|])
    requires i <= |events| && Undisturbed(states, events, i, |events|, n)
    ensures var last := states[|events|];
            A.InSync(last.atlases, last.source, n) <==>
              || AtlasPath(n) !in states[i].loose.atlases
              || Repaired(states, events, i, |events|, n)
              || A.InSync(states[i].atlases, last.source, n)
  {
    var last := states[|events|];
    RunKeepsInv(states, events);
    forall k | i <= k < |events| ensures KeepsOrRepairs(states, events, k, n) {
      RunStep(states, events, k, n);
    }
    LooseRun(states, events, i, |events|, n);
    assert AtlasWork(last) == {};
    if AtlasPath(n) !in last.loose.atlases {
      assert AtlasIsClean(last, n);
    }
  }
}
