/** The sync pipeline settles: left alone, it runs out of work after finitely many steps. */
module PipelineTermination {
  import opened Options
  import opened Text
  import opened AssetPaths
  import opened Pipeline
  import opened PipelineTheorems
  import G = GroupSpec
  import GT = GroupTheorems
  import A = AtlasSpec

  /******* The measure *******/

  /** Whether paths call for an atlas sync. */
  predicate CallsForAtlases(paths: set<string>) { ChangedNames(SOURCE_ROOT, paths) != {} }

  function AtlasCallbacks(queue: seq<Callback>): nat {
    if queue == [] then 0 else One(CallsForAtlases(WatchedPaths(queue[0]))) + AtlasCallbacks(queue[1..])
  }

  /** How many atlas syncs may still have something to do. */
  function AtlasSyncs(s: Editor): nat {
    AtlasCallbacks(s.queue) + One(CallsForAtlases(s.pending))
    + One(s.progress.AtlasesNext? && CallsForAtlases(s.progress.paths))
  }

  function GroupCallbacks(queue: seq<Callback>): nat {
    if queue == [] then 0 else One(WatchedPaths(queue[0]) != {}) + GroupCallbacks(queue[1..])
  }

  /** How many group syncs may still have something to do, three to one for a callback, two if it is scheduled. */
  function GroupSyncs(s: Editor): nat {
    3 * GroupCallbacks(s.queue) + 2 * One(s.scheduled) + One(s.progress != Idle)
  }

  /** Steps that are certain to come, as long as nothing is written. */
  function Tasks(s: Editor): nat {
    5 * |s.queue| + 3 * One(s.scheduled)
    + (match s.progress case Idle => 0 case AtlasesNext(_) => 2 case GroupsNext(_) => 1)
    + One(s.prefabsScheduled)
  }

  /** The lexicographic order on bare prefabs, atlas syncs, group syncs and tasks. */
  predicate Below(a: Editor, b: Editor) {
    || |a.bare| < |b.bare|
    || (|a.bare| == |b.bare| && AtlasSyncs(a) < AtlasSyncs(b))
    || (|a.bare| == |b.bare| && AtlasSyncs(a) == AtlasSyncs(b) && GroupSyncs(a) < GroupSyncs(b))
    || (|a.bare| == |b.bare| && AtlasSyncs(a) == AtlasSyncs(b) && GroupSyncs(a) == GroupSyncs(b) && Tasks(a) < Tasks(b))
  }

  lemma {:induction false} CallbacksAppend(xs: seq<Callback>, ys: seq<Callback>)
    ensures AtlasCallbacks(xs + ys) == AtlasCallbacks(xs) + AtlasCallbacks(ys)
    ensures GroupCallbacks(xs + ys) == GroupCallbacks(xs) + GroupCallbacks(ys)
  {
    if xs == [] {
      assert xs + ys == ys;
    } else {
      assert (xs + ys)[0] == xs[0] && (xs + ys)[1..] == xs[1..] + ys;
      CallbacksAppend(xs[1..], ys);
    }
  }

  /** Neither what syncing atlases writes nor what saving settings writes ever calls for another atlas sync. */
  lemma OutputIsNoSource(path: string)
    requires IsAtlasOutput(path) || IsSettings(path)
    ensures Watched(path) ==> ManagedName(SOURCE_ROOT, path) == None
  {
    if IsSettings(path) {
      SettingsAreUnwatched(path);
    } else {
      var normalized := Normalize(path);
      assert REMOTE_ROOT <= path;
      RootsArePlain();
      NormalizePrefix(path, REMOTE_ROOT);
      LowerPrefix(normalized, REMOTE_ROOT);
      RootsAreApart(normalized);
    }
  }

  lemma {:induction false} OutputCallsForNoAtlases(reports: seq<Callback>)
    requires forall i, p | 0 <= i < |reports| && p in Paths(reports[i]) :: IsAtlasOutput(p) || IsSettings(p)
    ensures AtlasCallbacks(reports) == 0
  {
    if reports != [] {
      forall p | p in WatchedPaths(reports[0]) ensures ManagedName(SOURCE_ROOT, p) == None {
        OutputIsNoSource(p);
      }
      assert forall i, p | 0 <= i < |reports[1..]| && p in Paths(reports[1..][i]) :: p in Paths(reports[i + 1]);
      OutputCallsForNoAtlases(reports[1..]);
    }
  }

  /** Saved settings call for nothing at all. */
  lemma {:induction false} SettingsCallForNothing(reports: seq<Callback>)
    requires OnlySettings(reports)
    ensures AtlasCallbacks(reports) == 0 && GroupCallbacks(reports) == 0
    ensures QueuedPaths(reports) == {} && QueuedPrefabs(reports) == {}
  {
    if reports != [] {
      forall p | p in Paths(reports[0]) ensures !Watched(p) && !IsManagedPrefabPath(p) {
        SettingsAreUnwatched(p);
      }
      assert WatchedPaths(reports[0]) == {} && PrefabPaths(reports[0]) == {};
      assert forall i, p | 0 <= i < |reports[1..]| && p in Paths(reports[1..][i]) :: p in Paths(reports[i + 1]);
      SettingsCallForNothing(reports[1..]);
    }
  }

  lemma DeliverIsBelow(s: Editor)
    requires s.queue != []
    ensures Below(Delivered(s), s)
  {
    ChangedNamesUnion(SOURCE_ROOT, s.pending, WatchedPaths(s.queue[0]));
  }

  lemma StartIsBelow(s: Editor)
    requires Enabled(s, StartSync)
    ensures Below(Apply(s, StartSync), s)
  {
    assert !CallsForAtlases({});
  }

  lemma SyncAtlasesIsBelow(s: Editor, paths: set<string>, files: G.Listing, reports: seq<Callback>)
    requires s.progress == AtlasesNext(paths) && SyncOutput(s, files, reports, paths)
    ensures Below(AtlasesSynced(s, paths, files, reports), s)
  {
    CallbacksAppend(s.queue, reports);
    if CallsForAtlases(paths) {
      OutputCallsForNoAtlases(reports);
    } else {
      assert s.queue + reports == s.queue;
    }
  }

  lemma SyncGroupsIsBelow(s: Editor, paths: set<string>, reports: seq<Callback>)
    requires s.progress == GroupsNext(paths) && OnlySettings(reports)
    ensures Below(GroupsSynced(s, paths, reports), s)
  {
    CallbacksAppend(s.queue, reports);
    SettingsCallForNothing(reports);
  }

  lemma EnsurePrefabsIsBelow(s: Editor, e: Event)
    requires e.EnsurePrefabs? && Enabled(s, e)
    ensures Below(Apply(s, e), s)
  {
    FewerBare(s.bare, s.pendingPrefabs);
    if s.bare * s.pendingPrefabs == {} {
      assert s.queue + e.reports == s.queue;
    }
  }

  lemma FewerBare(bare: set<string>, fixed: set<string>)
    ensures if bare * fixed == {} then bare - fixed == bare else |bare - fixed| < |bare|
  {
    assert bare == (bare - fixed) + (bare * fixed);
    assert |bare| == |bare - fixed| + |bare * fixed|;
  }

  /** Every step of the pipeline itself goes down. */
  lemma StepIsBelow(s: Editor, e: Event)
    requires IsOwnStep(e) && Enabled(s, e)
    ensures Below(Apply(s, e), s)
  {
    match e {
      case Deliver => DeliverIsBelow(s);
      case StartSync => StartIsBelow(s);
      case SyncAtlases(files, reports) => SyncAtlasesIsBelow(s, s.progress.paths, files, reports);
      case SyncGroups(reports) => SyncGroupsIsBelow(s, s.progress.paths, reports);
      case EnsurePrefabs(_) => EnsurePrefabsIsBelow(s, e);
    }
  }

  /******* Settling *******/

  /** Nothing but the pipeline's own steps, for as long as there is something left to do. */
  ghost predicate LeftAlone(states: nat -> Editor, events: nat -> Event) {
    forall i: nat | !Quiescent(states(i)) ::
      IsOwnStep(events(i)) && Enabled(states(i), events(i)) && states(i + 1) == Apply(states(i), events(i))
  }

  /**
   What the pipeline leaves alone: source folders, remote folders but the one atlases are written to, and the record
   of what is loose, which only gets shorter.
   */
  ghost predicate OnlyOutputMoved(before: Editor, after: Editor) {
    && after.source == before.source
    && (forall n | n != "Atlas" :: !FolderChanged(before.files, after.files, n))
    && after.loose.groups <= before.loose.groups && after.loose.atlases <= before.loose.atlases
    && after.loose.prefabs <= before.loose.prefabs
  }

  lemma StepMovesOnlyOutput(s: Editor, e: Event)
    requires IsOwnStep(e) && Enabled(s, e)
    ensures OnlyOutputMoved(s, Apply(s, e))
  {
  }

  lemma StillOnlyOutput(a: Editor, b: Editor, c: Editor)
    requires OnlyOutputMoved(a, b) && OnlyOutputMoved(b, c)
    ensures OnlyOutputMoved(a, c)
  {
    forall n | n != "Atlas" ensures !FolderChanged(a.files, c.files, n) {
      assert !FolderChanged(a.files, b.files, n) && !FolderChanged(b.files, c.files, n);
    }
  }

  lemma {:induction false} SettlesFrom(states: nat -> Editor, events: nat -> Event, i: nat) returns (j: nat)
    requires LeftAlone(states, events) && Inv(states(i))
    ensures Quiescent(states(j)) && Inv(states(j)) && OnlyOutputMoved(states(i), states(j))
    decreases |states(i).bare|, AtlasSyncs(states(i)), GroupSyncs(states(i)), Tasks(states(i))
  {
    if Quiescent(states(i)) {
      j := i;
    } else {
      StepKeepsInv(states(i), events(i));
      StepIsBelow(states(i), events(i));
      StepMovesOnlyOutput(states(i), events(i));
      j := SettlesFrom(states, events, i + 1);
      StillOnlyOutput(states(i), states(i + 1), states(j));
    }
  }

  /**
   Left alone, the pipeline comes to rest, in the state that rebuilding everything would give, exactly when what is
   still loose by then is right.
   */
  lemma EventuallyRebuilt(states: nat -> Editor, events: nat -> Event)
    requires LeftAlone(states, events) && Inv(states(0))
    ensures exists j :: var s := states(j);
              && Quiescent(s) && OnlyOutputMoved(states(0), s) && s.bare <= s.loose.prefabs
              && (AsRebuilt(s) <==> LooseIsRight(s))
  {
    var j := SettlesFrom(states, events, 0);
    QuiescentIsRebuiltExactlyWhen(states(j));
  }

  /** The editor right after a full rebuild of groups, atlases and prefabs, with nothing under way. */
  ghost function Fresh(files: G.Listing, source: set<string>, groups: G.Groups, atlases: A.Atlases): Editor {
    Editor(files, source, {}, G.Rebuilt(groups, files), A.Rebuilt(atlases, source), [], {}, false, Idle, {}, false,
           Loose({}, {}, {}))
  }

  lemma FreshKeepsInv(files: G.Listing, source: set<string>, groups: G.Groups, atlases: A.Atlases)
    requires G.WellFormed(files) && ProperSource(source) && G.UniqueGuids(groups)
    requires AtlasesListed(files, A.Rebuilt(atlases, source))
    ensures Inv(Fresh(files, source, groups, atlases))
  {
    RebuiltGroupsAreClean(groups, files);
    RebuiltAtlasesAreClean(atlases, source);
  }

  /** No group or atlas is changed by hand, and nothing collected is lost. */
  ghost predicate NothingLoose(states: seq<Editor>, events: seq<Event>)
    requires |states| == |events| + 1
  {
    forall i | 0 <= i < |events| ::
      && !events[i].Lose?
      && (events[i].Edit? ==> events[i].groups == states[i].groups && events[i].atlases == states[i].atlases)
  }

  lemma {:induction false} NothingGetsLoose(states: seq<Editor>, events: seq<Event>)
    requires IsRun(states, events) && NothingLoose(states, events) && states[0].loose == Loose({}, {}, {})
    ensures states[|events|].loose == Loose({}, {}, {})
    decreases |events|
  {
    if events != [] {
      var k := |events| - 1;
      assert IsRun(states[..k + 1], events[..k]) by {
        assert forall i | 0 <= i < k :: Enabled(states[i], events[i]);
      }
      NothingGetsLoose(states[..k + 1], events[..k]);
      assert Enabled(states[k], events[k]);
      StaysTight(states[k], events[k]);
    }
  }

  lemma StaysTight(s: Editor, e: Event)
    requires Enabled(s, e) && s.loose == Loose({}, {}, {})
    requires !e.Lose? && (e.Edit? ==> e.groups == s.groups && e.atlases == s.atlases)
    ensures Apply(s, e).loose == Loose({}, {}, {})
  {
  }

  /**
   The whole story: start from a full rebuild; edit, also by hand, lose what is collected, deliver, sync and rebuild in
   any order; then leave the pipeline alone.  It comes to rest, with groups and atlases that rebuilding would not change
   exactly when what is still loose is right; with nothing changed by hand and nothing lost, always.
   */
  lemma EveryHistorySettles(files: G.Listing, source: set<string>, groups: G.Groups, atlases: A.Atlases,
                            run: seq<Editor>, edits: seq<Event>, states: nat -> Editor, events: nat -> Event)
    requires G.WellFormed(files) && ProperSource(source) && G.UniqueGuids(groups)
    requires AtlasesListed(files, A.Rebuilt(atlases, source))
    requires IsRun(run, edits) && run[0] == Fresh(files, source, groups, atlases)
    requires states(0) == run[|edits|] && LeftAlone(states, events)
    ensures exists j :: var s := states(j);
              && Quiescent(s) && OnlyOutputMoved(run[|edits|], s) && s.bare <= s.loose.prefabs
              && (AsRebuilt(s) <==> LooseIsRight(s))
              && (NothingLoose(run, edits) ==> AsRebuilt(s) && s.bare == {})
  {
    FreshKeepsInv(files, source, groups, atlases);
    RunKeepsInv(run, edits);
    EventuallyRebuilt(states, events);
    if NothingLoose(run, edits) {
      NothingGetsLoose(run, edits);
    }
  }

  /******* Prefabs *******/

  /** The step from a state to the next writes prefab p. */
  predicate SavesPrefab(s: Editor, e: Event, p: string) { e.EnsurePrefabs? && p in s.bare * s.pendingPrefabs }

  predicate BareShrinks(states: seq<Editor>, k: nat) { k + 1 < |states| ==> states[k + 1].bare <= states[k].bare }

  lemma OnlyEditsBare(states: seq<Editor>, events: seq<Event>, k: nat)
    requires IsRun(states, events) && k < |events| && !events[k].Edit?
    ensures BareShrinks(states, k)
  {
    var s, e := states[k], events[k];
    assert Enabled(s, e) && states[k + 1] == Apply(s, e);
  }

  /** A prefab that has its component keeps it while no step takes it away. */
  lemma {:induction false} StaysComplete(states: seq<Editor>, i: nat, j: nat, p: string)
    requires i <= j < |states| && p !in states[i].bare
    requires forall k | i <= k < j :: BareShrinks(states, k)
    ensures p !in states[j].bare
    decreases j
  {
    if j > i {
      StaysComplete(states, i, j - 1, p);
      assert BareShrinks(states, j - 1);
    }
  }

  lemma SavedIsComplete(states: seq<Editor>, events: seq<Event>, i: nat, p: string)
    requires IsRun(states, events) && i < |events| && SavesPrefab(states[i], events[i], p)
    ensures p !in states[i + 1].bare
  {
    var s, e := states[i], events[i];
    assert Enabled(s, e) && states[i + 1] == Apply(s, e);
  }

  /** Between two edits every prefab is written at most once. */
  lemma PrefabsAreSavedOnce(states: seq<Editor>, events: seq<Event>, i: nat, j: nat, p: string)
    requires IsRun(states, events) && i <= j < |events|
    requires forall k | i <= k < j :: !events[k].Edit?
    requires SavesPrefab(states[i], events[i], p) && SavesPrefab(states[j], events[j], p)
    ensures i == j
  {
    if i < j {
      SavedIsComplete(states, events, i, p);
      forall k | i + 1 <= k < j ensures BareShrinks(states, k) {
        OnlyEditsBare(states, events, k);
      }
      StaysComplete(states, i + 1, j, p);
      assert false;
    }
  }
}
