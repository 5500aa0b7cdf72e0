/**
 The editor's sync pipeline.  Changes of assets are reported in callbacks; a callback only collects paths and
 registers a delayed call; the delayed call takes what has been collected and syncs atlases and then groups.
 Syncing writes atlases and group settings, which are reported in turn, possibly while the delayed call is still
 running.  Beside it a second watcher adds a missing component to prefabs, which saves them and so reports them again.
 Groups and atlases may also be changed by hand, and rebuilt in full from the menu; and what has been collected may
 be lost, when scripts are reloaded or a delayed call throws.
 */
module Pipeline {
  import opened Options
  import opened AssetPaths
  import opened WatchedTexts
  import G = GroupSpec
  import GB = GroupBuilder
  import A = AtlasSpec
  import AB = AtlasBuilder

  /** One batch of reported asset changes. */
  datatype Callback = Callback(imported: seq<string>, deleted: seq<string>, moved: seq<string>, movedFrom: seq<string>)

  function Paths(cb: Callback): set<string> {
    Elements(cb.imported) + Elements(cb.deleted) + Elements(cb.moved) + Elements(cb.movedFrom)
  }

  /** A path is among those a callback reports. */
  predicate InReport(path: string, cb: Callback) {
    path in cb.imported || path in cb.deleted || path in cb.moved || path in cb.movedFrom
  }

  /** What the sync watcher takes from a callback. */
  function WatchedPaths(cb: Callback): set<string> { set p | p in Paths(cb) && Watched(p) }

  /** What the prefab watcher takes from a callback. */
  function PrefabPaths(cb: Callback): set<string> {
    set p | p in Elements(cb.imported) + Elements(cb.moved) && IsManagedPrefabPath(p)
  }

  /** How far the delayed sync has come, with the paths it took. */
  datatype Progress = Idle | AtlasesNext(paths: set<string>) | GroupsNext(paths: set<string>)

  /**
   Groups, atlases and prefabs that the pipeline cannot answer for: changed by hand, or concerned by collected paths
   that were lost, and not synced since.  A history that nothing in the pipeline reads.
   */
  datatype Loose = Loose(groups: set<string>, atlases: set<string>, prefabs: set<string>)

  datatype Editor = Editor(
    files: G.Listing,           // child folders of the remote root and the assets in them
    source: set<string>,        // child folders of the atlas source root
    bare: set<string>,          // managed prefabs without the component
    groups: G.Groups,
    atlases: A.Atlases,
    queue: seq<Callback>,       // callbacks not delivered yet
    pending: set<string>,       // paths collected for the next delayed sync
    scheduled: bool,            // whether the delayed sync is registered
    progress: Progress,
    pendingPrefabs: set<string>,
    prefabsScheduled: bool,
    loose: Loose)

  /**
   First what happens from outside: edits of any kind, the two menu commands, and the loss of what was collected for
   the next sync, taken by the current one, or collected of prefabs; then the pipeline's own steps.  A sync that throws
   half-way is an edit, for what it did, and a loss.
   */
  datatype Event =
    | Edit(files: G.Listing, source: set<string>, bare: set<string>, groups: G.Groups, atlases: A.Atlases,
           report: Callback)
    | RebuildAtlases(files: G.Listing, reports: seq<Callback>)
    | RebuildGroups(reports: seq<Callback>)
    | Lose(collected: bool, taken: bool, prefabs: bool)
    | Deliver
    | StartSync
    | SyncAtlases(files: G.Listing, reports: seq<Callback>)
    | SyncGroups(reports: seq<Callback>)
    | EnsurePrefabs(reports: seq<Callback>)

  /** A step of the pipeline itself. */
  predicate IsOwnStep(e: Event) { !e.Edit? && !e.RebuildAtlases? && !e.RebuildGroups? && !e.Lose? }

  /******* Files *******/

  ghost predicate FolderChanged(before: G.Listing, after: G.Listing, n: string) {
    (n in before) != (n in after) || (n in before && n in after && before[n] != after[n])
  }

  /** Some reported path is a child folder of root, or lies in it. */
  ghost predicate Reported(root: string, n: string, report: Callback) {
    exists p :: InReport(p, report) && Under(root, n, p)
  }

  /** Every atlas is an asset of the output folder. */
  ghost predicate AtlasesListed(files: G.Listing, atlases: A.Atlases) {
    forall p | p in atlases ::
      "Atlas" in files && exists i :: 0 <= i < |files["Atlas"]| && IsAssetAt(files["Atlas"][i], p)
  }

  predicate IsAssetAt(a: G.Asset, path: string) { a.path == path && G.Listed(a) }

  /** Names that are proper, and not of folders the asset database ignores. */
  ghost predicate ProperSource(source: set<string>) { forall n | n in source :: ProperName(n) && n[0] != '.' }

  /** Reports of nothing but saved settings. */
  predicate OnlySettings(reports: seq<Callback>) {
    forall i, p | 0 <= i < |reports| && p in Paths(reports[i]) :: IsSettings(p)
  }

  /******* What gets loose *******/

  function ChangedGroups(before: G.Groups, after: G.Groups): set<string> {
    set k | k in before.Keys + after.Keys && !(k in before && k in after && before[k] == after[k])
  }

  function ChangedAtlases(before: A.Atlases, after: A.Atlases): set<string> {
    set p | p in before.Keys + after.Keys && !(p in before && p in after && before[p] == after[p])
  }

  function GroupsOf(folders: set<string>): set<string> { set n | n in folders :: G.GroupName(n) }

  function AtlasesOf(names: set<string>): set<string> { set n | n in names :: AtlasPath(n) }

  /** Of the loose groups, a sync of some folders leaves those of other folders that exist. */
  function GroupsUntouched(loose: set<string>, files: G.Listing, folders: set<string>): set<string> {
    set k | k in loose && G.NamedFor(k, files.Keys - folders)
  }

  /** Of the loose atlases, a sync of some source folders leaves those of other folders that exist. */
  ghost function AtlasesUntouched(loose: set<string>, source: set<string>, names: set<string>): set<string> {
    set p | p in loose && A.IsAtlasOf(p, source - names)
  }

  ghost function GroupsLeft(s: Editor, paths: set<string>): set<string> {
    var folders := ChangedNames(REMOTE_ROOT, paths);
    if folders == {} then s.loose.groups else GroupsUntouched(s.loose.groups, s.files, folders)
  }

  ghost function AtlasesLeft(s: Editor, paths: set<string>): set<string> {
    var names := ChangedNames(SOURCE_ROOT, paths);
    if names == {} then s.loose.atlases else AtlasesUntouched(s.loose.atlases, s.source, names)
  }

  /******* Steps *******/

  /**
   An edit: any change to files and prefabs that its report covers, and any change to groups and atlases by hand; in
   the settings a guid has one entry at most, whoever edits them.
   */
  ghost predicate EditReported(s: Editor, e: Event)
    requires e.Edit?
  {
    && G.WellFormed(e.files) && ProperSource(e.source) && AtlasesListed(e.files, e.atlases)
    && G.UniqueGuids(e.groups)
    && (forall n | FolderChanged(s.files, e.files, n) :: Reported(REMOTE_ROOT, n, e.report))
    && (forall n | (n in s.source) != (n in e.source) :: Reported(SOURCE_ROOT, n, e.report))
    && (forall p | p in e.bare && p !in s.bare ::
          IsPrefab(p) && (p in e.report.imported || p in e.report.moved))
  }

  /** What writing atlases may change and report: the output folder, and settings saved along with it. */
  ghost predicate AtlasOutput(s: Editor, files: G.Listing, reports: seq<Callback>, atlases: A.Atlases) {
    && G.WellFormed(files) && AtlasesListed(files, atlases)
    && (forall n | n != "Atlas" :: !FolderChanged(s.files, files, n))
    && (FolderChanged(s.files, files, "Atlas") ==>
          exists i :: 0 <= i < |reports| && Reported(REMOTE_ROOT, "Atlas", reports[i]))
    && (forall i, p | 0 <= i < |reports| && p in Paths(reports[i]) :: IsAtlasOutput(p) || IsSettings(p))
  }

  /** The same for an incremental sync, which writes nothing when no source folder is concerned. */
  ghost predicate SyncOutput(s: Editor, files: G.Listing, reports: seq<Callback>, paths: set<string>) {
    if ChangedNames(SOURCE_ROOT, paths) == {} then files == s.files && reports == []
    else AtlasOutput(s, files, reports, AB.AfterChanges(s.atlases, s.source, paths))
  }

  ghost predicate Enabled(s: Editor, e: Event) {
    match e
    case Edit(_, _, _, _, _, _) => EditReported(s, e)
    case RebuildAtlases(files, reports) => AtlasOutput(s, files, reports, A.Rebuilt(s.atlases, s.source))
    case RebuildGroups(reports) => OnlySettings(reports)
    case Lose(_, _, _) => true
    case Deliver => s.queue != []
    case StartSync => s.scheduled && s.progress == Idle
    case SyncAtlases(files, reports) => s.progress.AtlasesNext? && SyncOutput(s, files, reports, s.progress.paths)
    case SyncGroups(reports) =>
      && s.progress.GroupsNext? && OnlySettings(reports)
      && (ChangedNames(REMOTE_ROOT, s.progress.paths) == {} ==> reports == [])
    case EnsurePrefabs(reports) =>
      && s.prefabsScheduled
      && (s.bare * s.pendingPrefabs == {} ==> reports == [])
      && forall i, p | 0 <= i < |reports| && p in Paths(reports[i]) :: p in s.bare * s.pendingPrefabs || IsSettings(p)
  }

  /** A callback is delivered to both watchers. */
  function Delivered(s: Editor): Editor
    requires s.queue != []
  {
    var cb := s.queue[0];
    var prefabs := s.pendingPrefabs + PrefabPaths(cb);
    s.(queue := s.queue[1..],
       pending := s.pending + WatchedPaths(cb),
       scheduled := s.scheduled || WatchedPaths(cb) != {},
       pendingPrefabs := prefabs,
       prefabsScheduled := s.prefabsScheduled || prefabs != {})
  }

  ghost function Apply(s: Editor, e: Event): Editor
    requires Enabled(s, e)
  {
    match e
    case Edit(files, source, bare, groups, atlases, report) =>
      s.(files := files, source := source, bare := bare, groups := groups, atlases := atlases,
         queue := s.queue + [report],
         loose := s.loose.(groups := s.loose.groups + ChangedGroups(s.groups, groups),
                           atlases := s.loose.atlases + ChangedAtlases(s.atlases, atlases)))
    case RebuildAtlases(files, reports) =>
      s.(atlases := A.Rebuilt(s.atlases, s.source), files := files, queue := s.queue + reports,
         loose := s.loose.(atlases := {}))
    case RebuildGroups(reports) =>
      s.(groups := G.Rebuilt(s.groups, s.files), queue := s.queue + reports, loose := s.loose.(groups := {}))
    case Lose(collected, taken, prefabs) => Lost(s, collected, taken, prefabs)
    case Deliver => Delivered(s)
    case StartSync => s.(scheduled := false, pending := {}, progress := AtlasesNext(s.pending))
    case SyncAtlases(files, reports) => AtlasesSynced(s, s.progress.paths, files, reports)
    case SyncGroups(reports) => GroupsSynced(s, s.progress.paths, reports)
    case EnsurePrefabs(reports) =>
      s.(bare := s.bare - s.pendingPrefabs, pendingPrefabs := {}, prefabsScheduled := false,
         queue := s.queue + reports, loose := s.loose.(prefabs := s.loose.prefabs - s.pendingPrefabs))
  }

  /** The paths a sync under way has taken; atlases are done with them before groups are. */
  function TakenForGroups(s: Editor): set<string> {
    match s.progress case Idle => {} case AtlasesNext(paths) => paths case GroupsNext(paths) => paths
  }

  function TakenForAtlases(s: Editor): set<string> {
    match s.progress case Idle => {} case AtlasesNext(paths) => paths case GroupsNext(_) => {}
  }

  function LostPaths(s: Editor, collected: bool, taken: set<string>): set<string> {
    (if collected then s.pending else {}) + taken
  }

  /** What is lost is not scheduled any more, and what it concerns gets loose. */
  function Lost(s: Editor, collected: bool, taken: bool, prefabs: bool): Editor {
    var forGroups := LostPaths(s, collected, if taken then TakenForGroups(s) else {});
    var forAtlases := LostPaths(s, collected, if taken then TakenForAtlases(s) else {});
    s.(pending := if collected then {} else s.pending,
       scheduled := s.scheduled && !collected,
       progress := if taken then Idle else s.progress,
       pendingPrefabs := if prefabs then {} else s.pendingPrefabs,
       prefabsScheduled := s.prefabsScheduled && !prefabs,
       loose := Loose(s.loose.groups + GroupsOf(ChangedNames(REMOTE_ROOT, forGroups)),
                      s.loose.atlases + AtlasesOf(ChangedNames(SOURCE_ROOT, forAtlases)),
                      s.loose.prefabs + if prefabs then s.pendingPrefabs else {}))
  }

  ghost function AtlasesSynced(s: Editor, paths: set<string>, files: G.Listing, reports: seq<Callback>): Editor {
    s.(atlases := AB.AfterChanges(s.atlases, s.source, paths), files := files, queue := s.queue + reports,
       progress := GroupsNext(paths), loose := s.loose.(atlases := AtlasesLeft(s, paths)))
  }

  ghost function GroupsSynced(s: Editor, paths: set<string>, reports: seq<Callback>): Editor {
    s.(groups := GB.AfterChanges(s.groups, s.files, paths), queue := s.queue + reports, progress := Idle,
       loose := s.loose.(groups := GroupsLeft(s, paths)))
  }

  /** A run: states and the events between them. */
  ghost predicate IsRun(states: seq<Editor>, events: seq<Event>) {
    && |states| == |events| + 1
    && forall i | 0 <= i < |events| :: Enabled(states[i], events[i]) && states[i + 1] == Apply(states[i], events[i])
  }

  /** Nothing is left to deliver, to run or to finish. */
  predicate Quiescent(s: Editor) {
    s.queue == [] && !s.scheduled && s.progress == Idle && !s.prefabsScheduled
  }

  /******* What is outstanding *******/

  function QueuedPaths(queue: seq<Callback>): set<string> {
    if queue == [] then {} else WatchedPaths(queue[0]) + QueuedPaths(queue[1..])
  }

  function QueuedPrefabs(queue: seq<Callback>): set<string> {
    if queue == [] then {} else PrefabPaths(queue[0]) + QueuedPrefabs(queue[1..])
  }

  /** Paths that groups have not been synced for. */
  function GroupWork(s: Editor): set<string> {
    s.pending + QueuedPaths(s.queue) + TakenForGroups(s)
  }

  /** Paths that atlases have not been synced for. */
  function AtlasWork(s: Editor): set<string> {
    s.pending + QueuedPaths(s.queue) + TakenForAtlases(s)
  }

  /**
   The invariant: whatever is neither covered by outstanding paths nor loose is in sync already, and whatever is
   collected is scheduled.
   */
  ghost predicate Inv(s: Editor) {
    && G.WellFormed(s.files) && ProperSource(s.source) && AtlasesListed(s.files, s.atlases)
    && G.UniqueGuids(s.groups)
    && GroupsAreNamed(s.groups, s.loose.groups) && AtlasesAreNamed(s.atlases, s.loose.atlases)
    && (forall n | n !in ChangedNames(REMOTE_ROOT, GroupWork(s)) :: GroupIsClean(s, n))
    && (forall n | n !in ChangedNames(SOURCE_ROOT, AtlasWork(s)) :: AtlasIsClean(s, n))
    && s.bare <= s.pendingPrefabs + QueuedPrefabs(s.queue) + s.loose.prefabs
    && (s.pending != {} ==> s.scheduled)
    && (s.pendingPrefabs != {} ==> s.prefabsScheduled)
  }

  ghost predicate GroupIsClean(s: Editor, n: string) {
    G.GroupName(n) in s.loose.groups || G.InSync(s.groups, s.files, n)
  }

  ghost predicate AtlasIsClean(s: Editor, n: string) {
    AtlasPath(n) in s.loose.atlases || A.InSync(s.atlases, s.source, n)
  }

  ghost predicate GroupsAreNamed(groups: G.Groups, loose: set<string>) {
    forall k | k in groups && G.IsManagedGroup(k) && k !in loose :: REMOTE_PREFIX <= k
  }

  ghost predicate AtlasesAreNamed(atlases: A.Atlases, loose: set<string>) {
    forall p | p in atlases && p !in loose :: IsAtlas(p)
  }

  ghost predicate IsAtlas(path: string) { exists n :: path == AtlasPath(n) }
}
