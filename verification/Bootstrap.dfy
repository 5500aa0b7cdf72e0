/**
 The player bootstrap protocol.  Several game servers, each with its own release version, share one
 database.  A handler (one login, or one profile request) is a little program over that database;
 handlers interleave freely between database statements and outside calls, and each of these may fail.

 A run is a sequence of events applied to the empty database.  An event that is not enabled (an unknown
 handler, a statement waiting for a lock) changes nothing.
 */
module Bootstrap {
  import opened Options
  import opened Text
  import PlayerId
  import CustomId

  /******* Database *******/

  type HandlerId = nat

  /** A row of `player_profiles`, without its key. */
  datatype Row = Row(playerId: nat, username: string, maxVersion: int)

  /** The one row of `player_id_sequence`; `origin` remembers the count it was seeded with. */
  datatype Sequence = Sequence(origin: nat, next: nat)

  /** What the transaction holding the sequence row has written so far. */
  datatype Tx = Tx(owner: HandlerId, sequence: Sequence, row: Option<Row>)

  /** The profile record a handler works with and mirrors into storage. */
  datatype Profile = Profile(userId: string, playerId: string, username: string, maxServerVersion: int)

  /**
   Committed state, plus three histories no handler reads: `grants` counts the wallet calls issued for a
   user, `credits` those of them that took effect, and `creator` names the handler whose transaction
   committed a user's row.
   */
  datatype Db = Db(
    users: nat,
    sequence: Option<Sequence>,
    rows: map<string, Row>,
    lock: Option<Tx>,
    accounts: map<string, string>,
    mirror: map<string, Profile>,
    grants: map<string, nat>,
    credits: map<string, nat>,
    creator: map<string, HandlerId>)

  function EmptyDb(users: nat): Db {
    Db(users, None, map[], None, map[], map[], map[], map[], map[])
  }

  function Count(m: map<string, nat>, user: string): nat { if user in m then m[user] else 0 }

  function ToProfile(user: string, row: Row): Profile {
    Profile(user, PlayerId.Format(row.playerId), row.username, row.maxVersion)
  }

  /******* Handlers *******/

  const INVALID_ARGUMENT := 3
  const NOT_FOUND := 5
  const VERSION_DOWNGRADE := 9
  const INTERNAL := 13

  datatype Result = Success | Failure(code: int) | Crashed

  /** Where a handler stands: the statement or call it makes next. */
  datatype Pc =
    | Load | Rename | Begin | Seed | Bump | Insert | Commit
    | Gate | WriteVersion
    | Account | Mirror | Grant | Notify | ReadAccount
    | Done(result: Result)

  datatype Kind = Login | GetProfile

  /** A handler's locals; `grants` is the history of the wallet calls it issued. */
  datatype Handler = Handler(
    kind: Kind, user: string, username: string, version: int,
    pc: Pc, profile: Profile, created: bool, grants: nat)

  datatype Request =
    | LoginRequest(user: string, rawUsername: string, version: int)
    | ProfileRequest(user: string, version: int)

  const NO_PROFILE := Profile("", "", "", 0)

  /** A handler right after it checked its arguments. */
  function Admit(req: Request): Handler {
    match req
    case LoginRequest(user, raw, version) =>
      var username := TrimSpace(raw);
      var pc := if user == "" then Done(Failure(INTERNAL))
                else if !CustomId.ValidUsername(username) then Done(Failure(INVALID_ARGUMENT))
                else Load;
      Handler(Login, user, username, version, pc, NO_PROFILE, false, 0)
    case ProfileRequest(user, version) =>
      var pc := if user == "" then Done(Failure(INTERNAL)) else Load;
      Handler(GetProfile, user, "", version, pc, NO_PROFILE, false, 0)
  }

  predicate Active(hd: Handler) { !hd.pc.Done? }

  /******* Steps *******/

  /** How an outside call ends: it works, it fails without effect, or it takes effect but reports failure. */
  datatype Outcome = Works | Lost | Late

  datatype Effect = Effect(db: Db, hd: Handler)

  function Stop(hd: Handler, code: int): Handler { hd.(pc := Done(Failure(code))) }

  /** The deferred rollback: drops whatever the handler's transaction holds. */
  function Rollback(db: Db, h: HandlerId): Db {
    if db.lock.Some? && db.lock.value.owner == h then db.(lock := None) else db
  }

  function Abort(db: Db, h: HandlerId, hd: Handler): Effect {
    Effect(Rollback(db, h), Stop(hd, INTERNAL))
  }

  function LoadProfile(db: Db, hd: Handler, o: Outcome): Handler {
    if o != Works then Stop(hd, INTERNAL)
    else if hd.user !in db.rows then
      if hd.kind == Login then hd.(pc := Begin) else Stop(hd, NOT_FOUND)
    else
      var row := db.rows[hd.user];
      hd.(profile := ToProfile(hd.user, row),
          pc := if hd.kind == Login && row.username != hd.username then Rename else Gate)
  }

  function SetUsername(db: Db, user: string, username: string): Db {
    if user in db.rows then db.(rows := db.rows[user := db.rows[user].(username := username)]) else db
  }

  function SetVersion(db: Db, user: string, version: int): Db {
    if user in db.rows then db.(rows := db.rows[user := db.rows[user].(maxVersion := version)]) else db
  }

  function RenameRow(db: Db, hd: Handler, o: Outcome): Effect {
    Effect(
      if o == Lost then db else SetUsername(db, hd.user, hd.username),
      if o == Works then hd.(profile := hd.profile.(username := hd.username), pc := Gate) else Stop(hd, INTERNAL))
  }

  /** `INSERT ... ON CONFLICT DO NOTHING` of the sequence row, seeded with the number of accounts. */
  function SeedSequence(db: Db, h: HandlerId, hd: Handler, o: Outcome): Effect {
    if o != Works then Abort(db, h, hd)
    else if db.sequence.None? && db.lock.Some? then Effect(db, hd)  // waits for the other insert
    else if db.sequence.None? then
      Effect(db.(lock := Some(Tx(h, Sequence(db.users, db.users), None))), hd.(pc := Bump))
    else Effect(db, hd.(pc := Bump))
  }

  /** `UPDATE ... SET next_value = next_value + 1 RETURNING`, which locks the row. */
  function BumpSequence(db: Db, h: HandlerId, hd: Handler, o: Outcome): Effect {
    if o != Works then Abort(db, h, hd)
    else if db.lock.Some? && db.lock.value.owner != h then Effect(db, hd)  // waits for the row lock
    else if db.lock.None? && db.sequence.None? then Abort(db, h, hd)  // no row to return
    else
      var q := if db.lock.Some? then db.lock.value.sequence else db.sequence.value;
      Effect(db.(lock := Some(Tx(h, q.(next := q.next + 1), None))), hd.(pc := Insert))
  }

  predicate UserTaken(db: Db, user: string) { user in db.rows }

  predicate IdTaken(db: Db, id: nat) { exists u :: u in db.rows && db.rows[u].playerId == id }

  /** The insert into `player_profiles`, subject to its primary key and to the unique player id. */
  function InsertRow(db: Db, h: HandlerId, hd: Handler, o: Outcome): Effect {
    if o != Works || db.lock.None? || db.lock.value.owner != h then Abort(db, h, hd)
    else
      var tx := db.lock.value;
      if UserTaken(db, hd.user) || IdTaken(db, tx.sequence.next) then Abort(db, h, hd)
      else
        Effect(db.(lock := Some(tx.(row := Some(Row(tx.sequence.next, hd.username, hd.version))))), hd.(pc := Commit))
  }

  function CommitDb(db: Db, h: HandlerId, user: string): Db
    requires db.lock.Some? && db.lock.value.row.Some?
  {
    var tx := db.lock.value;
    db.(sequence := Some(tx.sequence), rows := db.rows[user := tx.row.value], lock := None,
        creator := db.creator[user := h])
  }

  function CommitTx(db: Db, h: HandlerId, hd: Handler, o: Outcome): Effect {
    if o == Lost || db.lock.None? || db.lock.value.owner != h || db.lock.value.row.None? then Abort(db, h, hd)
    else
      var row := db.lock.value.row.value;
      Effect(CommitDb(db, h, hd.user),
             if o == Late then Stop(hd, INTERNAL)
             else hd.(profile := ToProfile(hd.user, row), created := true, pc := Gate))
  }

  /** Where a handler goes once the version gate has let it through. */
  function AfterGate(hd: Handler): Pc { if hd.kind == Login then Account else ReadAccount }

  function PassGate(hd: Handler): Handler {
    hd.(pc := if hd.profile.maxServerVersion > hd.version then Done(Failure(VERSION_DOWNGRADE))
              else if hd.version <= hd.profile.maxServerVersion then AfterGate(hd)
              else WriteVersion)
  }

  function StoreVersion(db: Db, hd: Handler, o: Outcome): Effect {
    Effect(
      if o == Lost then db else SetVersion(db, hd.user, hd.version),
      if o == Works then hd.(profile := hd.profile.(maxServerVersion := hd.version), pc := AfterGate(hd))
      else Stop(hd, INTERNAL))
  }

  function UpdateAccount(db: Db, hd: Handler, o: Outcome): Effect {
    Effect(
      if o == Lost then db else db.(accounts := db.accounts[hd.user := hd.username]),
      if o == Works then hd.(pc := Mirror) else Stop(hd, INTERNAL))
  }

  function WriteMirror(db: Db, hd: Handler, o: Outcome): Effect {
    Effect(
      if o == Lost then db else db.(mirror := db.mirror[hd.user := hd.profile]),
      if o == Works then hd.(pc := if hd.created then Grant else Notify) else Stop(hd, INTERNAL))
  }

  function GrantWallet(db: Db, hd: Handler, o: Outcome): Effect {
    var issued := db.(grants := db.grants[hd.user := Count(db.grants, hd.user) + 1]);
    Effect(
      if o == Lost then issued
      else issued.(credits := issued.credits[hd.user := Count(issued.credits, hd.user) + 1]),
      var after := hd.(grants := hd.grants + 1);
      if o == Works then after.(pc := Notify) else Stop(after, INTERNAL))
  }

  function Finish(hd: Handler, o: Outcome): Handler {
    if o == Works then hd.(pc := Done(Success)) else Stop(hd, INTERNAL)
  }

  /** One statement or call of handler h, with the outcome the outside world gives it. */
  function Next(db: Db, h: HandlerId, hd: Handler, o: Outcome): Effect {
    match hd.pc
    case Load => Effect(db, LoadProfile(db, hd, o))
    case Rename => RenameRow(db, hd, o)
    case Begin => Effect(db, if o == Works then hd.(pc := Seed) else Stop(hd, INTERNAL))
    case Seed => SeedSequence(db, h, hd, o)
    case Bump => BumpSequence(db, h, hd, o)
    case Insert => InsertRow(db, h, hd, o)
    case Commit => CommitTx(db, h, hd, o)
    case Gate => Effect(db, PassGate(hd))
    case WriteVersion => StoreVersion(db, hd, o)
    case Account => UpdateAccount(db, hd, o)
    case Mirror => WriteMirror(db, hd, o)
    case Grant => GrantWallet(db, hd, o)
    case Notify => Effect(db, Finish(hd, o))
    case ReadAccount => Effect(db, Finish(hd, o))
    case Done(_) => Effect(db, hd)
  }

  /** What a step of a transaction before its commit may touch: the sequence lock, and the handler's place. */
  predicate IsPrivate(db: Db, hd: Handler, x: Effect) {
    && x.db == db.(lock := x.db.lock) && x.hd == hd.(pc := x.hd.pc)
    && (x.hd.pc == Seed || x.hd.pc == Bump || x.hd.pc == Insert || x.hd.pc == Commit
        || x.hd.pc == Done(Failure(INTERNAL)))
  }

  lemma AbortIsPrivate(db: Db, h: HandlerId, hd: Handler)
    ensures IsPrivate(db, hd, Abort(db, h, hd))
  {
  }

  lemma SeedIsPrivate(db: Db, h: HandlerId, hd: Handler, o: Outcome)
    requires hd.pc == Seed
    ensures IsPrivate(db, hd, SeedSequence(db, h, hd, o))
  {
    AbortIsPrivate(db, h, hd);
  }

  lemma BumpIsPrivate(db: Db, h: HandlerId, hd: Handler, o: Outcome)
    requires hd.pc == Bump
    ensures IsPrivate(db, hd, BumpSequence(db, h, hd, o))
  {
    AbortIsPrivate(db, h, hd);
  }

  lemma InsertIsPrivate(db: Db, h: HandlerId, hd: Handler, o: Outcome)
    requires hd.pc == Insert
    ensures IsPrivate(db, hd, InsertRow(db, h, hd, o))
  {
    AbortIsPrivate(db, h, hd);
  }

  lemma TxStepIsPrivate(db: Db, h: HandlerId, hd: Handler, o: Outcome)
    requires hd.pc == Seed || hd.pc == Bump || hd.pc == Insert
    ensures IsPrivate(db, hd, Next(db, h, hd, o))
  {
    match hd.pc
    case Seed => SeedIsPrivate(db, h, hd, o);
    case Bump => BumpIsPrivate(db, h, hd, o);
    case Insert => InsertIsPrivate(db, h, hd, o);
  }

  /** How a commit ends: with the row and the sequence in place, or with nothing changed but the lock released. */
  lemma CommitCases(db: Db, h: HandlerId, hd: Handler, o: Outcome)
    ensures var x := CommitTx(db, h, hd, o);
            || x == Abort(db, h, hd)
            || (o != Lost && db.lock.Some? && db.lock.value.row.Some? && x.db == CommitDb(db, h, hd.user))
  {
  }

  /** Which step may touch which table. */
  predicate Touches(pc: Pc, db: Db, db': Db) {
    && (pc != Commit && pc != Rename && pc != WriteVersion ==> db'.rows == db.rows)
    && (pc != Account ==> db'.accounts == db.accounts)
    && (pc != Mirror ==> db'.mirror == db.mirror)
  }

  lemma NextTouches(db: Db, h: HandlerId, hd: Handler, o: Outcome)
    ensures Touches(hd.pc, db, Next(db, h, hd, o).db)
  {
    match hd.pc
    case Seed | Bump | Insert | Commit => TxTouches(db, h, hd, o);
    case Rename | WriteVersion => RowUpdateTouches(db, h, hd, o);
    case Account | Mirror | Grant => CallTouches(db, h, hd, o);
    case _ => OnlyLocals(db, h, hd, o);
  }

  lemma TxTouches(db: Db, h: HandlerId, hd: Handler, o: Outcome)
    requires hd.pc == Seed || hd.pc == Bump || hd.pc == Insert || hd.pc == Commit
    ensures Touches(hd.pc, db, Next(db, h, hd, o).db)
  {
    if hd.pc == Commit {
      CommitCases(db, h, hd, o);
    } else {
      TxStepIsPrivate(db, h, hd, o);
    }
  }

  lemma RowUpdateTouches(db: Db, h: HandlerId, hd: Handler, o: Outcome)
    requires hd.pc == Rename || hd.pc == WriteVersion
    ensures Touches(hd.pc, db, Next(db, h, hd, o).db)
  {
  }

  lemma CallTouches(db: Db, h: HandlerId, hd: Handler, o: Outcome)
    requires hd.pc == Account || hd.pc == Mirror || hd.pc == Grant
    ensures Touches(hd.pc, db, Next(db, h, hd, o).db)
  {
  }

  lemma OnlyLocals(db: Db, h: HandlerId, hd: Handler, o: Outcome)
    requires hd.pc == Load || hd.pc == Begin || hd.pc == Gate || hd.pc == Notify || hd.pc == ReadAccount || hd.pc.Done?
    ensures Next(db, h, hd, o).db == db
  {
  }

  /******* Runs *******/

  datatype State = State(db: Db, handlers: map<HandlerId, Handler>)

  datatype Event =
    | Start(h: HandlerId, req: Request)
    | Step(h: HandlerId, outcome: Outcome)
    | Crash(h: HandlerId)
    | Accounts(count: nat)  // accounts come and go outside this protocol

  function Apply(s: State, e: Event): State {
    match e
    case Start(h, req) =>
      if h in s.handlers || req.version <= 0 then s else s.(handlers := s.handlers[h := Admit(req)])
    case Step(h, o) =>
      if h !in s.handlers then s
      else
        var x := Next(s.db, h, s.handlers[h], o);
        State(x.db, s.handlers[h := x.hd])
    case Crash(h) =>
      if h !in s.handlers || !Active(s.handlers[h]) then s
      else State(Rollback(s.db, h), s.handlers[h := s.handlers[h].(pc := Done(Crashed))])
    case Accounts(count) => s.(db := s.db.(users := count))
  }

  function Run(users: nat, es: seq<Event>): State {
    if es == [] then State(EmptyDb(users), map[])
    else Apply(Run(users, es[..|es| - 1]), es[|es| - 1])
  }

  lemma RunSnoc(users: nat, es: seq<Event>, i: nat)
    requires i < |es|
    ensures Run(users, es[..i + 1]) == Apply(Run(users, es[..i]), es[i])
  {
    assert es[..i + 1][..i] == es[..i];
  }

  /** The order in which a handler moves through its program. */
  function Rank(pc: Pc): nat {
    match pc
    case Load => 0 case Rename => 1 case Begin => 2 case Seed => 3 case Bump => 4 case Insert => 5 case Commit => 6
    case Gate => 7 case WriteVersion => 8 case Account => 9 case Mirror => 10 case Grant => 11 case Notify => 12
    case ReadAccount => 13 case Done(_) => 14
  }

  /** A step either waits or moves the handler strictly forward. */
  lemma NextAdvances(db: Db, h: HandlerId, hd: Handler, o: Outcome)
    ensures Next(db, h, hd, o).hd == hd || Rank(hd.pc) < Rank(Next(db, h, hd, o).hd.pc)
  {
    match hd.pc
    case Seed => SeedAdvances(db, h, hd, o);
    case Bump => BumpAdvances(db, h, hd, o);
    case Insert => InsertAdvances(db, h, hd, o);
    case _ =>
  }

  lemma SeedAdvances(db: Db, h: HandlerId, hd: Handler, o: Outcome)
    requires hd.pc == Seed
    ensures var x := SeedSequence(db, h, hd, o); x.hd == hd || Rank(hd.pc) < Rank(x.hd.pc)
  {
  }

  lemma BumpAdvances(db: Db, h: HandlerId, hd: Handler, o: Outcome)
    requires hd.pc == Bump
    ensures var x := BumpSequence(db, h, hd, o); x.hd == hd || Rank(hd.pc) < Rank(x.hd.pc)
  {
  }

  lemma InsertAdvances(db: Db, h: HandlerId, hd: Handler, o: Outcome)
    requires hd.pc == Insert
    ensures var x := InsertRow(db, h, hd, o); Rank(hd.pc) < Rank(x.hd.pc)
  {
  }

  /** A statement that waits for another transaction. */
  predicate Waiting(db: Db, h: HandlerId, hd: Handler) {
    db.lock.Some? && ((hd.pc == Seed && db.sequence.None?) || (hd.pc == Bump && db.lock.value.owner != h))
  }

  /** Only those two statements ever wait. */
  lemma NextGoesOn(db: Db, h: HandlerId, hd: Handler, o: Outcome)
    requires Active(hd)
    ensures Next(db, h, hd, o).hd == hd <==> o == Works && Waiting(db, h, hd)
  {
  }

  /** Who a handler serves, and from which server, never changes. */
  lemma NextServesSame(db: Db, h: HandlerId, hd: Handler, o: Outcome)
    ensures var hd' := Next(db, h, hd, o).hd;
            hd'.kind == hd.kind && hd'.user == hd.user && hd'.username == hd.username && hd'.version == hd.version
  {
    match hd.pc
    case Seed | Bump | Insert => TxStepIsPrivate(db, h, hd, o);
    case _ =>
  }
}
