/** What every reachable state of the bootstrap protocol satisfies. */
module BootstrapInvariant {
  import opened Options
  import opened Bootstrap
  import PlayerId

  /******* The invariant *******/

  /** The committed ids are pairwise distinct and are exactly origin + 1 up to next. */
  ghost predicate ContiguousIds(rows: map<string, Row>, origin: nat, next: nat) {
    && (forall u | u in rows :: origin < rows[u].playerId <= next)
    && (forall u, v | u in rows && v in rows && rows[u].playerId == rows[v].playerId :: u == v)
    && (forall id | origin < id <= next :: HasId(rows, id))
    && |rows| == next - origin
  }

  ghost predicate HasId(rows: map<string, Row>, id: nat) { exists u :: u in rows && rows[u].playerId == id }

  ghost predicate IdsAllocated(sequence: Option<Sequence>, rows: map<string, Row>) {
    match sequence
    case None => rows == map[]
    case Some(q) => q.origin <= q.next && ContiguousIds(rows, q.origin, q.next)
  }

  ghost predicate MirrorMatches(mirror: map<string, Profile>, rows: map<string, Row>) {
    forall u | u in mirror ::
      u in rows && mirror[u].userId == u && mirror[u].playerId == PlayerId.Format(rows[u].playerId)
  }

  /** The transaction that holds the sequence row, seen from the handler that owns it. */
  ghost predicate TxInv(db: Db, tx: Tx, hd: Handler) {
    match hd.pc
    case Bump => db.sequence.None? && tx.row.None? && tx.sequence.next == tx.sequence.origin
    case Insert => tx.row.None? && NextOf(db.sequence, tx)
    case Commit =>
      && NextOf(db.sequence, tx) && hd.user !in db.rows
      && tx.row == Some(Row(tx.sequence.next, hd.username, hd.version))
    case _ => false
  }

  /** The id drawn is the one after the last committed id. */
  ghost predicate NextOf(sequence: Option<Sequence>, tx: Tx) {
    match sequence
    case None => tx.sequence.next == tx.sequence.origin + 1
    case Some(q) => tx.sequence == Sequence(q.origin, q.next + 1)
  }

  /** Where a handler has a profile in hand. */
  predicate HoldsProfile(pc: Pc) {
    match pc
    case Load | Begin | Seed | Bump | Insert | Commit => false
    case Done(r) => r == Success
    case _ => true
  }

  /** The handler's locals agree with the place it stands at. */
  predicate LocalInv(hd: Handler) {
    && (hd.kind == GetProfile ==> !hd.created)
    && match hd.pc
       case Rename | Begin | Seed | Bump | Insert | Commit => hd.kind == Login && !hd.created && hd.grants == 0
       case Load => !hd.created && hd.grants == 0
       case Gate => hd.grants == 0 && (hd.created ==> hd.profile.maxServerVersion == hd.version)
       case WriteVersion => hd.grants == 0 && !hd.created && hd.profile.maxServerVersion < hd.version
       case Account | Mirror => hd.kind == Login && hd.grants == 0
       case Grant => hd.kind == Login && hd.grants == 0 && hd.created
       case Notify => hd.kind == Login && hd.grants == if hd.created then 1 else 0
       case ReadAccount => hd.kind == GetProfile && hd.grants == 0
       case Done(r) => hd.grants <= (if hd.created then 1 else 0) && (r == Success && hd.created ==> hd.grants == 1)
  }

  ghost predicate OwnsLock(db: Db, h: HandlerId) { db.lock.Some? && db.lock.value.owner == h }

  ghost predicate PcInv(db: Db, h: HandlerId, pc: Pc) {
    match pc
    case Bump => db.sequence.Some? || OwnsLock(db, h)
    case Insert | Commit => OwnsLock(db, h)
    case _ => true
  }

  /** A profile in hand is the user's, with the id of the user's row. */
  ghost predicate ProfileInv(rows: map<string, Row>, hd: Handler) {
    HoldsProfile(hd.pc) ==>
      && hd.user in rows && hd.profile.userId == hd.user
      && hd.profile.playerId == PlayerId.Format(rows[hd.user].playerId)
  }

  /** What a handler may rely on, given the committed state. */
  ghost predicate HandlerInv(db: Db, h: HandlerId, hd: Handler) {
    && LocalInv(hd)
    && PcInv(db, h, hd.pc)
    && ProfileInv(db.rows, hd)
    && (hd.created ==> hd.user in db.creator && db.creator[hd.user] == h)
  }

  ghost predicate GrantsMatch(s: State) {
    forall u: string ::
      && Count(s.db.credits, u) <= Count(s.db.grants, u)
      && Count(s.db.grants, u) ==
           if u in s.db.creator && s.db.creator[u] in s.handlers then s.handlers[s.db.creator[u]].grants else 0
  }

  ghost predicate CreatorsKnown(s: State) {
    && s.db.creator.Keys == s.db.rows.Keys
    && forall u | u in s.db.creator :: s.db.creator[u] in s.handlers && s.handlers[s.db.creator[u]].user == u
  }

  ghost predicate LockInv(s: State) {
    s.db.lock.Some? ==>
      && s.db.lock.value.owner in s.handlers
      && TxInv(s.db, s.db.lock.value, s.handlers[s.db.lock.value.owner])
  }

  ghost predicate Inv(s: State) {
    && IdsAllocated(s.db.sequence, s.db.rows)
    && MirrorMatches(s.db.mirror, s.db.rows)
    && LockInv(s)
    && CreatorsKnown(s)
    && GrantsMatch(s)
    && forall h | h in s.handlers :: HandlerInv(s.db, h, s.handlers[h])
  }

  /******* One step *******/

  /** How a step of handler h can move the committed state, as far as other handlers are concerned. */
  ghost predicate Evolves(db: Db, db': Db, h: HandlerId) {
    && (forall u | u in db.rows :: u in db'.rows && db'.rows[u].playerId == db.rows[u].playerId)
    && (forall u | u in db.creator :: u in db'.creator && db'.creator[u] == db.creator[u])
    && (db.sequence.Some? ==> db'.sequence.Some?)
    && (db.lock.Some? && db.lock.value.owner != h ==>
          db'.lock == db.lock && db'.sequence == db.sequence && db'.rows.Keys == db.rows.Keys)
    && (db.lock.None? || db.lock.value.owner == h ==> db'.lock.None? || db'.lock.value.owner == h)
  }

  /** The owner of the sequence lock, standing at h, satisfies the transaction invariant. */
  ghost predicate OwnTx(db: Db, h: HandlerId, hd: Handler) {
    OwnsLock(db, h) ==> TxInv(db, db.lock.value, hd)
  }

  /** What one step of handler h may rely on, and hands on to its next step. */
  ghost predicate Ready(db: Db, h: HandlerId, hd: Handler) {
    && HandlerInv(db, h, hd) && OwnTx(db, h, hd)
    && IdsAllocated(db.sequence, db.rows) && MirrorMatches(db.mirror, db.rows) && db.creator.Keys == db.rows.Keys
  }

  /** How a step moves the histories: at most one new creator, and grants only by a creator. */
  ghost predicate HistoryStep(db: Db, h: HandlerId, hd: Handler, x: Effect) {
    && (x.db.creator == db.creator
        || (hd.user !in db.creator && x.db.creator == db.creator[hd.user := h] && hd.grants == x.hd.grants == 0))
    && ((x.db.grants == db.grants && x.db.credits == db.credits && x.hd.grants == hd.grants)
        || (hd.created && x.hd.grants == hd.grants + 1
            && x.db.grants == db.grants[hd.user := Count(db.grants, hd.user) + 1]
            && (x.db.credits == db.credits
                || x.db.credits == db.credits[hd.user := Count(db.credits, hd.user) + 1])))
  }
}
