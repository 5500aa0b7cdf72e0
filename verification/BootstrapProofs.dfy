/** Every event of the bootstrap protocol keeps the invariant. */
module BootstrapProofs {
  import opened Options
  import opened Bootstrap
  import opened BootstrapInvariant

  lemma OthersKept(db: Db, db': Db, h: HandlerId, h2: HandlerId, hd2: Handler)
    requires Evolves(db, db', h) && h2 != h && HandlerInv(db, h2, hd2)
    ensures HandlerInv(db', h2, hd2)
  {
  }

  /** A row whose id is the next one extends the contiguous range by one. */
  lemma AddRow(rows: map<string, Row>, origin: nat, next: nat, u: string, row: Row)
    requires origin <= next && ContiguousIds(rows, origin, next) && u !in rows && row.playerId == next + 1
    ensures ContiguousIds(rows[u := row], origin, next + 1)
  {
    var rows' := rows[u := row];
    assert rows'.Keys == rows.Keys + {u};
    assert |rows'.Keys| == |rows.Keys| + 1;
    forall id | origin < id <= next + 1 ensures HasId(rows', id) {
      if id == next + 1 {
        assert rows'[u].playerId == id;
      } else {
        assert HasId(rows, id);
        var v :| v in rows && rows[v].playerId == id;
        assert rows'[v].playerId == id;
      }
    }
  }

  /** Updating a row without touching its id keeps the ids as they are. */
  lemma UpdateRow(rows: map<string, Row>, origin: nat, next: nat, u: string, row: Row)
    requires ContiguousIds(rows, origin, next) && u in rows && row.playerId == rows[u].playerId
    ensures ContiguousIds(rows[u := row], origin, next)
  {
    var rows' := rows[u := row];
    assert rows'.Keys == rows.Keys;
    assert |rows'.Keys| == |rows.Keys|;
    forall id | origin < id <= next ensures HasId(rows', id) {
      assert HasId(rows, id);
      var v :| v in rows && rows[v].playerId == id;
      assert rows'[v].playerId == id;
    }
  }

  lemma CommitAllocates(db: Db, tx: Tx, u: string)
    requires IdsAllocated(db.sequence, db.rows) && NextOf(db.sequence, tx) && u !in db.rows && tx.row.Some?
    requires tx.row.value.playerId == tx.sequence.next && db.lock == Some(tx)
    ensures forall h :: IdsAllocated(CommitDb(db, h, u).sequence, CommitDb(db, h, u).rows)
  {
    if db.sequence.Some? {
      AddRow(db.rows, db.sequence.value.origin, db.sequence.value.next, u, tx.row.value);
    } else {
      assert ContiguousIds(map[], tx.sequence.origin, tx.sequence.origin);
      AddRow(db.rows, tx.sequence.origin, tx.sequence.origin, u, tx.row.value);
    }
  }

  lemma RollbackEvolves(db: Db, h: HandlerId)
    ensures Evolves(db, Rollback(db, h), h)
  {
  }

  lemma GrantsBounded(hd: Handler)
    requires LocalInv(hd)
    ensures hd.grants <= if hd.created then 1 else 0
  {
  }

  /** Giving up, or dying, rolls back what the handler's transaction held. */
  lemma StopReady(db: Db, h: HandlerId, hd: Handler, r: Result)
    requires hd.grants <= (if hd.created then 1 else 0) && (hd.kind == GetProfile ==> !hd.created)
    requires hd.created ==> hd.user in db.creator && db.creator[hd.user] == h
    requires IdsAllocated(db.sequence, db.rows) && MirrorMatches(db.mirror, db.rows) && db.creator.Keys == db.rows.Keys
    requires r != Success
    ensures Ready(Rollback(db, h), h, hd.(pc := Done(r)))
  {
  }

  /** Steps that only touch the handler's locals. */
  lemma LocalStepKeeps(db: Db, h: HandlerId, hd: Handler, o: Outcome)
    requires Ready(db, h, hd)
    requires hd.pc == Load || hd.pc == Begin || hd.pc == Gate || hd.pc == Notify || hd.pc == ReadAccount || hd.pc.Done?
    ensures var x := Next(db, h, hd, o); Ready(x.db, h, x.hd)
  {
    OnlyLocals(db, h, hd, o);
    match hd.pc
    case Load => LoadKeeps(db, h, hd, o);
    case Gate => GateKeeps(db, h, hd);
    case _ =>
  }

  lemma LoadKeeps(db: Db, h: HandlerId, hd: Handler, o: Outcome)
    requires Ready(db, h, hd) && hd.pc == Load
    ensures Ready(db, h, LoadProfile(db, hd, o))
  {
  }

  lemma GateKeeps(db: Db, h: HandlerId, hd: Handler)
    requires Ready(db, h, hd) && hd.pc == Gate
    ensures Ready(db, h, PassGate(hd))
  {
  }

  /** Updating a row without touching its id is invisible to other handlers. */
  lemma RowUpdateKeeps(db: Db, h: HandlerId, u: string, row: Row)
    requires IdsAllocated(db.sequence, db.rows) && MirrorMatches(db.mirror, db.rows)
    requires u in db.rows && row.playerId == db.rows[u].playerId
    ensures var db' := db.(rows := db.rows[u := row]);
            && IdsAllocated(db'.sequence, db'.rows) && MirrorMatches(db'.mirror, db'.rows)
            && Evolves(db, db', h) && db'.rows.Keys == db.rows.Keys
  {
    UpdateRow(db.rows, db.sequence.value.origin, db.sequence.value.next, u, row);
    assert db.rows[u := row].Keys == db.rows.Keys;
  }

  lemma RenameKeeps(db: Db, h: HandlerId, hd: Handler, o: Outcome)
    requires Ready(db, h, hd) && hd.pc == Rename
    ensures var x := RenameRow(db, hd, o); Ready(x.db, h, x.hd)
  {
    RowUpdateKeeps(db, h, hd.user, db.rows[hd.user].(username := hd.username));
  }

  lemma StoreVersionKeeps(db: Db, h: HandlerId, hd: Handler, o: Outcome)
    requires Ready(db, h, hd) && hd.pc == WriteVersion
    ensures var x := StoreVersion(db, hd, o); Ready(x.db, h, x.hd)
  {
    RowUpdateKeeps(db, h, hd.user, db.rows[hd.user].(maxVersion := hd.version));
  }

  lemma SeedKeeps(db: Db, h: HandlerId, hd: Handler, o: Outcome)
    requires Ready(db, h, hd) && hd.pc == Seed
    ensures var x := SeedSequence(db, h, hd, o); Ready(x.db, h, x.hd)
  {
  }

  lemma BumpKeeps(db: Db, h: HandlerId, hd: Handler, o: Outcome)
    requires Ready(db, h, hd) && hd.pc == Bump
    ensures var x := BumpSequence(db, h, hd, o); Ready(x.db, h, x.hd)
  {
  }

  lemma InsertKeeps(db: Db, h: HandlerId, hd: Handler, o: Outcome)
    requires Ready(db, h, hd) && hd.pc == Insert
    ensures var x := InsertRow(db, h, hd, o); Ready(x.db, h, x.hd)
  {
    if InsertRow(db, h, hd, o) == Abort(db, h, hd) {
      StopReady(db, h, hd, Failure(INTERNAL));
    }
  }

  /** What a commit leaves behind, whether or not the handler learns of it. */
  lemma CommittedDb(db: Db, h: HandlerId, hd: Handler)
    requires Ready(db, h, hd) && hd.pc == Commit
    ensures var db' := CommitDb(db, h, hd.user);
            && IdsAllocated(db'.sequence, db'.rows) && MirrorMatches(db'.mirror, db'.rows)
            && db'.creator.Keys == db'.rows.Keys && db'.lock.None?
  {
    CommitAllocates(db, db.lock.value, hd.user);
  }

  lemma CommitKeeps(db: Db, h: HandlerId, hd: Handler, o: Outcome)
    requires Ready(db, h, hd) && hd.pc == Commit
    ensures var x := CommitTx(db, h, hd, o); Ready(x.db, h, x.hd)
  {
    CommittedDb(db, h, hd);
    match o
    case Lost => StopReady(db, h, hd, Failure(INTERNAL));
    case Late => StopReady(CommitDb(db, h, hd.user), h, hd, Failure(INTERNAL));
    case Works =>
  }

  lemma AccountKeeps(db: Db, h: HandlerId, hd: Handler, o: Outcome)
    requires Ready(db, h, hd) && hd.pc == Account
    ensures var x := UpdateAccount(db, hd, o); Ready(x.db, h, x.hd)
  {
  }

  lemma MirrorKeeps(db: Db, h: HandlerId, hd: Handler, o: Outcome)
    requires Ready(db, h, hd) && hd.pc == Mirror
    ensures var x := WriteMirror(db, hd, o); Ready(x.db, h, x.hd)
  {
  }

  lemma GrantKeeps(db: Db, h: HandlerId, hd: Handler, o: Outcome)
    requires Ready(db, h, hd) && hd.pc == Grant
    ensures var x := GrantWallet(db, hd, o); Ready(x.db, h, x.hd)
  {
  }

  lemma NextReady(db: Db, h: HandlerId, hd: Handler, o: Outcome)
    requires Ready(db, h, hd)
    ensures var x := Next(db, h, hd, o); Ready(x.db, h, x.hd)
  {
    match hd.pc
    case Rename => RenameKeeps(db, h, hd, o);
    case WriteVersion => StoreVersionKeeps(db, h, hd, o);
    case Seed => SeedKeeps(db, h, hd, o);
    case Bump => BumpKeeps(db, h, hd, o);
    case Insert => InsertKeeps(db, h, hd, o);
    case Commit => CommitKeeps(db, h, hd, o);
    case Account => AccountKeeps(db, h, hd, o);
    case Mirror => MirrorKeeps(db, h, hd, o);
    case Grant => GrantKeeps(db, h, hd, o);
    case _ => LocalStepKeeps(db, h, hd, o);
  }

  /** Other handlers can tell only so much from a step. */
  lemma NextEvolves(db: Db, h: HandlerId, hd: Handler, o: Outcome)
    requires Ready(db, h, hd)
    ensures Evolves(db, Next(db, h, hd, o).db, h)
  {
    match hd.pc
    case Rename => RowUpdateKeeps(db, h, hd.user, db.rows[hd.user].(username := hd.username));
    case WriteVersion => RowUpdateKeeps(db, h, hd.user, db.rows[hd.user].(maxVersion := hd.version));
    case Seed => LockEvolves(db, h, hd, o);
    case Bump => LockEvolves(db, h, hd, o);
    case Insert => LockEvolves(db, h, hd, o);
    case Commit => CommitEvolves(db, h, hd, o);
    case _ => OutsideEvolves(db, h, hd, o);
  }

  lemma LockEvolves(db: Db, h: HandlerId, hd: Handler, o: Outcome)
    requires PcInv(db, h, hd.pc) && (hd.pc == Seed || hd.pc == Bump || hd.pc == Insert)
    ensures Evolves(db, Next(db, h, hd, o).db, h)
  {
    TxStepIsPrivate(db, h, hd, o);
    match hd.pc
    case Seed => SeedLocks(db, h, hd, o);
    case Bump => BumpLocks(db, h, hd, o);
    case Insert => InsertLocks(db, h, hd, o);
  }

  /** A lock that another handler holds stays; the handler itself takes or keeps it only where it may. */
  predicate LockMoves(db: Db, lock: Option<Tx>, h: HandlerId) {
    if db.lock.Some? && db.lock.value.owner != h then lock == db.lock
    else lock.None? || lock.value.owner == h
  }

  lemma SeedLocks(db: Db, h: HandlerId, hd: Handler, o: Outcome)
    ensures LockMoves(db, SeedSequence(db, h, hd, o).db.lock, h)
  {
  }

  lemma BumpLocks(db: Db, h: HandlerId, hd: Handler, o: Outcome)
    ensures LockMoves(db, BumpSequence(db, h, hd, o).db.lock, h)
  {
  }

  lemma InsertLocks(db: Db, h: HandlerId, hd: Handler, o: Outcome)
    ensures LockMoves(db, InsertRow(db, h, hd, o).db.lock, h)
  {
  }

  lemma CommitEvolves(db: Db, h: HandlerId, hd: Handler, o: Outcome)
    requires hd.pc == Commit && OwnTx(db, h, hd) && db.creator.Keys == db.rows.Keys
    ensures Evolves(db, Next(db, h, hd, o).db, h)
  {
    RollbackEvolves(db, h);
  }

  lemma OutsideEvolves(db: Db, h: HandlerId, hd: Handler, o: Outcome)
    requires hd.pc != Rename && hd.pc != WriteVersion
    requires hd.pc != Seed && hd.pc != Bump && hd.pc != Insert && hd.pc != Commit
    ensures Evolves(db, Next(db, h, hd, o).db, h)
  {
    match hd.pc
    case Account => assert Evolves(db, UpdateAccount(db, hd, o).db, h);
    case Mirror => assert Evolves(db, WriteMirror(db, hd, o).db, h);
    case Grant => assert Evolves(db, GrantWallet(db, hd, o).db, h);
    case _ => OnlyLocals(db, h, hd, o);
  }

  ghost predicate SameHistories(db: Db, hd: Handler, x: Effect) {
    x.db.creator == db.creator && x.db.grants == db.grants && x.db.credits == db.credits && x.hd.grants == hd.grants
  }

  lemma NextHistories(db: Db, h: HandlerId, hd: Handler, o: Outcome)
    requires Ready(db, h, hd)
    ensures HistoryStep(db, h, hd, Next(db, h, hd, o))
  {
    match hd.pc
    case Commit => CommitHistories(db, h, hd, o);
    case Grant => GrantHistories(db, h, hd, o);
    case Seed | Bump | Insert => TxStepIsPrivate(db, h, hd, o);
    case _ => OthersLeaveHistories(db, h, hd, o);
  }

  lemma CommitHistories(db: Db, h: HandlerId, hd: Handler, o: Outcome)
    requires Ready(db, h, hd) && hd.pc == Commit
    ensures HistoryStep(db, h, hd, CommitTx(db, h, hd, o))
  {
  }

  lemma GrantHistories(db: Db, h: HandlerId, hd: Handler, o: Outcome)
    requires Ready(db, h, hd) && hd.pc == Grant
    ensures HistoryStep(db, h, hd, GrantWallet(db, hd, o))
  {
  }

  lemma OthersLeaveHistories(db: Db, h: HandlerId, hd: Handler, o: Outcome)
    requires hd.pc != Commit && hd.pc != Grant && hd.pc != Seed && hd.pc != Bump && hd.pc != Insert
    ensures SameHistories(db, hd, Next(db, h, hd, o))
  {
  }

  lemma HistoriesKept(s: State, h: HandlerId, x: Effect)
    requires h in s.handlers && CreatorsKnown(s) && GrantsMatch(s) && HandlerInv(s.db, h, s.handlers[h])
    requires HistoryStep(s.db, h, s.handlers[h], x) && x.db.creator.Keys == x.db.rows.Keys
    requires x.hd.user == s.handlers[h].user
    ensures var s' := State(x.db, s.handlers[h := x.hd]); CreatorsKnown(s') && GrantsMatch(s')
  {
    var s' := State(x.db, s.handlers[h := x.hd]);
    forall u: string
      ensures Count(s'.db.credits, u) <= Count(s'.db.grants, u)
      ensures Count(s'.db.grants, u) ==
        if u in s'.db.creator && s'.db.creator[u] in s'.handlers then s'.handlers[s'.db.creator[u]].grants else 0
    {
      GrantsKept(s, h, x, u);
    }
  }

  lemma GrantsKept(s: State, h: HandlerId, x: Effect, u: string)
    requires h in s.handlers && CreatorsKnown(s) && GrantsMatch(s) && HandlerInv(s.db, h, s.handlers[h])
    requires HistoryStep(s.db, h, s.handlers[h], x)
    ensures Count(x.db.credits, u) <= Count(x.db.grants, u)
    ensures var handlers := s.handlers[h := x.hd];
            Count(x.db.grants, u) ==
              if u in x.db.creator && x.db.creator[u] in handlers then handlers[x.db.creator[u]].grants else 0
  {
    assert Count(s.db.credits, u) <= Count(s.db.grants, u);
  }

  /******* Runs *******/

  /** What one step of a handler gives, all that the rest of the proof needs of it. */
  lemma StepGives(s: State, h: HandlerId, o: Outcome)
    requires Inv(s) && h in s.handlers
    ensures var x := Next(s.db, h, s.handlers[h], o);
            && Ready(x.db, h, x.hd) && Evolves(s.db, x.db, h) && x.hd.user == s.handlers[h].user
            && HistoryStep(s.db, h, s.handlers[h], x)
  {
    var hd := s.handlers[h];
    ReadyInState(s, h);
    NextReady(s.db, h, hd, o);
    NextEvolves(s.db, h, hd, o);
    NextHistories(s.db, h, hd, o);
    NextServesSame(s.db, h, hd, o);
  }

  lemma ReadyInState(s: State, h: HandlerId)
    requires Inv(s) && h in s.handlers
    ensures Ready(s.db, h, s.handlers[h])
  {
    assert HandlerInv(s.db, h, s.handlers[h]);
  }

  lemma StepKeepsInv(s: State, h: HandlerId, o: Outcome)
    requires Inv(s) && h in s.handlers
    ensures Inv(Apply(s, Step(h, o)))
  {
    StepGives(s, h, o);
    EffectKeepsInv(s, h, Next(s.db, h, s.handlers[h], o));
  }

  lemma EffectKeepsInv(s: State, h: HandlerId, x: Effect)
    requires Inv(s) && h in s.handlers && x.hd.user == s.handlers[h].user
    requires Ready(x.db, h, x.hd) && Evolves(s.db, x.db, h) && HistoryStep(s.db, h, s.handlers[h], x)
    ensures Inv(State(x.db, s.handlers[h := x.hd]))
  {
    ReadyInState(s, h);
    HistoriesKept(s, h, x);
    StateFollows(s, h, x);
  }

  /** A state follows from the old one when one handler moves and the database evolves. */
  lemma StateFollows(s: State, h: HandlerId, x: Effect)
    requires Inv(s) && h in s.handlers && Evolves(s.db, x.db, h) && Ready(x.db, h, x.hd)
    requires CreatorsKnown(State(x.db, s.handlers[h := x.hd])) && GrantsMatch(State(x.db, s.handlers[h := x.hd]))
    ensures Inv(State(x.db, s.handlers[h := x.hd]))
  {
    var s' := State(x.db, s.handlers[h := x.hd]);
    forall h2 | h2 in s'.handlers ensures HandlerInv(s'.db, h2, s'.handlers[h2]) {
      if h2 != h {
        OthersKept(s.db, x.db, h, h2, s.handlers[h2]);
      }
    }
    if x.db.lock.Some? && x.db.lock.value.owner != h {
      assert x.db.lock == s.db.lock && x.db.sequence == s.db.sequence;
    }
  }

  lemma CrashKeepsInv(s: State, h: HandlerId)
    requires Inv(s) && h in s.handlers && Active(s.handlers[h])
    ensures Inv(Apply(s, Crash(h)))
  {
    var hd := s.handlers[h];
    var x := Effect(Rollback(s.db, h), hd.(pc := Done(Crashed)));
    GrantsBounded(hd);
    ReadyInState(s, h);
    StopReady(s.db, h, hd, Crashed);
    RollbackEvolves(s.db, h);
    EffectKeepsInv(s, h, x);
  }

  lemma StartKeepsInv(s: State, h: HandlerId, req: Request)
    requires Inv(s) && h !in s.handlers
    ensures Inv(State(s.db, s.handlers[h := Admit(req)]))
  {
    var s' := State(s.db, s.handlers[h := Admit(req)]);
    forall h2 | h2 in s'.handlers ensures HandlerInv(s'.db, h2, s'.handlers[h2]) {
      if h2 == h {
        AdmittedInv(s.db, h, req);
      }
    }
    forall u: string ensures Count(s'.db.credits, u) <= Count(s'.db.grants, u) {
      assert Count(s.db.credits, u) <= Count(s.db.grants, u);
    }
  }

  lemma AdmittedInv(db: Db, h: HandlerId, req: Request)
    ensures HandlerInv(db, h, Admit(req))
  {
  }

  lemma ApplyKeepsInv(s: State, e: Event)
    requires Inv(s)
    ensures Inv(Apply(s, e))
  {
    match e
    case Start(h, req) => if h !in s.handlers { StartKeepsInv(s, h, req); }
    case Step(h, o) => if h in s.handlers { StepKeepsInv(s, h, o); }
    case Crash(h) => if h in s.handlers && Active(s.handlers[h]) { CrashKeepsInv(s, h); }
    case Accounts(count) =>
  }

  lemma {:induction false} RunKeepsInv(users: nat, es: seq<Event>)
    ensures Inv(Run(users, es))
  {
    if es != [] {
      RunKeepsInv(users, es[..|es| - 1]);
      ApplyKeepsInv(Run(users, es[..|es| - 1]), es[|es| - 1]);
    }
  }
}
