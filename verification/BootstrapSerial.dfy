/**
 What the version gate guarantees when no two handlers for one user overlap, or when all servers run one version:
 then it does what it is for.
 */
module BootstrapSerial {
  import opened Options
  import opened Text
  import opened Bootstrap
  import opened BootstrapInvariant
  import opened BootstrapProofs
  import opened BootstrapTheorems
  import opened BootstrapVersions

  /******* One handler per user at a time *******/

  /** At most one handler for user u is active. */
  ghost predicate AtMostOne(s: State, u: string) {
    forall g, h | g in s.handlers && h in s.handlers && Active(s.handlers[g]) && Active(s.handlers[h])
      && s.handlers[g].user == u && s.handlers[h].user == u :: g == h
  }

  /** No two handlers for user u ever overlap; handlers for other users interleave as they like. */
  ghost predicate Alone(users: nat, es: seq<Event>, u: string) {
    forall i | 0 <= i <= |es| :: AtMostOne(StateAt(users, es, i), u)
  }

  /** A handler the version gate has let through. */
  predicate PassedGate(pc: Pc) {
    pc == Account || pc == Mirror || pc == Grant || pc == Notify || pc == ReadAccount || pc == Done(Success)
  }

  /** An active handler's profile is the row; nothing mirrored or let through is above the stored version. */
  ghost predicate InSync(s: State, u: string) {
    && (forall h | h in s.handlers && s.handlers[h].user == u :: HandlerInSync(s.db, s.handlers[h]))
    && (u in s.db.mirror && u in s.db.rows ==> s.db.mirror[u].maxServerVersion <= s.db.rows[u].maxVersion)
  }

  predicate HandlerInSync(db: Db, hd: Handler) {
    && (HoldsProfile(hd.pc) && Active(hd) ==> hd.user in db.rows && hd.profile == ToProfile(hd.user, db.rows[hd.user]))
    && (hd.pc != Rename && HoldsProfile(hd.pc) && Active(hd) && hd.kind == Login ==>
          hd.profile.username == hd.username)
    && (PassedGate(hd.pc) ==> hd.user in db.rows && hd.version <= db.rows[hd.user].maxVersion)
    && (hd.pc == Mirror || hd.pc == Grant || hd.pc == Notify ==>
          hd.user in db.accounts && db.accounts[hd.user] == hd.username)
    && (hd.pc == Grant || hd.pc == Notify ==> hd.user in db.mirror && db.mirror[hd.user] == hd.profile)
  }

  /** Steps that leave rows, accounts and mirror alone. */
  lemma QuietStepInSync(db: Db, h: HandlerId, hd: Handler, o: Outcome)
    requires LocalInv(hd) && HandlerInSync(db, hd)
    requires hd.pc == Load || hd.pc == Begin || hd.pc == Gate || hd.pc == Notify || hd.pc == ReadAccount || hd.pc.Done?
    ensures HandlerInSync(Next(db, h, hd, o).db, Next(db, h, hd, o).hd)
  {
  }

  lemma TxStepInSync(db: Db, h: HandlerId, hd: Handler, o: Outcome)
    requires hd.pc == Seed || hd.pc == Bump || hd.pc == Insert
    ensures HandlerInSync(Next(db, h, hd, o).db, Next(db, h, hd, o).hd)
  {
    TxStepIsPrivate(db, h, hd, o);
  }

  lemma RowStepInSync(db: Db, h: HandlerId, hd: Handler, o: Outcome)
    requires hd.pc == Rename || hd.pc == WriteVersion
    requires LocalInv(hd) && ProfileInv(db.rows, hd) && HandlerInSync(db, hd)
    ensures HandlerInSync(Next(db, h, hd, o).db, Next(db, h, hd, o).hd)
  {
  }

  lemma CommitInSync(db: Db, h: HandlerId, hd: Handler, o: Outcome)
    requires hd.pc == Commit && OwnTx(db, h, hd)
    ensures HandlerInSync(Next(db, h, hd, o).db, Next(db, h, hd, o).hd)
  {
  }

  lemma OutsideStepInSync(db: Db, h: HandlerId, hd: Handler, o: Outcome)
    requires hd.pc == Account || hd.pc == Mirror || hd.pc == Grant
    requires LocalInv(hd) && HandlerInSync(db, hd)
    ensures HandlerInSync(Next(db, h, hd, o).db, Next(db, h, hd, o).hd)
  {
  }

  /** The acting handler stays in sync. */
  lemma NextInSync(db: Db, h: HandlerId, hd: Handler, o: Outcome)
    requires HandlerInv(db, h, hd) && OwnTx(db, h, hd) && HandlerInSync(db, hd)
    ensures HandlerInSync(Next(db, h, hd, o).db, Next(db, h, hd, o).hd)
  {
    match hd.pc
    case Rename | WriteVersion => RowStepInSync(db, h, hd, o);
    case Seed | Bump | Insert => TxStepInSync(db, h, hd, o);
    case Commit => CommitInSync(db, h, hd, o);
    case Account | Mirror | Grant => OutsideStepInSync(db, h, hd, o);
    case _ => QuietStepInSync(db, h, hd, o);
  }

  /** The shared state of one user. */
  predicate SameForUser(db: Db, db': Db, u: string) {
    && (u in db'.rows <==> u in db.rows) && (u in db.rows ==> db'.rows[u] == db.rows[u])
    && (u in db'.accounts <==> u in db.accounts) && (u in db.accounts ==> db'.accounts[u] == db.accounts[u])
    && (u in db'.mirror <==> u in db.mirror) && (u in db.mirror ==> db'.mirror[u] == db.mirror[u])
  }

  /** A handler touches nothing of any user but its own. */
  lemma NextServesOneUser(db: Db, h: HandlerId, hd: Handler, o: Outcome, u: string)
    requires u != hd.user
    ensures SameForUser(db, Next(db, h, hd, o).db, u)
  {
    NextTouches(db, h, hd, o);
    match hd.pc
    case Commit => CommitServesOneUser(db, h, hd, o, u);
    case Rename => RowUpdateServesOneUser(db, hd, o, u);
    case WriteVersion => RowUpdateServesOneUser(db, hd, o, u);
    case Account => assert Next(db, h, hd, o) == UpdateAccount(db, hd, o);
    case Mirror => assert Next(db, h, hd, o) == WriteMirror(db, hd, o);
    case _ =>
  }

  lemma CommitServesOneUser(db: Db, h: HandlerId, hd: Handler, o: Outcome, u: string)
    requires u != hd.user
    ensures SameForUser(db, CommitTx(db, h, hd, o).db, u)
  {
    CommitCases(db, h, hd, o);
  }

  lemma RowUpdateServesOneUser(db: Db, hd: Handler, o: Outcome, u: string)
    requires u != hd.user
    ensures SameForUser(db, RenameRow(db, hd, o).db, u) && SameForUser(db, StoreVersion(db, hd, o).db, u)
  {
  }

  /** In sync, a handler's step never lowers its user's version, and never mirrors one above it. */
  lemma NextRaisesVersion(db: Db, h: HandlerId, hd: Handler, o: Outcome)
    requires HandlerInv(db, h, hd) && OwnTx(db, h, hd) && HandlerInSync(db, hd) && hd.user in db.rows
    requires hd.user in db.mirror ==> db.mirror[hd.user].maxServerVersion <= db.rows[hd.user].maxVersion
    ensures var db' := Next(db, h, hd, o).db;
            && hd.user in db'.rows && db.rows[hd.user].maxVersion <= db'.rows[hd.user].maxVersion
            && (hd.user in db'.mirror ==> db'.mirror[hd.user].maxServerVersion <= db'.rows[hd.user].maxVersion)
  {
    NextMovesVersion(db, h, hd, o, hd.user);
    NextTouches(db, h, hd, o);
  }

  /** What a step of a handler does to user u: its version does not go down, and u stays in sync. */
  ghost predicate StaysInSync(s: State, s': State, u: string) {
    && InSync(s', u)
    && (u in s.db.rows ==> u in s'.db.rows && s.db.rows[u].maxVersion <= s'.db.rows[u].maxVersion)
  }

  lemma OwnStepInSync(s: State, h: HandlerId, o: Outcome)
    requires h in s.handlers && Active(s.handlers[h])
    requires Inv(s) && AtMostOne(s, s.handlers[h].user) && InSync(s, s.handlers[h].user)
    ensures StaysInSync(s, Apply(s, Step(h, o)), s.handlers[h].user)
  {
    var s', hd := Apply(s, Step(h, o)), s.handlers[h];
    assert HandlerInv(s.db, h, hd);
    NextServesSame(s.db, h, hd, o);
    NextInSync(s.db, h, hd, o);
    if hd.user in s.db.rows {
      NextRaisesVersion(s.db, h, hd, o);
    } else {
      NextMirrors(s, h, o);
    }
    forall g | g in s'.handlers && s'.handlers[g].user == hd.user ensures HandlerInSync(s'.db, s'.handlers[g]) {
      if g != h {
        EndedInSync(s.db, s'.db, s.handlers[g]);
      }
    }
  }

  /** A handler that has ended stays in sync while its user's version does not go down. */
  lemma EndedInSync(db: Db, db': Db, hd: Handler)
    requires !Active(hd) && HandlerInSync(db, hd)
    requires hd.user in db.rows ==> hd.user in db'.rows && db.rows[hd.user].maxVersion <= db'.rows[hd.user].maxVersion
    ensures HandlerInSync(db', hd)
  {
  }

  lemma OtherInSync(db: Db, db': Db, hd: Handler)
    requires SameForUser(db, db', hd.user) && HandlerInSync(db, hd)
    ensures HandlerInSync(db', hd)
  {
  }

  lemma OthersStepInSync(s: State, h: HandlerId, o: Outcome, u: string)
    requires h in s.handlers && s.handlers[h].user != u && InSync(s, u)
    ensures StaysInSync(s, Apply(s, Step(h, o)), u)
  {
    var s', hd := Apply(s, Step(h, o)), s.handlers[h];
    NextServesSame(s.db, h, hd, o);
    NextServesOneUser(s.db, h, hd, o, u);
    forall g | g in s'.handlers && s'.handlers[g].user == u ensures HandlerInSync(s'.db, s'.handlers[g]) {
      OtherInSync(s.db, s'.db, s.handlers[g]);
    }
  }

  /** Nothing is mirrored before the user has a row. */
  lemma NextMirrors(s: State, h: HandlerId, o: Outcome)
    requires Inv(s) && h in s.handlers && s.handlers[h].user !in s.db.rows
    ensures s.handlers[h].user !in Apply(s, Step(h, o)).db.mirror
  {
    assert HandlerInv(s.db, h, s.handlers[h]);
    NothingMirrored(s.db, h, s.handlers[h], o);
  }

  lemma NothingMirrored(db: Db, h: HandlerId, hd: Handler, o: Outcome)
    requires ProfileInv(db.rows, hd) && hd.user !in db.rows && hd.user !in db.mirror
    ensures hd.user !in Next(db, h, hd, o).db.mirror
  {
    NextTouches(db, h, hd, o);
  }

  lemma StepInSync(s: State, h: HandlerId, o: Outcome, u: string)
    requires Inv(s) && AtMostOne(s, u) && InSync(s, u)
    ensures StaysInSync(s, Apply(s, Step(h, o)), u)
  {
    if h in s.handlers {
      if s.handlers[h].user != u {
        OthersStepInSync(s, h, o, u);
      } else if Active(s.handlers[h]) {
        OwnStepInSync(s, h, o);
      } else {
        EndedChangesNothing(s, h, o);
      }
    }
  }

  lemma EndedChangesNothing(s: State, h: HandlerId, o: Outcome)
    requires h in s.handlers && !Active(s.handlers[h])
    ensures Apply(s, Step(h, o)) == s
  {
    assert s.handlers[h := s.handlers[h]] == s.handlers;
  }

  lemma ApplyInSync(s: State, e: Event, u: string)
    requires Inv(s) && AtMostOne(s, u) && InSync(s, u)
    ensures StaysInSync(s, Apply(s, e), u)
  {
    match e
    case Step(h, o) => StepInSync(s, h, o, u);
    case Start(h, req) => StartInSync(s, h, req, u);
    case Crash(h) => CrashInSync(s, h, u);
    case Accounts(count) => AccountsInSync(s, count, u);
  }

  lemma AccountsInSync(s: State, count: nat, u: string)
    requires InSync(s, u)
    ensures StaysInSync(s, Apply(s, Accounts(count)), u)
  {
  }

  lemma CrashInSync(s: State, h: HandlerId, u: string)
    requires InSync(s, u)
    ensures StaysInSync(s, Apply(s, Crash(h)), u)
  {
  }

  lemma StartInSync(s: State, h: HandlerId, req: Request, u: string)
    requires InSync(s, u)
    ensures StaysInSync(s, Apply(s, Start(h, req)), u)
  {
  }

  lemma {:induction false} AloneInSync(users: nat, es: seq<Event>, u: string)
    requires Alone(users, es, u)
    ensures InSync(Run(users, es), u)
  {
    if es != [] {
      var most := es[..|es| - 1];
      AlonePrefix(users, es, u, |es| - 1);
      AloneInSync(users, most, u);
      RunKeepsInv(users, most);
      ApplyInSync(Run(users, most), es[|es| - 1], u);
    }
  }

  lemma AlonePrefix(users: nat, es: seq<Event>, u: string, n: nat)
    requires Alone(users, es, u) && n <= |es|
    ensures Alone(users, es[..n], u) && AtMostOne(Run(users, es[..n]), u)
  {
    forall i | 0 <= i <= n ensures AtMostOne(StateAt(users, es[..n], i), u) {
      assert es[..n][..i] == es[..i];
      assert AtMostOne(StateAt(users, es, i), u);
    }
    assert AtMostOne(StateAt(users, es, n), u);
  }

  /** Without overlap a user's stored version never goes down. */
  lemma {:induction false} VersionNeverDrops(users: nat, es: seq<Event>, i: nat, u: string)
    requires Alone(users, es, u) && i <= |es| && u in StateAt(users, es, i).db.rows
    ensures u in Run(users, es).db.rows
    ensures StateAt(users, es, i).db.rows[u].maxVersion <= Run(users, es).db.rows[u].maxVersion
    decreases |es|
  {
    if i == |es| {
      assert es[..i] == es;
    } else {
      var most := es[..|es| - 1];
      AlonePrefix(users, es, u, |es| - 1);
      assert most[..i] == es[..i];
      VersionNeverDrops(users, most, i, u);
      AloneInSync(users, most, u);
      RunKeepsInv(users, most);
      ApplyInSync(Run(users, most), es[|es| - 1], u);
    }
  }

  /**
   Without overlap the gate decides by the stored version: it refuses a server exactly when that server is
   below the version stored at that moment.
   */
  lemma GateDecidesByStoredVersion(users: nat, es: seq<Event>, h: HandlerId, o: Outcome)
    requires h in Run(users, es).handlers && Run(users, es).handlers[h].pc == Gate
    requires Alone(users, es, Run(users, es).handlers[h].user)
    ensures var s := Run(users, es);
            var hd := s.handlers[h];
            && hd.user in s.db.rows
            && (Next(s.db, h, hd, o).hd.pc == Done(Failure(VERSION_DOWNGRADE)) <==>
                  hd.version < s.db.rows[hd.user].maxVersion)
  {
    var s := Run(users, es);
    RunKeepsInv(users, es);
    AloneInSync(users, es, s.handlers[h].user);
    assert HandlerInv(s.db, h, s.handlers[h]);
    assert HandlerInSync(s.db, s.handlers[h]);
  }

  /**
   Without overlap the stored version is the greatest of all versions that were ever written to the row or ever got
   through the gate, whatever became of their handlers, and it was written: by the event k.
   */
  lemma StoredVersionIsTheMaximum(users: nat, es: seq<Event>, u: string) returns (k: nat)
    requires Alone(users, es, u) && u in Run(users, es).db.rows
    ensures var s := Run(users, es);
            && k < |es| && WritesRow(StateAt(users, es, k), es[k], u)
            && StateAt(users, es, k).handlers[es[k].h].version == s.db.rows[u].maxVersion
    ensures forall j | 0 <= j < |es| && WritesRow(StateAt(users, es, j), es[j], u) ::
              StateAt(users, es, j).handlers[es[j].h].version <= Run(users, es).db.rows[u].maxVersion
    ensures forall i, g | 0 <= i <= |es| && GotThrough(StateAt(users, es, i), g, u) ::
              StateAt(users, es, i).handlers[g].version <= Run(users, es).db.rows[u].maxVersion
  {
    k := StoredVersionWasWritten(users, es, u);
    forall i, g | 0 <= i <= |es| && GotThrough(StateAt(users, es, i), g, u)
      ensures StateAt(users, es, i).handlers[g].version <= Run(users, es).db.rows[u].maxVersion
    {
      PassedIsKept(users, es, i, g, u);
    }
    forall j | 0 <= j < |es| && WritesRow(StateAt(users, es, j), es[j], u)
      ensures StateAt(users, es, j).handlers[es[j].h].version <= Run(users, es).db.rows[u].maxVersion
    {
      WrittenIsKept(users, es, j, u);
    }
  }

  /** Handler g, serving user u, stands past the gate. */
  predicate GotThrough(s: State, g: HandlerId, u: string) {
    g in s.handlers && s.handlers[g].user == u && PassedGate(s.handlers[g].pc)
  }

  lemma PassedIsKept(users: nat, es: seq<Event>, i: nat, g: HandlerId, u: string)
    requires Alone(users, es, u) && i <= |es| && GotThrough(StateAt(users, es, i), g, u)
    ensures u in Run(users, es).db.rows
    ensures StateAt(users, es, i).handlers[g].version <= Run(users, es).db.rows[u].maxVersion
  {
    AlonePrefix(users, es, u, i);
    AloneInSync(users, es[..i], u);
    assert HandlerInSync(StateAt(users, es, i).db, StateAt(users, es, i).handlers[g]);
    VersionNeverDrops(users, es, i, u);
  }

  lemma WrittenIsKept(users: nat, es: seq<Event>, j: nat, u: string)
    requires Alone(users, es, u) && j < |es| && WritesRow(StateAt(users, es, j), es[j], u)
    ensures u in Run(users, es).db.rows
    ensures StateAt(users, es, j).handlers[es[j].h].version <= Run(users, es).db.rows[u].maxVersion
  {
    RunSnoc(users, es, j);
    WriteTakesEffect(users, es[..j], es[j], u);
    VersionNeverDrops(users, es, j + 1, u);
  }

  /** Once a server of version v has let a user in, every lower server refuses that user from then on. */
  lemma LowerServersAreRefused(users: nat, es: seq<Event>, i: nat, g: HandlerId, h: HandlerId, o: Outcome)
    requires i <= |es| && g in StateAt(users, es, i).handlers && PassedGate(StateAt(users, es, i).handlers[g].pc)
    requires h in Run(users, es).handlers && Run(users, es).handlers[h].pc == Gate
    requires Run(users, es).handlers[h].user == StateAt(users, es, i).handlers[g].user
    requires Run(users, es).handlers[h].version < StateAt(users, es, i).handlers[g].version
    requires Alone(users, es, Run(users, es).handlers[h].user)
    ensures var s := Run(users, es);
            Next(s.db, h, s.handlers[h], o) == Effect(s.db, Stop(s.handlers[h], VERSION_DOWNGRADE))
  {
    PassedIsKept(users, es, i, g, Run(users, es).handlers[h].user);
    GateDecidesByStoredVersion(users, es, h, o);
    GateRefuses(Run(users, es).db, h, Run(users, es).handlers[h], o);
  }

  lemma GateRefuses(db: Db, h: HandlerId, hd: Handler, o: Outcome)
    requires hd.pc == Gate && Next(db, h, hd, o).hd.pc == Done(Failure(VERSION_DOWNGRADE))
    ensures Next(db, h, hd, o) == Effect(db, Stop(hd, VERSION_DOWNGRADE))
  {
  }

  /** Without overlap the mirrored version is never above the stored one. */
  lemma MirrorNeverAhead(users: nat, es: seq<Event>, u: string)
    requires Alone(users, es, u) && u in Run(users, es).db.mirror
    ensures u in Run(users, es).db.rows
    ensures Run(users, es).db.mirror[u].maxServerVersion <= Run(users, es).db.rows[u].maxVersion
  {
    RunKeepsInv(users, es);
    AloneInSync(users, es, u);
  }

  /**
   Without overlap, at the moment a login succeeds, the mirror is the row in every field, and row and account
   carry the name the user logged in with.
   */
  lemma MirrorIsTheRowAfterLogin(users: nat, es: seq<Event>, h: HandlerId)
    requires h in Run(users, es).handlers && Run(users, es).handlers[h].pc == Notify
    requires Alone(users, es, Run(users, es).handlers[h].user)
    ensures var s, s' := Run(users, es), Apply(Run(users, es), Step(h, Works));
            var hd := s.handlers[h];
            && s'.handlers[h].pc == Done(Success)
            && hd.user in s'.db.rows && hd.user in s'.db.mirror && hd.user in s'.db.accounts
            && s'.db.mirror[hd.user] == ToProfile(hd.user, s'.db.rows[hd.user])
            && s'.db.rows[hd.user].username == s'.db.accounts[hd.user] == hd.username
            && hd.version <= s'.db.rows[hd.user].maxVersion
  {
    var s := Run(users, es);
    RunKeepsInv(users, es);
    AloneInSync(users, es, s.handlers[h].user);
    assert HandlerInv(s.db, h, s.handlers[h]);
    assert HandlerInSync(s.db, s.handlers[h]);
  }

  /******* One version for all *******/

  /** Every handler still working for user u runs at version v, which is not below the stored version. */
  ghost predicate Uniform(s: State, v: int, u: string) {
    && (forall h | h in s.handlers && s.handlers[h].user == u && Active(s.handlers[h]) :: s.handlers[h].version == v)
    && (u in s.db.rows ==> s.db.rows[u].maxVersion <= v)
  }

  /** While all servers run version v, overlap does no harm: the stored version never goes down. */
  lemma {:induction false} UniformServersNeverLower(users: nat, es: seq<Event>, more: seq<Event>, v: int, u: string)
    requires Uniform(Run(users, es), v, u)
    requires forall k | 0 <= k < |more| && more[k].Start? :: more[k].req.version == v
    ensures Uniform(Run(users, es + more), v, u)
    ensures u in Run(users, es).db.rows ==>
              && u in Run(users, es + more).db.rows
              && Run(users, es).db.rows[u].maxVersion <= Run(users, es + more).db.rows[u].maxVersion
  {
    if more == [] {
      assert es + more == es;
    } else {
      var most, e := more[..|more| - 1], more[|more| - 1];
      UniformServersNeverLower(users, es, most, v, u);
      assert es + more == (es + most) + [e];
      RunAppend(users, es + most, e);
      RunKeepsInv(users, es + most);
      UniformStays(Run(users, es + most), e, v, u);
    }
  }

  lemma UniformStays(s: State, e: Event, v: int, u: string)
    requires Inv(s) && Uniform(s, v, u) && (e.Start? ==> e.req.version == v)
    ensures Uniform(Apply(s, e), v, u)
    ensures u in s.db.rows ==>
              u in Apply(s, e).db.rows && s.db.rows[u].maxVersion <= Apply(s, e).db.rows[u].maxVersion
  {
    var s' := Apply(s, e);
    if u in s.db.rows {
      OnlyStoresMoveVersions(s, e, u);
    } else if u in s'.db.rows {
      var h := NewRowHasASource(s, e, u);
      NewRowsComeFromActive(s, e, u);
    }
    forall h | h in s'.handlers && s'.handlers[h].user == u && Active(s'.handlers[h])
      ensures s'.handlers[h].version == v
    {
      if h in s.handlers {
        ApplySucceeds(s, e, h);
        if !Active(s.handlers[h]) {
          EndedStays(s, e, h);
        }
      }
    }
  }

  lemma NewRowsComeFromActive(s: State, e: Event, u: string)
    requires Inv(s) && u !in s.db.rows && u in Apply(s, e).db.rows
    ensures e.Step? && e.h in s.handlers && Active(s.handlers[e.h]) && s.handlers[e.h].user == u
    ensures Apply(s, e).db.rows[u].maxVersion == s.handlers[e.h].version
  {
    assert HandlerInv(s.db, e.h, s.handlers[e.h]);
    NextMakesRow(s.db, e.h, s.handlers[e.h], e.outcome, u);
  }
}
