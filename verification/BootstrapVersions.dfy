/**
 What the version gate guarantees in every interleaving.  Its read and its write are separate statements, so a stored
 version can go down; here is exactly when it does, and where every stored version and every refusal comes from.
 */
module BootstrapVersions {
  import opened Options
  import opened Text
  import opened Bootstrap
  import opened BootstrapInvariant
  import opened BootstrapProofs
  import opened BootstrapTheorems
  import CustomId

  /******* Any interleaving *******/

  function StateAt(users: nat, es: seq<Event>, i: nat): State
    requires i <= |es|
  {
    Run(users, es[..i])
  }

  /** Event e stores a version for user u. */
  predicate StoresVersion(s: State, e: Event, u: string) {
    && e.Step? && e.outcome != Lost && e.h in s.handlers
    && s.handlers[e.h].pc == WriteVersion && s.handlers[e.h].user == u
  }

  /** Event e is handler h reading its user's row, which holds the given version. */
  predicate ReadsVersion(s: State, e: Event, h: HandlerId, version: int) {
    && e == Step(h, Works) && h in s.handlers && s.handlers[h].pc == Load
    && s.handlers[h].user in s.db.rows && s.db.rows[s.handlers[h].user].maxVersion == version
  }

  /** The stored version of an existing row moves only when a handler for that user stores its own version. */
  lemma OnlyStoresMoveVersions(s: State, e: Event, u: string)
    requires Inv(s) && u in s.db.rows
    ensures u in Apply(s, e).db.rows
    ensures StoresVersion(s, e, u) ==> Apply(s, e).db.rows[u].maxVersion == s.handlers[e.h].version
    ensures !StoresVersion(s, e, u) ==> Apply(s, e).db.rows[u].maxVersion == s.db.rows[u].maxVersion
  {
    RowsStay(s, e);
    if e.Step? && e.h in s.handlers {
      StepMovesVersion(s, e.h, e.outcome, u);
    }
  }

  lemma StepMovesVersion(s: State, h: HandlerId, o: Outcome, u: string)
    requires Inv(s) && h in s.handlers && u in s.db.rows
    ensures u in Next(s.db, h, s.handlers[h], o).db.rows
    ensures Next(s.db, h, s.handlers[h], o).db.rows[u].maxVersion
         == if s.handlers[h].pc == WriteVersion && s.handlers[h].user == u && o != Lost then s.handlers[h].version
            else s.db.rows[u].maxVersion
  {
    assert HandlerInv(s.db, h, s.handlers[h]);
    NextMovesVersion(s.db, h, s.handlers[h], o, u);
  }

  lemma NextMovesVersion(db: Db, h: HandlerId, hd: Handler, o: Outcome, u: string)
    requires OwnTx(db, h, hd) && u in db.rows
    ensures var rows := Next(db, h, hd, o).db.rows;
            && u in rows
            && rows[u].maxVersion == if hd.pc == WriteVersion && hd.user == u && o != Lost then hd.version
                                     else db.rows[u].maxVersion
  {
    NextTouches(db, h, hd, o);
    match hd.pc
    case Commit => CommitCases(db, h, hd, o);
    case Rename | WriteVersion =>
    case _ => assert Next(db, h, hd, o).db.rows == db.rows;
  }

  /** Between reading a row and storing a version. */
  predicate BeforeStore(hd: Handler) {
    !hd.created && (hd.pc == Rename || hd.pc == Gate || hd.pc == WriteVersion)
  }

  /** The version a handler holds before storing is the one it read from the row. */
  lemma {:induction false} HeldVersionWasRead(users: nat, es: seq<Event>, h: HandlerId) returns (i: nat)
    requires h in Run(users, es).handlers && BeforeStore(Run(users, es).handlers[h])
    ensures i < |es|
    ensures ReadsVersion(StateAt(users, es, i), es[i], h, Run(users, es).handlers[h].profile.maxServerVersion)
    decreases |es|
  {
    var most, e := es[..|es| - 1], es[|es| - 1];
    var s := Run(users, most);
    HeldComesFrom(users, most, e, h);
    if ReadsVersion(s, e, h, Run(users, es).handlers[h].profile.maxServerVersion) {
      i := |es| - 1;
    } else {
      i := HeldVersionWasRead(users, most, h);
      assert most[..i] == es[..i];
    }
  }

  lemma HeldComesFrom(users: nat, es: seq<Event>, e: Event, h: HandlerId)
    requires var t := Apply(Run(users, es), e); h in t.handlers && BeforeStore(t.handlers[h])
    ensures var s := Run(users, es);
            var version := Apply(s, e).handlers[h].profile.maxServerVersion;
            || ReadsVersion(s, e, h, version)
            || (h in s.handlers && BeforeStore(s.handlers[h]) && s.handlers[h].profile.maxServerVersion == version)
  {
    RunKeepsInv(users, es);
    BeforeStoreComesFrom(Run(users, es), e, h);
  }

  lemma BeforeStoreComesFrom(s: State, e: Event, h: HandlerId)
    requires Inv(s) && h in Apply(s, e).handlers && BeforeStore(Apply(s, e).handlers[h])
    ensures var version := Apply(s, e).handlers[h].profile.maxServerVersion;
            || ReadsVersion(s, e, h, version)
            || (h in s.handlers && BeforeStore(s.handlers[h]) && s.handlers[h].profile.maxServerVersion == version)
  {
    if e.Step? && e.h == h && h in s.handlers {
      assert HandlerInv(s.db, h, s.handlers[h]);
      NextBeforeStore(s.db, h, s.handlers[h], e.outcome);
    }
  }

  lemma NextBeforeStore(db: Db, h: HandlerId, hd: Handler, o: Outcome)
    requires BeforeStore(Next(db, h, hd, o).hd) && LocalInv(hd)
    ensures var version := Next(db, h, hd, o).hd.profile.maxServerVersion;
            || (hd.pc == Load && o == Works && hd.user in db.rows && db.rows[hd.user].maxVersion == version)
            || (BeforeStore(hd) && hd.profile.maxServerVersion == version)
  {
  }

  /** A refusal for version, even with overlap, is never unfounded: the handler read a version above its own. */
  lemma {:induction false} RefusalIsFounded(users: nat, es: seq<Event>, h: HandlerId) returns (i: nat, version: int)
    requires h in Run(users, es).handlers && Run(users, es).handlers[h].pc == Done(Failure(VERSION_DOWNGRADE))
    ensures i < |es| && ReadsVersion(StateAt(users, es, i), es[i], h, version)
    ensures Run(users, es).handlers[h].version < version
    decreases |es|
  {
    var most, e := es[..|es| - 1], es[|es| - 1];
    RefusalCameFrom(users, most, e, h);
    if Run(users, most).handlers[h].pc == Gate {
      version := Run(users, most).handlers[h].profile.maxServerVersion;
      i := HeldVersionWasRead(users, most, h);
    } else {
      i, version := RefusalIsFounded(users, most, h);
    }
    assert most[..i] == es[..i];
  }

  lemma RefusalCameFrom(users: nat, es: seq<Event>, e: Event, h: HandlerId)
    requires var t := Apply(Run(users, es), e);
             h in t.handlers && t.handlers[h].pc == Done(Failure(VERSION_DOWNGRADE))
    ensures var s := Run(users, es);
            && h in s.handlers && s.handlers[h].version == Apply(s, e).handlers[h].version
            && (s.handlers[h].pc == Done(Failure(VERSION_DOWNGRADE)) || RefusedAtGate(s.handlers[h]))
  {
    RunKeepsInv(users, es);
    RefusalComesFrom(Run(users, es), e, h);
  }

  lemma RefusalComesFrom(s: State, e: Event, h: HandlerId)
    requires Inv(s) && h in Apply(s, e).handlers && Apply(s, e).handlers[h].pc == Done(Failure(VERSION_DOWNGRADE))
    ensures h in s.handlers && s.handlers[h].version == Apply(s, e).handlers[h].version
    ensures s.handlers[h].pc == Done(Failure(VERSION_DOWNGRADE)) || RefusedAtGate(s.handlers[h])
  {
    if e.Step? && e.h == h && h in s.handlers {
      assert HandlerInv(s.db, h, s.handlers[h]);
      NextServesSame(s.db, h, s.handlers[h], e.outcome);
      NextRefuses(s.db, h, s.handlers[h], e.outcome);
    }
  }

  predicate RefusedAtGate(hd: Handler) {
    hd.pc == Gate && !hd.created && hd.version < hd.profile.maxServerVersion
  }

  lemma NextRefuses(db: Db, h: HandlerId, hd: Handler, o: Outcome)
    requires LocalInv(hd) && Next(db, h, hd, o).hd.pc == Done(Failure(VERSION_DOWNGRADE))
    ensures hd.pc == Done(Failure(VERSION_DOWNGRADE)) || RefusedAtGate(hd)
  {
  }

  lemma RowStays(users: nat, es: seq<Event>, i: nat, u: string)
    requires i <= |es| && u in StateAt(users, es, i).db.rows
    ensures u in Run(users, es).db.rows
  {
    IdsAreStable(users, es[..i], es[i..], u);
    assert es[..i] + es[i..] == es;
  }

  lemma VersionStays(users: nat, es: seq<Event>, e: Event, u: string)
    requires u in Run(users, es).db.rows && !StoresVersion(Run(users, es), e, u)
    ensures var rows := Apply(Run(users, es), e).db.rows;
            u in rows && rows[u].maxVersion == Run(users, es).db.rows[u].maxVersion
  {
    RunKeepsInv(users, es);
    OnlyStoresMoveVersions(Run(users, es), e, u);
  }

  /** From event k on, event k is the last to store a version for user u, and stores the given one. */
  ghost predicate LastStore(users: nat, es: seq<Event>, k: int, u: string, version: int) {
    && 0 <= k < |es| && StoresVersion(StateAt(users, es, k), es[k], u)
    && StateAt(users, es, k).handlers[es[k].h].version == version
    && forall j | k < j < |es| :: !StoresVersion(StateAt(users, es, j), es[j], u)
  }

  /** The last store decides what is stored. */
  lemma {:induction false} LastStoreDecides(users: nat, es: seq<Event>, k: int, u: string, version: int)
    requires LastStore(users, es, k, u, version)
    ensures u in Run(users, es).db.rows && Run(users, es).db.rows[u].maxVersion == version
    decreases |es|
  {
    var most, e := es[..|es| - 1], es[|es| - 1];
    if k == |most| {
      StoreTakesEffect(users, most, e, u);
    } else {
      LastStoreBefore(users, es, k, u, version);
      LastStoreDecides(users, most, k, u, version);
      assert !StoresVersion(StateAt(users, es, |most|), e, u);
      VersionStays(users, most, e, u);
    }
  }

  lemma LastStoreBefore(users: nat, es: seq<Event>, k: int, u: string, version: int)
    requires LastStore(users, es, k, u, version) && k < |es| - 1
    ensures LastStore(users, es[..|es| - 1], k, u, version)
  {
    var most := es[..|es| - 1];
    assert most[..k] == es[..k];
    forall j | k < j < |most| ensures !StoresVersion(StateAt(users, most, j), most[j], u) {
      assert most[..j] == es[..j];
      assert !StoresVersion(StateAt(users, es, j), es[j], u);
    }
  }

  lemma StoreTakesEffect(users: nat, es: seq<Event>, e: Event, u: string)
    requires StoresVersion(Run(users, es), e, u)
    ensures var s := Run(users, es);
            u in s.db.rows && u in Apply(s, e).db.rows && Apply(s, e).db.rows[u].maxVersion == s.handlers[e.h].version
  {
    var s := Run(users, es);
    RunKeepsInv(users, es);
    assert HandlerInv(s.db, e.h, s.handlers[e.h]);
    OnlyStoresMoveVersions(s, e, u);
  }

  /** If the stored version differs from an earlier one, there is a last store since. */
  lemma {:induction false} LastStoreSince(users: nat, es: seq<Event>, i: nat, u: string) returns (k: int)
    requires i <= |es| && u in StateAt(users, es, i).db.rows && u in Run(users, es).db.rows
    requires StateAt(users, es, i).db.rows[u].maxVersion != Run(users, es).db.rows[u].maxVersion
    ensures i <= k && LastStore(users, es, k, u, Run(users, es).db.rows[u].maxVersion)
    decreases |es|
  {
    assert es[..|es|] == es;
    if i == |es| {
      assert false;
    } else {
      var most, e := es[..|es| - 1], es[|es| - 1];
      assert most[..i] == es[..i];
      RowStays(users, most, i, u);
      if StoresVersion(Run(users, most), e, u) {
        k := |most|;
        StoreTakesEffect(users, most, e, u);
      } else {
        VersionStays(users, most, e, u);
        k := LastStoreSince(users, most, i, u);
        LastStoreStays(users, es, k, u, Run(users, most).db.rows[u].maxVersion);
      }
    }
  }

  lemma LastStoreStays(users: nat, es: seq<Event>, k: int, u: string, version: int)
    requires es != [] && LastStore(users, es[..|es| - 1], k, u, version)
    requires !StoresVersion(Run(users, es[..|es| - 1]), es[|es| - 1], u)
    ensures LastStore(users, es, k, u, version)
  {
    var most := es[..|es| - 1];
    assert most[..k] == es[..k];
    forall j | k < j < |es| ensures !StoresVersion(StateAt(users, es, j), es[j], u) {
      if j < |most| {
        assert most[..j] == es[..j];
        assert !StoresVersion(StateAt(users, most, j), most[j], u);
      }
    }
  }

  /**
   Exactly when an event lowers the stored version: when it is a store, and the last store before it for the same
   user was of a higher version.
   */
  lemma VersionDropsExactlyWhen(users: nat, es: seq<Event>, e: Event, u: string)
    requires u in Run(users, es).db.rows
    ensures var s := Run(users, es);
            && u in Apply(s, e).db.rows
            && (Apply(s, e).db.rows[u].maxVersion < s.db.rows[u].maxVersion <==>
                  && StoresVersion(s, e, u)
                  && exists k, version :: LastStore(users, es, k, u, version) && s.handlers[e.h].version < version)
  {
    if StoresVersion(Run(users, es), e, u) {
      StoreLowersExactlyWhen(users, es, e, u);
    } else {
      VersionStays(users, es, e, u);
    }
  }

  lemma StoreLowersExactlyWhen(users: nat, es: seq<Event>, e: Event, u: string)
    requires StoresVersion(Run(users, es), e, u)
    ensures var s := Run(users, es);
            && u in s.db.rows && u in Apply(s, e).db.rows
            && (Apply(s, e).db.rows[u].maxVersion < s.db.rows[u].maxVersion <==>
                  exists k, version :: LastStore(users, es, k, u, version) && s.handlers[e.h].version < version)
  {
    var s := Run(users, es);
    StoreTakesEffect(users, es, e, u);
    if Apply(s, e).db.rows[u].maxVersion < s.db.rows[u].maxVersion {
      var i := StoreFollowsRead(users, es, e.h);
      var k := LastStoreSince(users, es, i, u);
    }
    if k, version :| LastStore(users, es, k, u, version) && s.handlers[e.h].version < version {
      LastStoreDecides(users, es, k, u, version);
    }
  }

  /** A handler about to store has read a version below its own. */
  lemma StoreFollowsRead(users: nat, es: seq<Event>, h: HandlerId) returns (i: nat)
    requires h in Run(users, es).handlers && Run(users, es).handlers[h].pc == WriteVersion
    ensures var hd := Run(users, es).handlers[h];
            && i < |es| && hd.user in StateAt(users, es, i).db.rows
            && StateAt(users, es, i).db.rows[hd.user].maxVersion < hd.version
            && es[i] == Step(h, Works) && h in StateAt(users, es, i).handlers
            && StateAt(users, es, i).handlers[h].pc == Load
  {
    var s := Run(users, es);
    RunKeepsInv(users, es);
    assert HandlerInv(s.db, h, s.handlers[h]);
    i := HeldVersionWasRead(users, es, h);
    ServesSame(users, es, i, h);
  }

  /** A handler that has stored its version is past that point for good. */
  lemma StorerMovesOn(users: nat, es: seq<Event>, k: nat)
    requires k < |es| && es[k].Step? && es[k].h in StateAt(users, es, k).handlers
    requires StateAt(users, es, k).handlers[es[k].h].pc == WriteVersion
    ensures es[k].h in Run(users, es).handlers && Run(users, es).handlers[es[k].h].pc != WriteVersion
  {
    var h, s := es[k].h, StateAt(users, es, k);
    RunSnoc(users, es, k);
    NextGoesOn(s.db, h, s.handlers[h], es[k].outcome);
    NextAdvances(s.db, h, s.handlers[h], es[k].outcome);
    ServesSame(users, es, k + 1, h);
  }

  /**
   Every decrease has a stale read behind it.  If event e lowers a user's stored version, it is a handler storing its
   own version; that handler read the row at some event i, when the row held a version below its own; and at an event
   k between, another handler for the same user stored the version that e overwrites.
   */
  lemma DecreaseHasStaleRead(users: nat, es: seq<Event>, e: Event, u: string) returns (i: nat, k: nat)
    requires u in Run(users, es).db.rows && u in Apply(Run(users, es), e).db.rows
    requires Apply(Run(users, es), e).db.rows[u].maxVersion < Run(users, es).db.rows[u].maxVersion
    ensures var s := Run(users, es);
            && StoresVersion(s, e, u)
            && i < k < |es|
            && var hd := s.handlers[e.h];
            && Apply(s, e).db.rows[u].maxVersion == hd.version
            && ReadsVersion(StateAt(users, es, i), es[i], e.h, hd.profile.maxServerVersion)
            && hd.profile.maxServerVersion < hd.version < s.db.rows[u].maxVersion
            && LastStore(users, es, k, u, s.db.rows[u].maxVersion) && es[k].h != e.h
  {
    var s := Run(users, es);
    RunKeepsInv(users, es);
    OnlyStoresMoveVersions(s, e, u);
    var h := e.h;
    assert HandlerInv(s.db, h, s.handlers[h]);
    i := HeldVersionWasRead(users, es, h);
    ServesSame(users, es, i, h);
    k := LastStoreSince(users, es, i, u);
    if es[k].h == h {
      StorerMovesOn(users, es, k);
      assert false;
    }
  }

  /** Event e puts a version into user u's row: it commits the row or stores a version. */
  predicate WritesRow(s: State, e: Event, u: string) {
    && e.Step? && e.outcome != Lost && e.h in s.handlers && s.handlers[e.h].user == u
    && (s.handlers[e.h].pc == Commit || s.handlers[e.h].pc == WriteVersion)
  }

  /** What is written is the version of the handler that writes. */
  lemma WriteTakesEffect(users: nat, es: seq<Event>, e: Event, u: string)
    requires WritesRow(Run(users, es), e, u)
    ensures var s := Run(users, es);
            u in Apply(s, e).db.rows && Apply(s, e).db.rows[u].maxVersion == s.handlers[e.h].version
  {
    var s := Run(users, es);
    RunKeepsInv(users, es);
    assert HandlerInv(s.db, e.h, s.handlers[e.h]);
    if s.handlers[e.h].pc == Commit {
      CommitTakesEffect(s.db, e.h, s.handlers[e.h], e.outcome);
    } else {
      StoreTakesEffect(users, es, e, u);
    }
  }

  lemma CommitTakesEffect(db: Db, h: HandlerId, hd: Handler, o: Outcome)
    requires hd.pc == Commit && o != Lost && OwnsLock(db, h) && TxInv(db, db.lock.value, hd)
    ensures hd.user !in db.rows
    ensures var rows := Next(db, h, hd, o).db.rows; hd.user in rows && rows[hd.user].maxVersion == hd.version
  {
  }

  /** In every interleaving a stored version was written by a handler of that version, and by no other since. */
  lemma {:induction false} StoredVersionWasWritten(users: nat, es: seq<Event>, u: string) returns (k: nat)
    requires u in Run(users, es).db.rows
    ensures k < |es| && WritesRow(StateAt(users, es, k), es[k], u)
    ensures StateAt(users, es, k).handlers[es[k].h].version == Run(users, es).db.rows[u].maxVersion
    ensures forall j | k < j < |es| :: !WritesRow(StateAt(users, es, j), es[j], u)
    decreases |es|
  {
    var most, e := es[..|es| - 1], es[|es| - 1];
    var s := Run(users, most);
    if WritesRow(s, e, u) {
      k := |most|;
      WriteTakesEffect(users, most, e, u);
    } else {
      RowWasThere(users, most, e, u);
      VersionStays(users, most, e, u);
      k := StoredVersionWasWritten(users, most, u);
      assert most[..k] == es[..k];
      forall j | k < j < |es| ensures !WritesRow(StateAt(users, es, j), es[j], u) {
        assert j < |most| ==> most[..j] == es[..j] && !WritesRow(StateAt(users, most, j), most[j], u);
      }
    }
  }

  lemma RowWasThere(users: nat, es: seq<Event>, e: Event, u: string)
    requires u in Apply(Run(users, es), e).db.rows && !WritesRow(Run(users, es), e, u)
    ensures u in Run(users, es).db.rows
  {
    RunKeepsInv(users, es);
    if u !in Run(users, es).db.rows {
      var h := NewRowHasASource(Run(users, es), e, u);
      assert false;
    }
  }

  lemma NewRowHasASource(s: State, e: Event, u: string) returns (h: HandlerId)
    requires Inv(s) && u !in s.db.rows && u in Apply(s, e).db.rows
    ensures h in s.handlers && s.handlers[h].user == u && WritesRow(s, e, u) && e.h == h
    ensures s.handlers[h].version == Apply(s, e).db.rows[u].maxVersion
  {
    h := e.h;
    assert HandlerInv(s.db, h, s.handlers[h]);
    NextMakesRow(s.db, h, s.handlers[h], e.outcome, u);
  }

  lemma NextMakesRow(db: Db, h: HandlerId, hd: Handler, o: Outcome, u: string)
    requires OwnTx(db, h, hd) && u !in db.rows && u in Next(db, h, hd, o).db.rows
    ensures hd.pc == Commit && hd.user == u && o != Lost && Next(db, h, hd, o).db.rows[u].maxVersion == hd.version
  {
    NextTouches(db, h, hd, o);
    if hd.pc == Commit {
      CommitCases(db, h, hd, o);
    }
  }
}
