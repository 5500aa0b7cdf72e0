/** What the storage mirror shows when handlers overlap: whose profile, and exactly when it is ahead of the row. */
module BootstrapMirror {
  import opened Options
  import opened Bootstrap
  import opened BootstrapInvariant
  import opened BootstrapProofs
  import opened BootstrapTheorems
  import opened BootstrapVersions

  /** Event e writes the mirror of user u. */
  predicate WritesMirror(s: State, e: Event, u: string) {
    && e.Step? && e.outcome != Lost && e.h in s.handlers
    && s.handlers[e.h].pc == Mirror && s.handlers[e.h].user == u
  }

  /** A mirror changes only by being written, and then shows the writing handler's profile. */
  lemma OnlyWritesMoveMirrors(s: State, e: Event, u: string)
    ensures var mirror := Apply(s, e).db.mirror;
            if WritesMirror(s, e, u) then u in mirror && mirror[u] == s.handlers[e.h].profile
            else (u in mirror <==> u in s.db.mirror) && (u in mirror ==> mirror[u] == s.db.mirror[u])
  {
    if e.Step? && e.h in s.handlers {
      NextTouches(s.db, e.h, s.handlers[e.h], e.outcome);
    }
  }

  /** The mirror is the profile of the last handler that wrote it. */
  lemma {:induction false} MirrorWasWritten(users: nat, es: seq<Event>, u: string) returns (k: nat)
    requires u in Run(users, es).db.mirror
    ensures k < |es| && WritesMirror(StateAt(users, es, k), es[k], u)
    ensures Run(users, es).db.mirror[u] == StateAt(users, es, k).handlers[es[k].h].profile
    ensures forall j | k < j < |es| :: !WritesMirror(StateAt(users, es, j), es[j], u)
    decreases |es|
  {
    var most, e := es[..|es| - 1], es[|es| - 1];
    OnlyWritesMoveMirrors(Run(users, most), e, u);
    if WritesMirror(Run(users, most), e, u) {
      k := |most|;
    } else {
      k := MirrorWasWritten(users, most, u);
      assert most[..k] == es[..k];
      forall j | k < j < |es| ensures !WritesMirror(StateAt(users, es, j), es[j], u) {
        assert j < |most| ==> most[..j] == es[..j] && !WritesMirror(StateAt(users, most, j), most[j], u);
      }
    }
  }

  /** The row of user u holds the given version. */
  predicate RowHolds(s: State, u: string, version: int) { u in s.db.rows && s.db.rows[u].maxVersion == version }

  /** The version in a handler's hand was in the row at some point: when it was read, or when it was written. */
  lemma {:induction false} HandVersionWasInRow(users: nat, es: seq<Event>, h: HandlerId) returns (i: nat)
    requires h in Run(users, es).handlers && HoldsProfile(Run(users, es).handlers[h].pc)
    ensures var hd := Run(users, es).handlers[h];
            i <= |es| && RowHolds(StateAt(users, es, i), hd.user, hd.profile.maxServerVersion)
    decreases |es|
  {
    assert es[..|es|] == es;
    var most, e := es[..|es| - 1], es[|es| - 1];
    var hd := Run(users, es).handlers[h];
    HandComesFrom(users, most, e, h);
    if RowHolds(Run(users, es), hd.user, hd.profile.maxServerVersion) {
      i := |es|;
    } else {
      i := HandVersionWasInRow(users, most, h);
      assert most[..i] == es[..i];
    }
  }

  lemma HandComesFrom(users: nat, es: seq<Event>, e: Event, h: HandlerId)
    requires var t := Apply(Run(users, es), e); h in t.handlers && HoldsProfile(t.handlers[h].pc)
    ensures var s, t := Run(users, es), Apply(Run(users, es), e);
            var hd := t.handlers[h];
            || RowHolds(t, hd.user, hd.profile.maxServerVersion)
            || (h in s.handlers && HoldsProfile(s.handlers[h].pc) && s.handlers[h].user == hd.user
                && s.handlers[h].profile.maxServerVersion == hd.profile.maxServerVersion)
  {
    var s := Run(users, es);
    if e.Step? && e.h == h && h in s.handlers {
      KnowsItsProfile(users, es, h);
      NextHand(s.db, h, s.handlers[h], e.outcome);
      NextServesSame(s.db, h, s.handlers[h], e.outcome);
    }
  }

  lemma KnowsItsProfile(users: nat, es: seq<Event>, h: HandlerId)
    requires h in Run(users, es).handlers
    ensures ProfileInv(Run(users, es).db.rows, Run(users, es).handlers[h])
  {
    RunKeepsInv(users, es);
    assert HandlerInv(Run(users, es).db, h, Run(users, es).handlers[h]);
  }

  lemma NextHand(db: Db, h: HandlerId, hd: Handler, o: Outcome)
    requires HoldsProfile(Next(db, h, hd, o).hd.pc) && ProfileInv(db.rows, hd)
    ensures var x := Next(db, h, hd, o);
            var version := x.hd.profile.maxServerVersion;
            || (hd.user in x.db.rows && x.db.rows[hd.user].maxVersion == version)
            || (HoldsProfile(hd.pc) && hd.profile.maxServerVersion == version)
  {
    match hd.pc
    case Seed | Bump | Insert => TxStepIsPrivate(db, h, hd, o);
    case Commit => CommitHand(db, h, hd, o);
    case WriteVersion => StoreHand(db, hd, o);
    case _ =>
  }

  lemma CommitHand(db: Db, h: HandlerId, hd: Handler, o: Outcome)
    requires HoldsProfile(CommitTx(db, h, hd, o).hd.pc)
    ensures var x := CommitTx(db, h, hd, o);
            hd.user in x.db.rows && x.db.rows[hd.user].maxVersion == x.hd.profile.maxServerVersion
  {
  }

  lemma StoreHand(db: Db, hd: Handler, o: Outcome)
    requires HoldsProfile(StoreVersion(db, hd, o).hd.pc) && hd.user in db.rows
    ensures var x := StoreVersion(db, hd, o);
            hd.user in x.db.rows && x.db.rows[hd.user].maxVersion == x.hd.profile.maxServerVersion
  {
  }

  /**
   Exactly when the mirror is ahead of the row, in any interleaving: the mirrored version was in the row at point i,
   and it is above the row's version exactly when the last store of a version since then was of a lower one.
   */
  lemma MirrorAheadExactlyWhen(users: nat, es: seq<Event>, u: string) returns (i: nat)
    requires u in Run(users, es).db.mirror
    ensures var db := Run(users, es).db;
            var mirrored := db.mirror[u].maxServerVersion;
            && u in db.rows && i <= |es| && RowHolds(StateAt(users, es, i), u, mirrored)
            && (db.rows[u].maxVersion < mirrored <==>
                  exists j, version :: i <= j && LastStore(users, es, j, u, version) && version < mirrored)
  {
    var k := MirrorWasWritten(users, es, u);
    var mirrored := Run(users, es).db.mirror[u].maxServerVersion;
    i := HandVersionWasInRow(users, es[..k], es[k].h);
    assert es[..k][..i] == es[..i];
    RowStays(users, es, i, u);
    if Run(users, es).db.rows[u].maxVersion < mirrored {
      var j := LastStoreSince(users, es, i, u);
    }
    if j, version :| i <= j && LastStore(users, es, j, u, version) && version < mirrored {
      LastStoreDecides(users, es, j, u, version);
    }
  }
}
