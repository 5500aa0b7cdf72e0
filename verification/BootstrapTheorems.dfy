/**
 The safety theorems of the bootstrap protocol.  Each one quantifies over every run: any number of
 handlers from servers of any versions, interleaved in any way, with any call failing and any handler
 dying.
 */
module BootstrapTheorems {
  import opened Options
  import opened Text
  import opened Bootstrap
  import opened BootstrapInvariant
  import opened BootstrapProofs
  import CustomId
  import PlayerId

  lemma RunAppend(users: nat, es: seq<Event>, e: Event)
    ensures Run(users, es + [e]) == Apply(Run(users, es), e)
  {
    assert (es + [e])[..|es|] == es;
  }

  /******* Player ids *******/

  /**
   Committed ids are pairwise distinct and fill the range from the seeded count to the counter without
   gaps, although transactions roll back; so the counter counts the profiles.
   */
  lemma IdsAreContiguous(users: nat, es: seq<Event>)
    ensures var db := Run(users, es).db;
            match db.sequence
            case None => db.rows == map[]
            case Some(q) => ContiguousIds(db.rows, q.origin, q.next) && q.next == q.origin + |db.rows|
  {
    RunKeepsInv(users, es);
  }

  /**
   The unique constraint on player ids never fires: an insert that runs to its end is turned away exactly
   when the user already has a row.
   */
  lemma OnlyTheUserKeyRejects(users: nat, es: seq<Event>, h: HandlerId)
    requires h in Run(users, es).handlers && Run(users, es).handlers[h].pc == Insert
    ensures var s := Run(users, es);
            && s.db.lock.Some? && s.db.lock.value.owner == h
            && !IdTaken(s.db, s.db.lock.value.sequence.next)
            && (Next(s.db, h, s.handlers[h], Works).hd.pc == Commit <==> s.handlers[h].user !in s.db.rows)
  {
    var s := Run(users, es);
    RunKeepsInv(users, es);
    assert HandlerInv(s.db, h, s.handlers[h]);
  }

  /** Once committed, a row stays, and its id never changes. */
  lemma {:induction false} IdsAreStable(users: nat, es: seq<Event>, more: seq<Event>, u: string)
    requires u in Run(users, es).db.rows
    ensures u in Run(users, es + more).db.rows
    ensures Run(users, es + more).db.rows[u].playerId == Run(users, es).db.rows[u].playerId
  {
    if more == [] {
      assert es + more == es;
    } else {
      var most, e := more[..|more| - 1], more[|more| - 1];
      IdsAreStable(users, es, most, u);
      assert es + more == (es + most) + [e];
      RunAppend(users, es + most, e);
      RunKeepsInv(users, es + most);
      RowsStay(Run(users, es + most), e);
    }
  }

  lemma RowsStay(s: State, e: Event)
    requires Inv(s)
    ensures forall u | u in s.db.rows ::
              u in Apply(s, e).db.rows && Apply(s, e).db.rows[u].playerId == s.db.rows[u].playerId
  {
    if e.Step? && e.h in s.handlers {
      StepGives(s, e.h, e.outcome);
    }
  }

  /**
   The id text never changes: a profile in any handler's hand, be it the one that created the row or one that loaded
   it any time later, shows the same id text as any other profile of that user.
   */
  lemma IdTextNeverChanges(users: nat, es: seq<Event>, more: seq<Event>, g: HandlerId, h: HandlerId)
    requires g in Run(users, es).handlers && HoldsProfile(Run(users, es).handlers[g].pc)
    requires h in Run(users, es + more).handlers && HoldsProfile(Run(users, es + more).handlers[h].pc)
    requires Run(users, es).handlers[g].user == Run(users, es + more).handlers[h].user
    ensures Run(users, es).handlers[g].profile.playerId == Run(users, es + more).handlers[h].profile.playerId
  {
    RunKeepsInv(users, es);
    RunKeepsInv(users, es + more);
    var s, t := Run(users, es), Run(users, es + more);
    assert HandlerInv(s.db, g, s.handlers[g]) && HandlerInv(t.db, h, t.handlers[h]);
    IdsAreStable(users, es, more, s.handlers[g].user);
  }

  /** In every interleaving the mirrored player id is the text of the row's id. */
  lemma MirrorShowsTheRowsId(users: nat, es: seq<Event>, u: string)
    requires u in Run(users, es).db.mirror
    ensures var db := Run(users, es).db;
            u in db.rows && db.mirror[u].userId == u && db.mirror[u].playerId == PlayerId.Format(db.rows[u].playerId)
  {
    RunKeepsInv(users, es);
  }

  /** Whatever waits for the sequence row, some active handler does not: the protocol cannot deadlock. */
  lemma NoDeadlock(users: nat, es: seq<Event>, h: HandlerId) returns (g: HandlerId)
    requires h in Run(users, es).handlers && Active(Run(users, es).handlers[h])
    ensures var s := Run(users, es);
            && g in s.handlers && Active(s.handlers[g]) && !Waiting(s.db, g, s.handlers[g])
            && Next(s.db, g, s.handlers[g], Works).hd != s.handlers[g]
  {
    var s := Run(users, es);
    RunKeepsInv(users, es);
    g := if Waiting(s.db, h, s.handlers[h]) then s.db.lock.value.owner else h;
    NextGoesOn(s.db, g, s.handlers[g], Works);
  }

  /******* The welcome grant *******/

  /** At most one wallet call is issued per user over the whole run, and at most that one takes effect. */
  lemma GrantAtMostOnce(users: nat, es: seq<Event>, u: string)
    ensures var db := Run(users, es).db; Count(db.credits, u) <= Count(db.grants, u) <= 1
    ensures u !in Run(users, es).db.rows ==> Count(Run(users, es).db.grants, u) == 0
  {
    var s := Run(users, es);
    RunKeepsInv(users, es);
    assert Count(s.db.credits, u) <= Count(s.db.grants, u);
    if u in s.db.creator {
      GrantsBounded(s.handlers[s.db.creator[u]]);
    }
  }

  /** A login that succeeded issued exactly one grant if it created the profile, and none otherwise. */
  lemma SuccessfulLoginGrants(users: nat, es: seq<Event>, h: HandlerId)
    requires h in Run(users, es).handlers && Run(users, es).handlers[h].pc == Done(Success)
    ensures var s := Run(users, es);
            var hd := s.handlers[h];
            && hd.grants == (if hd.created then 1 else 0)
            && (hd.created ==> Count(s.db.grants, hd.user) == 1)
  {
    var s := Run(users, es);
    RunKeepsInv(users, es);
    assert HandlerInv(s.db, h, s.handlers[h]);
    assert Count(s.db.credits, s.handlers[h].user) <= Count(s.db.grants, s.handlers[h].user);
  }

  lemma GrantCount(s: State, u: string)
    requires Inv(s) && u in s.db.creator
    ensures s.db.creator[u] in s.handlers && Count(s.db.grants, u) == s.handlers[s.db.creator[u]].grants
  {
    assert Count(s.db.credits, u) <= Count(s.db.grants, u);
  }

  /** The creator of u's row is h, and h has ended without issuing the grant. */
  predicate MissedGrant(s: State, u: string, h: HandlerId) {
    && u in s.db.creator && s.db.creator[u] == h
    && h in s.handlers && !Active(s.handlers[h]) && s.handlers[h].grants == 0
  }

  /**
   The grant is not made up for: when the handler that created a user's row has ended without issuing it,
   no later event ever issues it.
   */
  lemma {:induction false} MissedGrantIsNeverMade(users: nat, es: seq<Event>, more: seq<Event>, u: string, h: HandlerId)
    requires MissedGrant(Run(users, es), u, h)
    ensures MissedGrant(Run(users, es + more), u, h)
    ensures Count(Run(users, es + more).db.grants, u) == 0
  {
    if more == [] {
      assert es + more == es;
    } else {
      var most, e := more[..|more| - 1], more[|more| - 1];
      MissedGrantIsNeverMade(users, es, most, u, h);
      assert es + more == (es + most) + [e];
      RunAppend(users, es + most, e);
      RunKeepsInv(users, es + most);
      MissedGrantStays(Run(users, es + most), e, u, h);
    }
    RunKeepsInv(users, es + more);
    GrantCount(Run(users, es + more), u);
  }

  lemma MissedGrantStays(s: State, e: Event, u: string, h: HandlerId)
    requires Inv(s) && MissedGrant(s, u, h)
    ensures MissedGrant(Apply(s, e), u, h)
  {
    CreatorStays(s, e);
    EndedStays(s, e, h);
  }

  /** A handler that has ended is done with. */
  lemma EndedStays(s: State, e: Event, h: HandlerId)
    requires h in s.handlers && !Active(s.handlers[h])
    ensures h in Apply(s, e).handlers && Apply(s, e).handlers[h] == s.handlers[h]
  {
  }

  lemma CreatorStays(s: State, e: Event)
    requires Inv(s)
    ensures forall u | u in s.db.creator ::
              u in Apply(s, e).db.creator && Apply(s, e).db.creator[u] == s.db.creator[u]
  {
    if e.Step? && e.h in s.handlers {
      StepGives(s, e.h, e.outcome);
    }
  }

  /******* Refused logins *******/

  /** From here a handler is never refused for its version. */
  predicate NeverRefused(hd: Handler) {
    match hd.pc
    case Load | Rename => false
    case Gate => hd.created
    case Done(r) => r != Failure(VERSION_DOWNGRADE)
    case _ => true
  }

  lemma NeverRefusedNext(db: Db, h: HandlerId, hd: Handler, o: Outcome)
    requires LocalInv(hd) && NeverRefused(hd)
    ensures NeverRefused(Next(db, h, hd, o).hd)
  {
  }

  lemma NeverRefusedStays(s: State, e: Event, h: HandlerId)
    requires Inv(s) && h in s.handlers && NeverRefused(s.handlers[h])
    ensures h in Apply(s, e).handlers && NeverRefused(Apply(s, e).handlers[h])
  {
    assert HandlerInv(s.db, h, s.handlers[h]);
    if e.Step? && e.h == h {
      NeverRefusedNext(s.db, h, s.handlers[h], e.outcome);
    }
  }

  lemma {:induction false} NeverRefusedLater(users: nat, es: seq<Event>, k: nat, h: HandlerId)
    requires k <= |es|
    requires h in Run(users, es[..k]).handlers && NeverRefused(Run(users, es[..k]).handlers[h])
    ensures h in Run(users, es).handlers && NeverRefused(Run(users, es).handlers[h])
    decreases |es|
  {
    if k == |es| {
      assert es[..k] == es;
    } else {
      var most := es[..|es| - 1];
      assert most[..k] == es[..k];
      NeverRefusedLater(users, most, k, h);
      RunKeepsInv(users, most);
      NeverRefusedStays(Run(users, most), es[|es| - 1], h);
    }
  }

  /**
   What a handler that ends refused for its version did in each of its steps: a login at the rename statement, which
   it reaches only when it loaded another name, rewrote the username column of its own user's row; every other step
   changed nothing, and a profile request changed nothing at all.
   */
  lemma RefusalLeavesNoTrace(users: nat, es: seq<Event>, h: HandlerId, k: nat, o: Outcome)
    requires h in Run(users, es).handlers && Run(users, es).handlers[h].pc == Done(Failure(VERSION_DOWNGRADE))
    requires k < |es| && es[k] == Step(h, o) && h in Run(users, es[..k]).handlers
    ensures var before, after := Run(users, es[..k]).db, Run(users, es[..k + 1]).db;
            var hd := Run(users, es[..k]).handlers[h];
            after == if hd.pc == Rename then SetUsername(before, hd.user, hd.username) else before
    ensures Run(users, es).handlers[h].kind == GetProfile ==> Run(users, es[..k + 1]).db == Run(users, es[..k]).db
  {
    var s := Run(users, es[..k]);
    RunSnoc(users, es, k);
    RunKeepsInv(users, es[..k]);
    ServesSame(users, es, k, h);
    var hd := s.handlers[h];
    assert HandlerInv(s.db, h, hd);
    if NeverRefused(hd) {
      NeverRefusedLater(users, es, k, h);
      assert false;
    } else if hd.pc == Rename && o != Works {
      NeverRefusedLater(users, es, k + 1, h);
      assert false;
    }
  }

  /** A handler stays who it is, and only moves forward. */
  ghost predicate Succeeds(a: Handler, b: Handler) {
    && a.kind == b.kind && a.user == b.user && a.username == b.username && a.version == b.version
    && Rank(a.pc) <= Rank(b.pc)
  }

  lemma ApplySucceeds(s: State, e: Event, h: HandlerId)
    requires h in s.handlers
    ensures h in Apply(s, e).handlers && Succeeds(s.handlers[h], Apply(s, e).handlers[h])
  {
    if e.Step? && e.h == h {
      NextServesSame(s.db, h, s.handlers[h], e.outcome);
      NextAdvances(s.db, h, s.handlers[h], e.outcome);
    }
  }

  lemma {:induction false} ServesSame(users: nat, es: seq<Event>, k: nat, h: HandlerId)
    requires k <= |es| && h in Run(users, es[..k]).handlers
    ensures h in Run(users, es).handlers && Succeeds(Run(users, es[..k]).handlers[h], Run(users, es).handlers[h])
    decreases |es|
  {
    if k == |es| {
      assert es[..k] == es;
    } else {
      var most := es[..|es| - 1];
      assert most[..k] == es[..k];
      ServesSame(users, most, k, h);
      ApplySucceeds(Run(users, most), es[|es| - 1], h);
    }
  }
}
