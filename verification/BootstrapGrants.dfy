/** Exactly when a created profile gets its welcome grant, over every run. */
module BootstrapGrants {
  import opened Options
  import opened Text
  import opened Bootstrap
  import opened BootstrapInvariant
  import opened BootstrapProofs
  import opened BootstrapTheorems
  import opened BootstrapVersions

  /** Event e met handler h at the given place. */
  predicate Meets(s: State, h: HandlerId, pc: Pc) { h in s.handlers && s.handlers[h].pc == pc }

  /** At some point of the run event e happened while handler h stood at pc. */
  ghost predicate Happened(users: nat, es: seq<Event>, h: HandlerId, pc: Pc, e: Event) {
    exists k :: HappenedAt(users, es, k, h, pc, e)
  }

  ghost predicate HappenedAt(users: nat, es: seq<Event>, k: int, h: HandlerId, pc: Pc, e: Event) {
    0 <= k < |es| && es[k] == e && Meets(StateAt(users, es, k), h, pc)
  }

  /** Handler h made the call at pc, and it worked. */
  ghost predicate Worked(users: nat, es: seq<Event>, h: HandlerId, pc: Pc) {
    Happened(users, es, h, pc, Step(h, Works))
  }

  /** Handler h died right before the call at pc. */
  ghost predicate DiedAt(users: nat, es: seq<Event>, h: HandlerId, pc: Pc) { Happened(users, es, h, pc, Crash(h)) }

  /** What happened to a handler, as far as the grant is concerned. */
  datatype Trace = Trace(commit: bool, account: bool, mirror: bool, died: bool)

  ghost function TraceOf(users: nat, es: seq<Event>, h: HandlerId): Trace {
    Trace(Worked(users, es, h, Commit), Worked(users, es, h, Account), Worked(users, es, h, Mirror),
          DiedAt(users, es, h, Grant))
  }

  /** The calls before the grant all worked, and the handler lived to make it. */
  predicate GrantIsDue(t: Trace) { t.commit && t.account && t.mirror && !t.died }

  /** A handler's place and grants agree with what happened to it. */
  predicate Tracked(hd: Handler, t: Trace) {
    && t.commit == hd.created
    && match hd.pc
       case Mirror => t.account && !t.mirror && !t.died && hd.grants == 0
       case Grant => GrantIsDue(t) && hd.grants == 0
       case Notify => t.account && t.mirror && !t.died && hd.grants == One(t.commit)
       case Done(_) => hd.grants == One(GrantIsDue(t))
       case _ => !t.account && !t.mirror && !t.died && hd.grants == 0
  }

  /** What a trace becomes when a handler at pc meets an event. */
  function Extended(t: Trace, pc: Pc, works: bool, dies: bool): Trace {
    Trace(t.commit || (works && pc == Commit), t.account || (works && pc == Account),
          t.mirror || (works && pc == Mirror), t.died || (dies && pc == Grant))
  }

  lemma TrackedNext(db: Db, h: HandlerId, hd: Handler, o: Outcome, t: Trace)
    requires LocalInv(hd) && Tracked(hd, t)
    requires hd.pc == Commit ==> OwnsLock(db, h) && TxInv(db, db.lock.value, hd)
    ensures Tracked(Next(db, h, hd, o).hd, Extended(t, hd.pc, o == Works, false))
  {
    match hd.pc
    case Seed | Bump | Insert => TxStepIsPrivate(db, h, hd, o);
    case _ =>
  }

  lemma HappenedSnoc(users: nat, es: seq<Event>, h: HandlerId, pc: Pc, e: Event)
    requires es != []
    ensures Happened(users, es, h, pc, e) <==>
              Happened(users, es[..|es| - 1], h, pc, e) || HappenedAt(users, es, |es| - 1, h, pc, e)
  {
    if Happened(users, es[..|es| - 1], h, pc, e) {
      var k :| HappenedAt(users, es[..|es| - 1], k, h, pc, e);
      HappenedBefore(users, es, k, h, pc, e);
    }
    if Happened(users, es, h, pc, e) {
      var k :| HappenedAt(users, es, k, h, pc, e);
      if k < |es| - 1 {
        HappenedBefore(users, es, k, h, pc, e);
      }
    }
  }

  lemma HappenedBefore(users: nat, es: seq<Event>, k: nat, h: HandlerId, pc: Pc, e: Event)
    requires k < |es| - 1
    ensures HappenedAt(users, es, k, h, pc, e) <==> HappenedAt(users, es[..|es| - 1], k, h, pc, e)
  {
    assert es[..|es| - 1][..k] == es[..k];
  }

  lemma NowHappened(users: nat, es: seq<Event>, h: HandlerId, pc: Pc, e: Event)
    requires es != []
    ensures var most := es[..|es| - 1];
            Happened(users, es, h, pc, e) <==>
              Happened(users, most, h, pc, e) || (es[|es| - 1] == e && Meets(Run(users, most), h, pc))
  {
    HappenedSnoc(users, es, h, pc, e);
  }

  lemma TraceSnoc(users: nat, es: seq<Event>, h: HandlerId)
    requires es != []
    ensures var most, e := es[..|es| - 1], es[|es| - 1];
            var s := Run(users, most);
            TraceOf(users, es, h) ==
              if h in s.handlers
              then Extended(TraceOf(users, most, h), s.handlers[h].pc, e == Step(h, Works), e == Crash(h))
              else TraceOf(users, most, h)
  {
    NowHappened(users, es, h, Commit, Step(h, Works));
    NowHappened(users, es, h, Account, Step(h, Works));
    NowHappened(users, es, h, Mirror, Step(h, Works));
    NowHappened(users, es, h, Grant, Crash(h));
  }

  /** Nothing has happened to a handler that has not started. */
  lemma NoTraceYet(users: nat, es: seq<Event>, h: HandlerId)
    requires h !in Run(users, es).handlers
    ensures TraceOf(users, es, h) == Trace(false, false, false, false)
  {
    forall k | 0 <= k < |es| ensures h !in StateAt(users, es, k).handlers {
      if h in StateAt(users, es, k).handlers {
        ServesSame(users, es, k, h);
      }
    }
  }

  lemma {:induction false} RunIsTracked(users: nat, es: seq<Event>, h: HandlerId)
    requires h in Run(users, es).handlers
    ensures Tracked(Run(users, es).handlers[h], TraceOf(users, es, h))
    decreases |es|
  {
    var most, e := es[..|es| - 1], es[|es| - 1];
    var s := Run(users, most);
    TraceSnoc(users, es, h);
    if h in s.handlers {
      RunIsTracked(users, most, h);
      RunKeepsInv(users, most);
      EventIsTracked(s, e, h, TraceOf(users, most, h));
    } else {
      NoTraceYet(users, most, h);
    }
  }

  lemma EventIsTracked(s: State, e: Event, h: HandlerId, t: Trace)
    requires Inv(s) && h in s.handlers && Tracked(s.handlers[h], t)
    ensures h in Apply(s, e).handlers
    ensures Tracked(Apply(s, e).handlers[h], Extended(t, s.handlers[h].pc, e == Step(h, Works), e == Crash(h)))
  {
    if e.Step? && e.h == h {
      assert HandlerInv(s.db, h, s.handlers[h]);
      TrackedNext(s.db, h, s.handlers[h], e.outcome, t);
    } else {
      OtherEventIsTracked(s, e, h, t);
    }
  }

  lemma OtherEventIsTracked(s: State, e: Event, h: HandlerId, t: Trace)
    requires h in s.handlers && Tracked(s.handlers[h], t) && !(e.Step? && e.h == h)
    ensures h in Apply(s, e).handlers
    ensures Tracked(Apply(s, e).handlers[h], Extended(t, s.handlers[h].pc, false, e == Crash(h)))
  {
  }

  /**
   Exactly when a user has got the grant, in every state of every run: when for the handler that created the user's
   row the commit, the account update and the mirror write were all reported as done, the handler did not die right
   then, and is not just about to issue the grant.
   */
  lemma GrantedExactlyWhen(users: nat, es: seq<Event>, u: string)
    requires u in Run(users, es).db.creator
    ensures var s := Run(users, es);
            var h := s.db.creator[u];
            && h in s.handlers
            && (Count(s.db.grants, u) == 1 <==>
                  && Worked(users, es, h, Commit) && Worked(users, es, h, Account) && Worked(users, es, h, Mirror)
                  && !DiedAt(users, es, h, Grant) && s.handlers[h].pc != Grant)
            && (Count(s.db.grants, u) != 1 ==> Count(s.db.grants, u) == 0)
  {
    RunKeepsInv(users, es);
    GrantCount(Run(users, es), u);
    RunIsTracked(users, es, Run(users, es).db.creator[u]);
  }

  /** Once the creator has ended, the calls it made decide for good whether its user ever gets the grant. */
  lemma GrantIsDecided(users: nat, es: seq<Event>, more: seq<Event>, u: string)
    requires u in Run(users, es).db.creator
    requires Ended(Run(users, es), Run(users, es).db.creator[u])
    ensures var h := Run(users, es).db.creator[u];
            Count(Run(users, es + more).db.grants, u) ==
              One(&& Worked(users, es, h, Commit) && Worked(users, es, h, Account) && Worked(users, es, h, Mirror)
                  && !DiedAt(users, es, h, Grant))
  {
    GrantedExactlyWhen(users, es, u);
    GrantsStay(users, es, more, u);
  }

  predicate Ended(s: State, h: HandlerId) { h in s.handlers && !Active(s.handlers[h]) }

  lemma {:induction false} GrantsStay(users: nat, es: seq<Event>, more: seq<Event>, u: string)
    requires u in Run(users, es).db.creator && Ended(Run(users, es), Run(users, es).db.creator[u])
    ensures var s, t := Run(users, es), Run(users, es + more);
            && u in t.db.creator && t.db.creator[u] == s.db.creator[u] && Ended(t, s.db.creator[u])
            && Count(t.db.grants, u) == Count(s.db.grants, u)
  {
    if more == [] {
      assert es + more == es;
    } else {
      var most, e := more[..|more| - 1], more[|more| - 1];
      GrantsStay(users, es, most, u);
      assert es + more == (es + most) + [e];
      RunAppend(users, es + most, e);
      RunKeepsInv(users, es + most);
      RunKeepsInv(users, es + more);
      var t := Run(users, es + most);
      CreatorStays(t, e);
      EndedStays(t, e, t.db.creator[u]);
      GrantCount(t, u);
      GrantCount(Apply(t, e), u);
    }
  }
}
