/**
 A handler running by itself: all its remaining steps in one go, up to its end or to a statement that has to wait.
 What a login then achieves is stated outright, for the calls that work and for those that do not.
 */
module BootstrapAlone {
  import opened Options
  import opened Text
  import opened Bootstrap
  import opened BootstrapInvariant
  import opened BootstrapTheorems
  import CustomId

  /** The outcome of each outside call; a handler makes each call at most once. */
  type Calls = Pc -> Outcome

  /** All remaining steps of handler h, up to its end or to a statement that has to wait. */
  ghost function Execute(db: Db, h: HandlerId, hd: Handler, calls: Calls): Effect
    decreases 14 - Rank(hd.pc)
  {
    var x := Next(db, h, hd, calls(hd.pc));
    NextAdvances(db, h, hd, calls(hd.pc));
    if x.hd == hd then Effect(db, hd) else Execute(x.db, h, x.hd, calls)
  }

  /** A state after handler h, and no other, has moved. */
  ghost function Moved(s: State, h: HandlerId, x: Effect): State { State(x.db, s.handlers[h := x.hd]) }

  lemma MoveOn(s: State, h: HandlerId, calls: Calls)
    requires h in s.handlers && Next(s.db, h, s.handlers[h], calls(s.handlers[h].pc)).hd != s.handlers[h]
    ensures var t := Apply(s, Step(h, calls(s.handlers[h].pc)));
            && h in t.handlers && Rank(s.handlers[h].pc) < Rank(t.handlers[h].pc)
            && EndOf(s, h, calls) == EndOf(t, h, calls)
  {
    var t := Apply(s, Step(h, calls(s.handlers[h].pc)));
    NextAdvances(s.db, h, s.handlers[h], calls(s.handlers[h].pc));
    var x := Execute(t.db, h, t.handlers[h], calls);
    assert t.handlers[h := x.hd] == s.handlers[h := x.hd];
  }

  /** Where handler h ends up when it runs by itself from a state. */
  ghost function EndOf(s: State, h: HandlerId, calls: Calls): State
    requires h in s.handlers
  {
    Moved(s, h, Execute(s.db, h, s.handlers[h], calls))
  }

  predicate Standing(s: State, h: HandlerId, calls: Calls)
    requires h in s.handlers
  {
    Next(s.db, h, s.handlers[h], calls(s.handlers[h].pc)).hd == s.handlers[h]
  }

  /** A state after a sequence of events. */
  function Play(s: State, es: seq<Event>): State
    decreases |es|
  {
    if es == [] then s else Play(Apply(s, es[0]), es[1..])
  }

  lemma {:induction false} RunIsPlayed(users: nat, es: seq<Event>, more: seq<Event>)
    ensures Run(users, es + more) == Play(Run(users, es), more)
    decreases |more|
  {
    if more == [] {
      assert es + more == es;
    } else {
      RunAppend(users, es, more[0]);
      RunIsPlayed(users, es + [more[0]], more[1..]);
      assert es + [more[0]] + more[1..] == es + more;
    }
  }

  lemma {:induction false} ExecuteIsPlayed(s: State, h: HandlerId, calls: Calls) returns (more: seq<Event>)
    requires h in s.handlers
    ensures Play(s, more) == EndOf(s, h, calls)
    decreases 14 - Rank(s.handlers[h].pc)
  {
    if Standing(s, h, calls) {
      more := [];
      StandsStill(s, h, calls);
    } else {
      var e := Step(h, calls(s.handlers[h].pc));
      var t := Apply(s, e);
      MoveOn(s, h, calls);
      RanksBelow(t.handlers[h].pc);
      var rest := ExecuteIsPlayed(t, h, calls);
      more := [e] + rest;
      PlayOn(s, e, rest);
    }
  }

  lemma PlayOn(s: State, e: Event, rest: seq<Event>)
    ensures Play(s, [e] + rest) == Play(Apply(s, e), rest)
  {
    assert ([e] + rest)[1..] == rest;
  }

  /** Running alone is running: there are events that take the protocol through all these steps. */
  lemma ExecuteIsARun(users: nat, es: seq<Event>, h: HandlerId, calls: Calls) returns (more: seq<Event>)
    requires h in Run(users, es).handlers
    ensures Run(users, es + more) == EndOf(Run(users, es), h, calls)
  {
    more := ExecuteIsPlayed(Run(users, es), h, calls);
    RunIsPlayed(users, es, more);
  }

  lemma RanksBelow(pc: Pc)
    ensures Rank(pc) <= 14
  {
  }

  lemma StandsStill(s: State, h: HandlerId, calls: Calls)
    requires h in s.handlers && Next(s.db, h, s.handlers[h], calls(s.handlers[h].pc)).hd == s.handlers[h]
    ensures Moved(s, h, Execute(s.db, h, s.handlers[h], calls)) == s
  {
    assert s.handlers[h := s.handlers[h]] == s.handlers;
  }

  /** The handler's next statement waits for another transaction. */
  predicate Blocked(db: Db, h: HandlerId, hd: Handler, calls: Calls) { calls(hd.pc) == Works && Waiting(db, h, hd) }

  /** One step of a handler that does not wait. */
  lemma ExecuteStep(db: Db, h: HandlerId, hd: Handler, calls: Calls)
    requires Active(hd) && !Blocked(db, h, hd, calls)
    ensures var x := Next(db, h, hd, calls(hd.pc));
            Execute(db, h, hd, calls) == Execute(x.db, h, x.hd, calls)
  {
    NextGoesOn(db, h, hd, calls(hd.pc));
  }

  /** A handler that waits stays where it is. */
  lemma ExecuteWaits(db: Db, h: HandlerId, hd: Handler, calls: Calls)
    requires Active(hd) && Blocked(db, h, hd, calls)
    ensures Execute(db, h, hd, calls) == Effect(db, hd)
  {
    NextGoesOn(db, h, hd, calls(hd.pc));
  }

  lemma ExecuteNext(db: Db, h: HandlerId, hd: Handler, calls: Calls)
    requires Active(hd)
    ensures var x := Next(db, h, hd, calls(hd.pc));
            Execute(db, h, hd, calls) ==
              if Blocked(db, h, hd, calls) then Effect(db, hd) else Execute(x.db, h, x.hd, calls)
  {
    if Blocked(db, h, hd, calls) {
      ExecuteWaits(db, h, hd, calls);
    } else {
      ExecuteStep(db, h, hd, calls);
    }
  }

  lemma ExecuteEnds(db: Db, h: HandlerId, hd: Handler, calls: Calls)
    requires !Active(hd)
    ensures Execute(db, h, hd, calls) == Effect(db, hd)
  {
  }

  /** What a login by itself achieves when every call works and the user has a row. */
  lemma ReturningLogin(db: Db, h: HandlerId, user: string, raw: string, version: int, calls: Calls)
    requires user in db.rows && user != "" && CustomId.ValidUsername(TrimSpace(raw))
    requires forall pc :: calls(pc) == Works
    ensures var x := Execute(db, h, Admit(LoginRequest(user, raw, version)), calls);
            var row := db.rows[user];
            if version < row.maxVersion then
              && x.hd.pc == Done(Failure(VERSION_DOWNGRADE))
              && x.db == SetUsername(db, user, TrimSpace(raw))
            else
              var row' := Row(row.playerId, TrimSpace(raw), version);
              && x.hd.pc == Done(Success)
              && x.db == db.(rows := db.rows[user := row'], accounts := db.accounts[user := TrimSpace(raw)],
                             mirror := db.mirror[user := ToProfile(user, row')])
  {
    var hd := Admit(LoginRequest(user, raw, version));
    var row, name := db.rows[user], TrimSpace(raw);
    var db1 := SetUsername(db, user, name);
    assert db1.rows == db.rows[user := row.(username := name)];
    var gate := hd.(profile := ToProfile(user, row.(username := name)), pc := Gate);
    ExecuteStep(db, h, hd, calls);
    if row.username != name {
      ExecuteStep(db, h, hd.(profile := ToProfile(user, row), pc := Rename), calls);
    } else {
      assert db1 == db;
    }
    assert Execute(db, h, hd, calls) == Execute(db1, h, gate, calls);
    GateAlone(db1, h, gate, row.maxVersion, calls);
  }

  /** The rest of a returning login, from the version gate on. */
  lemma GateAlone(db: Db, h: HandlerId, hd: Handler, stored: int, calls: Calls)
    requires hd.pc == Gate && hd.kind == Login && !hd.created && hd.user in db.rows
    requires hd.profile == ToProfile(hd.user, db.rows[hd.user]) && db.rows[hd.user].maxVersion == stored
    requires forall pc :: calls(pc) == Works
    ensures var x := Execute(db, h, hd, calls);
            if hd.version < stored then x == Effect(db, Stop(hd, VERSION_DOWNGRADE))
            else
              var row' := db.rows[hd.user].(maxVersion := hd.version);
              && x.hd.pc == Done(Success)
              && x.db == db.(rows := db.rows[hd.user := row'], accounts := db.accounts[hd.user := hd.username],
                             mirror := db.mirror[hd.user := ToProfile(hd.user, row')])
  {
    ExecuteStep(db, h, hd, calls);
    if hd.version < stored {
      ExecuteEnds(db, h, Stop(hd, VERSION_DOWNGRADE), calls);
    } else {
      var db1 := SetVersion(db, hd.user, hd.version);
      var hd1 := hd.(profile := ToProfile(hd.user, db1.rows[hd.user]), pc := Account);
      if hd.version > stored {
        ExecuteStep(db, h, hd.(pc := WriteVersion), calls);
      } else {
        assert db1.rows == db.rows;
      }
      assert Execute(db, h, hd, calls) == Execute(db1, h, hd1, calls);
      PublishAlone(db1, h, hd1, calls);
    }
  }

  /** The last steps of a returning login. */
  lemma PublishAlone(db: Db, h: HandlerId, hd: Handler, calls: Calls)
    requires hd.pc == Account && !hd.created
    requires forall pc :: calls(pc) == Works
    ensures var x := Execute(db, h, hd, calls);
            && x.hd.pc == Done(Success)
            && x.db == db.(accounts := db.accounts[hd.user := hd.username], mirror := db.mirror[hd.user := hd.profile])
  {
    ExecuteStep(db, h, hd, calls);
    var db1 := db.(accounts := db.accounts[hd.user := hd.username]);
    ExecuteStep(db1, h, hd.(pc := Mirror), calls);
    var db2 := db1.(mirror := db.mirror[hd.user := hd.profile]);
    ExecuteStep(db2, h, hd.(pc := Notify), calls);
    ExecuteEnds(db2, h, hd.(pc := Done(Success)), calls);
  }

  /** The id the next profile gets: one more than the counter, which starts at the number of accounts. */
  function NextId(db: Db): nat { if db.sequence.Some? then db.sequence.value.next + 1 else db.users + 1 }

  function OriginOf(db: Db): nat { if db.sequence.Some? then db.sequence.value.origin else db.users }

  /** The database after user's profile has been created by handler h. */
  function WithProfile(db: Db, h: HandlerId, user: string, row: Row): Db {
    db.(sequence := Some(Sequence(OriginOf(db), row.playerId)), rows := db.rows[user := row],
        creator := db.creator[user := h])
  }

  /** The database with user's account and mirror brought up to date. */
  function Published(db: Db, user: string, username: string, profile: Profile): Db {
    db.(accounts := db.accounts[user := username], mirror := db.mirror[user := profile])
  }

  /** The database with one more grant issued to user, in effect unless the call was lost. */
  function Issued(db: Db, user: string, o: Outcome): Db {
    db.(grants := db.grants[user := Count(db.grants, user) + 1],
        credits := if o == Lost then db.credits else db.credits[user := Count(db.credits, user) + 1])
  }

  lemma GrantStep(db: Db, h: HandlerId, hd: Handler, o: Outcome)
    requires hd.pc == Grant
    ensures var after := hd.(grants := hd.grants + 1);
            Next(db, h, hd, o) ==
              Effect(Issued(db, hd.user, o), if o == Works then after.(pc := Notify) else Stop(after, INTERNAL))
  {
  }

  /** What a login by itself achieves when every call works and the user has no row yet. */
  lemma FirstLoginAlone(db: Db, h: HandlerId, user: string, raw: string, version: int, calls: Calls)
    requires db.lock.None? && user !in db.rows && user != "" && CustomId.ValidUsername(TrimSpace(raw))
    requires IdsAllocated(db.sequence, db.rows)
    requires forall pc :: calls(pc) == Works
    ensures var x := Execute(db, h, Admit(LoginRequest(user, raw, version)), calls);
            var row := Row(NextId(db), TrimSpace(raw), version);
            && x.hd.pc == Done(Success) && x.hd.created && x.hd.profile == ToProfile(user, row)
            && x.db == Issued(Published(WithProfile(db, h, user, row), user, TrimSpace(raw), ToProfile(user, row)),
                              user, Works)
  {
    var hd := Admit(LoginRequest(user, raw, version));
    var row := Row(NextId(db), TrimSpace(raw), version);
    BeginAlone(db, h, hd, calls);
    DrawAlone(db, h, hd.(pc := Seed), calls);
    WelcomeAlone(WithProfile(db, h, user, row), h,
                 hd.(profile := ToProfile(user, row), created := true, pc := Gate), calls);
  }

  lemma BeginAlone(db: Db, h: HandlerId, hd: Handler, calls: Calls)
    requires hd.pc == Load && hd.kind == Login && hd.user !in db.rows
    requires forall pc :: calls(pc) == Works
    ensures Execute(db, h, hd, calls) == Execute(db, h, hd.(pc := Seed), calls)
  {
    ExecuteStep(db, h, hd, calls);
    ExecuteStep(db, h, hd.(pc := Begin), calls);
  }

  /** The transaction, run by itself. */
  lemma DrawAlone(db: Db, h: HandlerId, hd: Handler, calls: Calls)
    requires db.lock.None? && hd.pc == Seed && hd.user !in db.rows && IdsAllocated(db.sequence, db.rows)
    requires forall pc :: calls(pc) == Works
    ensures var row := Row(NextId(db), hd.username, hd.version);
            Execute(db, h, hd, calls) ==
              Execute(WithProfile(db, h, hd.user, row), h,
                      hd.(profile := ToProfile(hd.user, row), created := true, pc := Gate), calls)
  {
    SeedAlone(db, h, hd, calls);
    InsertAlone(db, h, hd.(pc := Insert), calls);
  }

  function Drawn(db: Db, h: HandlerId): Tx { Tx(h, Sequence(OriginOf(db), NextId(db)), None) }

  lemma SeedAlone(db: Db, h: HandlerId, hd: Handler, calls: Calls)
    requires db.lock.None? && hd.pc == Seed
    requires forall pc :: calls(pc) == Works
    ensures Execute(db, h, hd, calls) == Execute(db.(lock := Some(Drawn(db, h))), h, hd.(pc := Insert), calls)
  {
    ExecuteStep(db, h, hd, calls);
    SeedWorks(db, h, hd);
    ExecuteStep(Seeded(db, h), h, hd.(pc := Bump), calls);
    BumpWorks(db, h, hd.(pc := Bump));
  }

  function Seeded(db: Db, h: HandlerId): Db {
    if db.sequence.None? then db.(lock := Some(Tx(h, Sequence(db.users, db.users), None))) else db
  }

  lemma SeedWorks(db: Db, h: HandlerId, hd: Handler)
    requires db.lock.None? && hd.pc == Seed
    ensures Next(db, h, hd, Works) == Effect(Seeded(db, h), hd.(pc := Bump))
  {
  }

  lemma BumpWorks(db: Db, h: HandlerId, hd: Handler)
    requires db.lock.None? && hd.pc == Bump
    ensures Next(Seeded(db, h), h, hd, Works) == Effect(db.(lock := Some(Drawn(db, h))), hd.(pc := Insert))
  {
  }

  lemma InsertAlone(db: Db, h: HandlerId, hd: Handler, calls: Calls)
    requires hd.pc == Insert && hd.user !in db.rows && IdsAllocated(db.sequence, db.rows) && db.lock.None?
    requires forall pc :: calls(pc) == Works
    ensures var row := Row(NextId(db), hd.username, hd.version);
            Execute(db.(lock := Some(Drawn(db, h))), h, hd, calls) ==
              Execute(WithProfile(db, h, hd.user, row), h,
                      hd.(profile := ToProfile(hd.user, row), created := true, pc := Gate), calls)
  {
    var inserted := db.(lock := Some(Inserted(db, h, hd)));
    ExecuteStep(db.(lock := Some(Drawn(db, h))), h, hd, calls);
    InsertWorks(db, h, hd);
    ExecuteStep(inserted, h, hd.(pc := Commit), calls);
    CommitWorks(db, h, hd.(pc := Commit));
  }

  function Inserted(db: Db, h: HandlerId, hd: Handler): Tx {
    Drawn(db, h).(row := Some(Row(NextId(db), hd.username, hd.version)))
  }

  lemma InsertWorks(db: Db, h: HandlerId, hd: Handler)
    requires hd.pc == Insert && hd.user !in db.rows && IdsAllocated(db.sequence, db.rows)
    ensures Next(db.(lock := Some(Drawn(db, h))), h, hd, Works)
         == Effect(db.(lock := Some(Inserted(db, h, hd))), hd.(pc := Commit))
  {
    assert !IdTaken(db, NextId(db));
    assert !IdTaken(db.(lock := Some(Drawn(db, h))), NextId(db));
  }

  lemma CommitWorks(db: Db, h: HandlerId, hd: Handler)
    requires hd.pc == Commit && db.lock.None?
    ensures var row := Row(NextId(db), hd.username, hd.version);
            Next(db.(lock := Some(Inserted(db, h, hd))), h, hd, Works)
              == Effect(WithProfile(db, h, hd.user, row),
                        hd.(profile := ToProfile(hd.user, row), created := true, pc := Gate))
  {
  }

  /** The rest of a first login. */
  lemma WelcomeAlone(db: Db, h: HandlerId, hd: Handler, calls: Calls)
    requires hd.pc == Gate && hd.kind == Login && hd.created && hd.profile.maxServerVersion == hd.version
    requires forall pc :: calls(pc) == Works
    ensures Execute(db, h, hd, calls) ==
              Effect(Issued(Published(db, hd.user, hd.username, hd.profile), hd.user, Works),
                     hd.(pc := Done(Success), grants := hd.grants + 1))
  {
    GateFirst(db, h, hd, calls);
    PublishFirst(db, h, hd.(pc := Account), calls);
    GrantAlone(Published(db, hd.user, hd.username, hd.profile), h, hd.(pc := Grant), calls);
  }

  lemma GateFirst(db: Db, h: HandlerId, hd: Handler, calls: Calls)
    requires hd.pc == Gate && hd.kind == Login && hd.profile.maxServerVersion == hd.version
    ensures Execute(db, h, hd, calls) == Execute(db, h, hd.(pc := Account), calls)
  {
    ExecuteStep(db, h, hd, calls);
  }

  lemma PublishFirst(db: Db, h: HandlerId, hd: Handler, calls: Calls)
    requires hd.pc == Account && hd.created
    requires forall pc :: calls(pc) == Works
    ensures Execute(db, h, hd, calls) ==
              Execute(Published(db, hd.user, hd.username, hd.profile), h, hd.(pc := Grant), calls)
  {
    ExecuteStep(db, h, hd, calls);
    ExecuteStep(db.(accounts := db.accounts[hd.user := hd.username]), h, hd.(pc := Mirror), calls);
  }

  lemma GrantAlone(db: Db, h: HandlerId, hd: Handler, calls: Calls)
    requires hd.pc == Grant
    requires forall pc :: calls(pc) == Works
    ensures Execute(db, h, hd, calls) ==
              Effect(Issued(db, hd.user, Works), hd.(pc := Done(Success), grants := hd.grants + 1))
  {
    var notify := hd.(grants := hd.grants + 1).(pc := Notify);
    ExecuteStep(db, h, hd, calls);
    GrantStep(db, h, hd, Works);
    ExecuteStep(Issued(db, hd.user, Works), h, notify, calls);
    ExecuteEnds(Issued(db, hd.user, Works), h, notify.(pc := Done(Success)), calls);
  }

  /******* Calls that fail *******/

  /** How many grants to user an execution issued, and how many of them took effect. */
  predicate Grants(db: Db, x: Effect, user: string, issued: nat, credited: nat) {
    && Count(x.db.grants, user) == Count(db.grants, user) + issued
    && Count(x.db.credits, user) == Count(db.credits, user) + credited
  }

  /** The statements that have to work for a row to be drawn and inserted. */
  predicate Draws(calls: Calls) {
    && calls(Load) == Works && calls(Begin) == Works && calls(Seed) == Works && calls(Bump) == Works
    && calls(Insert) == Works
  }

  /** The calls that have to work between the insert and the grant. */
  predicate ReachesGrant(calls: Calls) {
    calls(Commit) == Works && calls(Account) == Works && calls(Mirror) == Works
  }

  /**
   What a login by itself achieves when the user has no row yet, whatever its calls do: there is a row afterwards
   exactly when the statements of the transaction worked and the commit was not lost; given the row, the grant is
   issued exactly when commit, account update and mirror write were all reported as done, and takes effect exactly
   when moreover the wallet call was not lost.
   */
  lemma FirstLoginExactly(db: Db, h: HandlerId, user: string, raw: string, version: int, calls: Calls)
    requires db.lock.None? && user !in db.rows && user != "" && CustomId.ValidUsername(TrimSpace(raw))
    requires IdsAllocated(db.sequence, db.rows)
    ensures var x := Execute(db, h, Admit(LoginRequest(user, raw, version)), calls);
            && (user in x.db.rows <==> Draws(calls) && calls(Commit) != Lost)
            && Grants(db, x, user, One(user in x.db.rows && ReachesGrant(calls)),
                      One(user in x.db.rows && ReachesGrant(calls) && calls(Grant) != Lost))
  {
    var hd := Admit(LoginRequest(user, raw, version));
    ExecuteStep(db, h, hd, calls);
    if calls(Load) == Works {
      DrawExactly(db, h, hd.(pc := Begin), calls);
    } else {
      ExecuteEnds(db, h, Stop(hd, INTERNAL), calls);
    }
  }

  lemma DrawExactly(db: Db, h: HandlerId, hd: Handler, calls: Calls)
    requires db.lock.None? && hd.user !in db.rows && IdsAllocated(db.sequence, db.rows)
    requires hd.pc == Begin && hd.kind == Login
    requires calls(Load) == Works
    ensures FirstOutcome(db, Execute(db, h, hd, calls), hd.user, calls)
  {
    ExecuteStep(db, h, hd, calls);
    if calls(Begin) != Works {
      ExecuteEnds(db, h, Stop(hd, INTERNAL), calls);
    } else {
      SeedExactly(db, h, hd.(pc := Seed), calls);
    }
  }

  ghost predicate FirstOutcome(db: Db, x: Effect, user: string, calls: Calls) {
    var created := Draws(calls) && calls(Commit) != Lost;
    && (user in x.db.rows <==> created)
    && Grants(db, x, user, One(created && ReachesGrant(calls)),
              One(created && ReachesGrant(calls) && calls(Grant) != Lost))
  }

  lemma SeedExactly(db: Db, h: HandlerId, hd: Handler, calls: Calls)
    requires db.lock.None? && hd.user !in db.rows && IdsAllocated(db.sequence, db.rows)
    requires hd.pc == Seed && hd.kind == Login
    requires calls(Load) == Works && calls(Begin) == Works
    ensures FirstOutcome(db, Execute(db, h, hd, calls), hd.user, calls)
  {
    ExecuteStep(db, h, hd, calls);
    if calls(Seed) != Works {
      ExecuteEnds(db, h, Stop(hd, INTERNAL), calls);
    } else {
      SeedWorks(db, h, hd);
      BumpExactly(db, h, hd.(pc := Bump), calls);
    }
  }

  lemma BumpExactly(db: Db, h: HandlerId, hd: Handler, calls: Calls)
    requires db.lock.None? && hd.user !in db.rows && IdsAllocated(db.sequence, db.rows)
    requires hd.pc == Bump && hd.kind == Login
    requires calls(Load) == Works && calls(Begin) == Works && calls(Seed) == Works
    ensures FirstOutcome(db, Execute(Seeded(db, h), h, hd, calls), hd.user, calls)
  {
    ExecuteStep(Seeded(db, h), h, hd, calls);
    if calls(Bump) != Works {
      ExecuteEnds(db, h, Stop(hd, INTERNAL), calls);
      assert Rollback(Seeded(db, h), h) == db;
    } else {
      BumpWorks(db, h, hd);
      InsertExactly(db, h, hd.(pc := Insert), calls);
    }
  }

  lemma InsertExactly(db: Db, h: HandlerId, hd: Handler, calls: Calls)
    requires db.lock.None? && hd.user !in db.rows && IdsAllocated(db.sequence, db.rows)
    requires hd.pc == Insert && hd.kind == Login
    requires calls(Load) == Works && calls(Begin) == Works && calls(Seed) == Works && calls(Bump) == Works
    ensures FirstOutcome(db, Execute(db.(lock := Some(Drawn(db, h))), h, hd, calls), hd.user, calls)
  {
    var drawn := db.(lock := Some(Drawn(db, h)));
    ExecuteStep(drawn, h, hd, calls);
    if calls(Insert) != Works {
      ExecuteEnds(db, h, Stop(hd, INTERNAL), calls);
      assert Rollback(drawn, h) == db;
    } else {
      InsertWorks(db, h, hd);
      CommitExactly(db, h, hd.(pc := Commit), calls);
    }
  }

  lemma CommitExactly(db: Db, h: HandlerId, hd: Handler, calls: Calls)
    requires db.lock.None? && hd.pc == Commit && hd.kind == Login && hd.user !in db.rows && Draws(calls)
    ensures FirstOutcome(db, Execute(db.(lock := Some(Inserted(db, h, hd))), h, hd, calls), hd.user, calls)
  {
    ExecuteStep(db.(lock := Some(Inserted(db, h, hd))), h, hd, calls);
    if calls(Commit) == Works {
      CommitWorks(db, h, hd);
      CommittedExactly(db, h, hd, calls);
    } else {
      CommitBreaks(db, h, hd, calls(Commit));
      BrokenExactly(db, h, hd, calls);
    }
  }

  lemma CommittedExactly(db: Db, h: HandlerId, hd: Handler, calls: Calls)
    requires hd.kind == Login && Draws(calls) && calls(Commit) == Works
    ensures var row := Row(NextId(db), hd.username, hd.version);
            var x := Execute(WithProfile(db, h, hd.user, row), h,
                             hd.(profile := ToProfile(hd.user, row), created := true, pc := Gate), calls);
            FirstOutcome(db, x, hd.user, calls)
  {
    var row := Row(NextId(db), hd.username, hd.version);
    WelcomeExactly(WithProfile(db, h, hd.user, row), h,
                   hd.(profile := ToProfile(hd.user, row), created := true, pc := Gate), calls);
  }

  lemma BrokenExactly(db: Db, h: HandlerId, hd: Handler, calls: Calls)
    requires hd.user !in db.rows && Draws(calls) && calls(Commit) != Works
    ensures var row := Row(NextId(db), hd.username, hd.version);
            var left := if calls(Commit) == Lost then db else WithProfile(db, h, hd.user, row);
            FirstOutcome(db, Execute(left, h, Stop(hd, INTERNAL), calls), hd.user, calls)
  {
    var row := Row(NextId(db), hd.username, hd.version);
    ExecuteEnds(if calls(Commit) == Lost then db else WithProfile(db, h, hd.user, row), h, Stop(hd, INTERNAL), calls);
  }

  lemma CommitBreaks(db: Db, h: HandlerId, hd: Handler, o: Outcome)
    requires hd.pc == Commit && db.lock.None? && o != Works
    ensures var row := Row(NextId(db), hd.username, hd.version);
            Next(db.(lock := Some(Inserted(db, h, hd))), h, hd, o) ==
              Effect(if o == Lost then db else WithProfile(db, h, hd.user, row), Stop(hd, INTERNAL))
  {
  }

  lemma WelcomeExactly(db: Db, h: HandlerId, hd: Handler, calls: Calls)
    requires hd.pc == Gate && hd.kind == Login && hd.created && hd.profile.maxServerVersion == hd.version
    ensures WelcomeOutcome(db, Execute(db, h, hd, calls), hd.user, calls)
  {
    ExecuteStep(db, h, hd, calls);
    AccountExactly(db, h, hd.(pc := Account), calls);
  }

  predicate WelcomeOutcome(db: Db, x: Effect, user: string, calls: Calls) {
    var issued := calls(Account) == Works && calls(Mirror) == Works;
    x.db.rows == db.rows && Grants(db, x, user, One(issued), One(issued && calls(Grant) != Lost))
  }

  lemma AccountExactly(db: Db, h: HandlerId, hd: Handler, calls: Calls)
    requires hd.pc == Account && hd.created
    ensures WelcomeOutcome(db, Execute(db, h, hd, calls), hd.user, calls)
  {
    ExecuteStep(db, h, hd, calls);
    var x := Next(db, h, hd, calls(Account));
    if calls(Account) == Works {
      MirrorExactly(x.db, h, x.hd, calls);
    } else {
      ExecuteEnds(x.db, h, x.hd, calls);
    }
  }

  lemma MirrorExactly(db: Db, h: HandlerId, hd: Handler, calls: Calls)
    requires hd.pc == Mirror && hd.created && calls(Account) == Works
    ensures WelcomeOutcome(db, Execute(db, h, hd, calls), hd.user, calls)
  {
    ExecuteStep(db, h, hd, calls);
    var x := Next(db, h, hd, calls(Mirror));
    if calls(Mirror) == Works {
      GrantExactly(x.db, h, x.hd, calls);
    } else {
      ExecuteEnds(x.db, h, x.hd, calls);
    }
  }

  lemma GrantExactly(db: Db, h: HandlerId, hd: Handler, calls: Calls)
    requires hd.pc == Grant && calls(Account) == Works && calls(Mirror) == Works
    ensures WelcomeOutcome(db, Execute(db, h, hd, calls), hd.user, calls)
  {
    var issued, after := Issued(db, hd.user, calls(Grant)), hd.(grants := hd.grants + 1);
    ExecuteStep(db, h, hd, calls);
    GrantStep(db, h, hd, calls(Grant));
    if calls(Grant) == Works {
      NotifyAlone(issued, h, after.(pc := Notify), calls);
    } else {
      ExecuteEnds(issued, h, Stop(after, INTERNAL), calls);
    }
  }

  lemma NotifyAlone(db: Db, h: HandlerId, hd: Handler, calls: Calls)
    requires hd.pc == Notify
    ensures Execute(db, h, hd, calls).db == db
  {
    ExecuteStep(db, h, hd, calls);
    ExecuteEnds(db, h, Finish(hd, calls(Notify)), calls);
  }
}
