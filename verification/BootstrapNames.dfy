/** User names over every run: what is stored is a name, and a login under anything else is turned away. */
module BootstrapNames {
  import opened Options
  import opened Text
  import opened Spelling
  import opened Bootstrap
  import opened BootstrapInvariant
  import opened BootstrapProofs
  import opened BootstrapTheorems
  import CustomId

  /** Every stored user name has 3 to 24 characters, all letters, digits, underscores or hyphens. */
  ghost predicate NamesAreGood(db: Db) {
    && (forall u | u in db.rows :: IsUserName(db.rows[u].username))
    && (forall u | u in db.accounts :: IsUserName(db.accounts[u]))
    && (forall u | u in db.mirror :: IsUserName(db.mirror[u].username))
    && (db.lock.Some? && db.lock.value.row.Some? ==> IsUserName(db.lock.value.row.value.username))
  }

  /** A login under way has a good name, and so has a profile in hand. */
  predicate HandlerIsNamed(hd: Handler) {
    && (hd.kind == Login && Active(hd) ==> IsUserName(hd.username))
    && (HoldsProfile(hd.pc) ==> IsUserName(hd.profile.username))
  }

  ghost predicate AllNamed(s: State) {
    NamesAreGood(s.db) && forall h | h in s.handlers :: HandlerIsNamed(s.handlers[h])
  }

  lemma NameSpelled(s: string)
    ensures CustomId.ValidUsername(s) <==> IsUserName(s)
  {
    forall i | 0 <= i < |s|
      ensures CustomId.IsNameChar(s[i]) <==>
        'A' <= s[i] <= 'Z' || 'a' <= s[i] <= 'z' || '0' <= s[i] <= '9' || s[i] == '_' || s[i] == '-'
    {
    }
  }

  lemma TxStepIsNamed(db: Db, h: HandlerId, hd: Handler, o: Outcome)
    requires hd.pc == Seed || hd.pc == Bump || hd.pc == Insert
    requires NamesAreGood(db) && HandlerIsNamed(hd) && hd.kind == Login
    ensures var x := Next(db, h, hd, o); NamesAreGood(x.db) && HandlerIsNamed(x.hd)
  {
    TxStepIsPrivate(db, h, hd, o);
    match hd.pc
    case Seed => SeedNamesNothing(db, h, hd, o);
    case Bump => BumpNamesNothing(db, h, hd, o);
    case Insert => InsertNames(db, h, hd, o);
  }

  predicate LockIsNamed(lock: Option<Tx>) {
    lock.Some? && lock.value.row.Some? ==> IsUserName(lock.value.row.value.username)
  }

  lemma SeedNamesNothing(db: Db, h: HandlerId, hd: Handler, o: Outcome)
    requires LockIsNamed(db.lock)
    ensures LockIsNamed(SeedSequence(db, h, hd, o).db.lock)
  {
  }

  lemma BumpNamesNothing(db: Db, h: HandlerId, hd: Handler, o: Outcome)
    requires LockIsNamed(db.lock)
    ensures LockIsNamed(BumpSequence(db, h, hd, o).db.lock)
  {
  }

  lemma InsertNames(db: Db, h: HandlerId, hd: Handler, o: Outcome)
    requires LockIsNamed(db.lock) && IsUserName(hd.username)
    ensures LockIsNamed(InsertRow(db, h, hd, o).db.lock)
  {
  }

  lemma CommitIsNamed(db: Db, h: HandlerId, hd: Handler, o: Outcome)
    requires hd.pc == Commit && NamesAreGood(db) && HandlerIsNamed(hd)
    ensures var x := CommitTx(db, h, hd, o); NamesAreGood(x.db) && HandlerIsNamed(x.hd)
  {
    CommitCases(db, h, hd, o);
  }

  lemma RowStepIsNamed(db: Db, hd: Handler, o: Outcome)
    requires hd.pc == Rename || hd.pc == WriteVersion
    requires NamesAreGood(db) && HandlerIsNamed(hd) && (hd.pc == Rename ==> hd.kind == Login)
    ensures hd.pc == Rename ==> var x := RenameRow(db, hd, o); NamesAreGood(x.db) && HandlerIsNamed(x.hd)
    ensures hd.pc == WriteVersion ==> var x := StoreVersion(db, hd, o); NamesAreGood(x.db) && HandlerIsNamed(x.hd)
  {
  }

  lemma CallIsNamed(db: Db, h: HandlerId, hd: Handler, o: Outcome)
    requires hd.pc == Account || hd.pc == Mirror || hd.pc == Grant
    requires NamesAreGood(db) && HandlerIsNamed(hd) && hd.kind == Login
    ensures var x := Next(db, h, hd, o); NamesAreGood(x.db) && HandlerIsNamed(x.hd)
  {
  }

  lemma StepIsNamed(db: Db, h: HandlerId, hd: Handler, o: Outcome)
    requires LocalInv(hd) && NamesAreGood(db) && HandlerIsNamed(hd)
    ensures var x := Next(db, h, hd, o); NamesAreGood(x.db) && HandlerIsNamed(x.hd)
  {
    match hd.pc
    case Seed | Bump | Insert => TxStepIsNamed(db, h, hd, o);
    case Commit => CommitIsNamed(db, h, hd, o);
    case Rename | WriteVersion => RowStepIsNamed(db, hd, o);
    case Account | Mirror | Grant => CallIsNamed(db, h, hd, o);
    case _ => OnlyLocals(db, h, hd, o);
  }

  lemma EventIsNamed(s: State, e: Event)
    requires Inv(s) && AllNamed(s)
    ensures AllNamed(Apply(s, e))
  {
    match e
    case Step(h, o) =>
      if h in s.handlers {
        assert HandlerInv(s.db, h, s.handlers[h]);
        StepIsNamed(s.db, h, s.handlers[h], o);
      }
    case Start(h, req) => AdmittedIsNamed(req);
    case Crash(h) =>
    case Accounts(count) =>
  }

  lemma AdmittedIsNamed(req: Request)
    ensures HandlerIsNamed(Admit(req))
  {
    if req.LoginRequest? {
      NameSpelled(TrimSpace(req.rawUsername));
    }
  }

  /** Over every run, every stored user name is one. */
  lemma {:induction false} StoredNamesAreGood(users: nat, es: seq<Event>)
    ensures AllNamed(Run(users, es))
  {
    if es != [] {
      var most := es[..|es| - 1];
      StoredNamesAreGood(users, most);
      RunKeepsInv(users, most);
      EventIsNamed(Run(users, most), es[|es| - 1]);
    }
  }

  /******* Answers *******/

  /** The codes a handler can end with: 13 for a failing call, 9 for the version, 5 for a request without a profile. */
  predicate AnswersAreKnown(hd: Handler) {
    match hd.pc
    case Done(Failure(code)) =>
      || code == 13 || code == 9
      || (code == 5 && hd.kind == GetProfile)
      || (code == 3 && hd.kind == Login && hd.user != "" && !IsUserName(hd.username))
    case _ => true
  }

  lemma AdmittedAnswersAreKnown(req: Request)
    ensures AnswersAreKnown(Admit(req))
    ensures req.LoginRequest? && req.user != "" ==>
              (Admit(req).pc == Done(Failure(3)) <==> !IsUserName(TrimSpace(req.rawUsername)))
    ensures Admit(req).user == req.user && (req.LoginRequest? <==> Admit(req).kind == Login)
    ensures req.LoginRequest? ==> Admit(req).username == TrimSpace(req.rawUsername)
    ensures Admit(req).pc == Load || Admit(req).pc.Done?
    ensures req.user == "" ==> Admit(req).pc == Done(Failure(13))
  {
    if req.LoginRequest? {
      NameSpelled(TrimSpace(req.rawUsername));
    }
  }

  /** A handler under way never ends with code 3. */
  lemma StepAnswers(db: Db, h: HandlerId, hd: Handler, o: Outcome)
    requires Active(hd)
    ensures AnswersAreKnown(Next(db, h, hd, o).hd) && Next(db, h, hd, o).hd.pc != Done(Failure(3))
  {
    match hd.pc
    case Seed | Bump | Insert => TxStepIsPrivate(db, h, hd, o);
    case Commit => CommitAnswers(db, h, hd, o);
    case _ =>
  }

  lemma CommitAnswers(db: Db, h: HandlerId, hd: Handler, o: Outcome)
    requires hd.pc == Commit
    ensures var pc := CommitTx(db, h, hd, o).hd.pc; pc == Gate || pc == Done(Failure(13))
  {
  }

  ghost predicate AllAnswersAreKnown(s: State) {
    forall h | h in s.handlers :: AnswersAreKnown(s.handlers[h]) && TurnedAwayExactly(s.handlers[h])
  }

  /** A login with a user is turned away with code 3 exactly when its name is none. */
  predicate TurnedAwayExactly(hd: Handler) {
    hd.kind == Login && hd.user != "" ==> (hd.pc == Done(Failure(3)) <==> !IsUserName(hd.username))
  }

  lemma EventAnswers(s: State, e: Event)
    requires AllAnswersAreKnown(s)
    ensures AllAnswersAreKnown(Apply(s, e))
  {
    match e
    case Step(h, o) =>
      if h in s.handlers && Active(s.handlers[h]) {
        StepAnswers(s.db, h, s.handlers[h], o);
        NextServesSame(s.db, h, s.handlers[h], o);
      }
    case Start(h, req) => AdmittedAnswersAreKnown(req);
    case Crash(h) =>
    case Accounts(count) =>
  }

  /** Over every run, a login is turned away with code 3 exactly for its name, and other answers are 5, 9 and 13. */
  lemma {:induction false} AnswersAreKnownInRuns(users: nat, es: seq<Event>)
    ensures AllAnswersAreKnown(Run(users, es))
  {
    if es != [] {
      AnswersAreKnownInRuns(users, es[..|es| - 1]);
      EventAnswers(Run(users, es[..|es| - 1]), es[|es| - 1]);
    }
  }

  /** A login turned away for its name changes nothing, when it starts and whenever it is stepped. */
  lemma TurnedAwayChangesNothing(s: State, h: HandlerId, raw: string, user: string, version: int, o: Outcome)
    requires h !in s.handlers && user != "" && !IsUserName(TrimSpace(raw)) && version > 0
    ensures var t := Apply(s, Start(h, LoginRequest(user, raw, version)));
            && t.db == s.db && h in t.handlers && t.handlers[h].pc == Done(Failure(3))
            && Apply(t, Step(h, o)).db == s.db
  {
    AdmittedAnswersAreKnown(LoginRequest(user, raw, version));
  }
}
