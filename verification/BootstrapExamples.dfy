/** Runs that show what the bootstrap protocol does not promise. */
module BootstrapExamples {
  import opened Options
  import opened Text
  import opened Bootstrap
  import opened BootstrapInvariant
  import opened BootstrapTheorems
  import opened BootstrapAlone
  import CustomId

  /** Handler 0, a first login of user "u" as "abc" on a server of version 1, up to and including its commit. */
  function FirstLogin(commit: Outcome): seq<Event> {
    [Start(0, LoginRequest("u", "abc", 1)), Step(0, Works), Step(0, Works), Step(0, Works), Step(0, Works),
     Step(0, Works), Step(0, commit)]
  }

  const DB_AFTER_FIRST_LOGIN := Db(1, Some(Sequence(1, 2)), map["u" := Row(2, "abc", 1)], None,
                                map[], map[], map[], map[], map["u" := 0])

  lemma NameIsValid()
    ensures TrimSpace("abc") == "abc" && CustomId.ValidUsername("abc")
  {
    TrimKeeps("abc", IsSpace);
  }

  /** The first login on its way, with what its transaction holds. */
  function OnTheWay(lock: Option<Tx>, pc: Pc): State {
    State(Db(1, None, map[], lock, map[], map[], map[], map[], map[]),
          map[0 := Handler(Login, "u", "abc", 1, pc, NO_PROFILE, false, 0)])
  }

  lemma FirstLoginLoads()
    ensures Apply(Apply(Apply(Run(1, []), Start(0, LoginRequest("u", "abc", 1))), Step(0, Works)), Step(0, Works))
         == OnTheWay(None, Seed)
  {
    NameIsValid();
    assert Apply(Run(1, []), Start(0, LoginRequest("u", "abc", 1))) == OnTheWay(None, Load);
    assert Apply(OnTheWay(None, Load), Step(0, Works)) == OnTheWay(None, Begin);
  }

  lemma FirstLoginDraws()
    ensures Apply(Apply(OnTheWay(None, Seed), Step(0, Works)), Step(0, Works))
         == OnTheWay(Some(Tx(0, Sequence(1, 2), None)), Insert)
  {
    assert Apply(OnTheWay(None, Seed), Step(0, Works)) == OnTheWay(Some(Tx(0, Sequence(1, 1), None)), Bump);
  }

  lemma FirstLoginInserts()
    ensures Apply(OnTheWay(Some(Tx(0, Sequence(1, 2), None)), Insert), Step(0, Works))
         == OnTheWay(Some(Tx(0, Sequence(1, 2), Some(Row(2, "abc", 1)))), Commit)
  {
  }

  lemma FirstLoginEnds()
    ensures Apply(OnTheWay(Some(Tx(0, Sequence(1, 2), Some(Row(2, "abc", 1)))), Commit), Step(0, Works))
         == State(DB_AFTER_FIRST_LOGIN,
                  map[0 := Handler(Login, "u", "abc", 1, Gate, ToProfile("u", Row(2, "abc", 1)), true, 0)])
  {
  }

  lemma FirstLoginCommits()
    ensures var s := Run(1, FirstLogin(Works));
            && s.db == DB_AFTER_FIRST_LOGIN
            && s.handlers.Keys == {0}
            && s.handlers[0] == Handler(Login, "u", "abc", 1, Gate, ToProfile("u", Row(2, "abc", 1)), true, 0)
  {
    FirstLoginIsPlayed(Works);
    FirstLoginLoads();
    FirstLoginDraws();
    FirstLoginInserts();
    FirstLoginEnds();
  }

  lemma FirstLoginIsPlayed(c: Outcome)
    ensures Run(1, FirstLogin(c)) ==
      Apply(Apply(Apply(Apply(Apply(Apply(Apply(Run(1, []), Start(0, LoginRequest("u", "abc", 1))), Step(0, Works)),
        Step(0, Works)), Step(0, Works)), Step(0, Works)), Step(0, Works)), Step(0, c))
  {
    var es := FirstLogin(c);
    assert es[..0] == [] && es[..7] == es;
    RunSnoc(1, es, 0); RunSnoc(1, es, 1); RunSnoc(1, es, 2); RunSnoc(1, es, 3);
    RunSnoc(1, es, 4); RunSnoc(1, es, 5); RunSnoc(1, es, 6);
  }

  /** A profile request of user "u" on a server of the given version, up to the point where it stores that version. */
  function RequestUpToStore(h: HandlerId, version: int): seq<Event> {
    [Start(h, ProfileRequest("u", version)), Step(h, Works), Step(h, Works)]
  }

  lemma RunAppend3(users: nat, es: seq<Event>, a: Event, b: Event, c: Event)
    ensures Run(users, es + [a, b, c]) == Apply(Apply(Apply(Run(users, es), a), b), c)
  {
    RunIsPlayed(users, es, [a, b, c]);
    var s := Run(users, es);
    assert [a, b, c] == [a] + [b, c] && [b, c] == [b] + [c] && [c] == [c] + [];
    PlayOn(s, a, [b, c]);
    PlayOn(Apply(s, a), b, [c]);
    PlayOn(Apply(Apply(s, a), b), c, []);
  }

  /** A request for the profile of "u" that stands at the given place, with the row in hand. */
  function Requesting(s: State, h: HandlerId, version: int, pc: Pc): State
    requires "u" in s.db.rows
  {
    State(s.db, s.handlers[h := Handler(GetProfile, "u", "", version, pc, ToProfile("u", s.db.rows["u"]), false, 0)])
  }

  lemma RequestLoads(s: State, h: HandlerId, version: int)
    requires h !in s.handlers && "u" in s.db.rows && 0 < version
    ensures Apply(Apply(s, Start(h, ProfileRequest("u", version))), Step(h, Works)) == Requesting(s, h, version, Gate)
  {
    var s1 := Apply(s, Start(h, ProfileRequest("u", version)));
    assert s1.handlers[h].pc == Load;
    assert Apply(s1, Step(h, Works)).handlers == Requesting(s, h, version, Gate).handlers;
  }

  lemma RequestPasses(s: State, h: HandlerId, version: int)
    requires "u" in s.db.rows && s.db.rows["u"].maxVersion < version
    ensures Apply(Requesting(s, h, version, Gate), Step(h, Works)) == Requesting(s, h, version, WriteVersion)
  {
    assert Apply(Requesting(s, h, version, Gate), Step(h, Works)).handlers
        == Requesting(s, h, version, WriteVersion).handlers;
  }

  lemma RequestRuns(es: seq<Event>, h: HandlerId, version: int)
    requires var s := Run(1, es);
             h !in s.handlers && "u" in s.db.rows && 0 < version && s.db.rows["u"].maxVersion < version
    ensures Run(1, es + RequestUpToStore(h, version)) == Requesting(Run(1, es), h, version, WriteVersion)
  {
    RunAppend3(1, es, Start(h, ProfileRequest("u", version)), Step(h, Works), Step(h, Works));
    RequestLoads(Run(1, es), h, version);
    RequestPasses(Run(1, es), h, version);
  }

  /** Handler 1 on version 2 has read version 1; handler 2 has meanwhile stored version 3. */
  function OverlappingRequests(): seq<Event> {
    FirstLogin(Works) + RequestUpToStore(1, 2) + RequestUpToStore(2, 3) + [Step(2, Works)]
  }

  /** With overlapping handlers the stored version can go down: the slower, lower server writes last. */
  lemma VersionCanDrop()
    ensures var s := Run(1, OverlappingRequests());
            && "u" in s.db.rows && "u" in Apply(s, Step(1, Works)).db.rows
            && Apply(s, Step(1, Works)).db.rows["u"].maxVersion < s.db.rows["u"].maxVersion
  {
    FirstLoginCommits();
    RequestRuns(FirstLogin(Works), 1, 2);
    RequestRuns(FirstLogin(Works) + RequestUpToStore(1, 2), 2, 3);
    var es := FirstLogin(Works) + RequestUpToStore(1, 2) + RequestUpToStore(2, 3);
    RunAppend(1, es, Step(2, Works));
    Stores(Run(1, es), 2);
    Stores(Run(1, OverlappingRequests()), 1);
  }

  lemma Stores(s: State, h: HandlerId)
    requires h in s.handlers && s.handlers[h].pc == WriteVersion && s.handlers[h].user == "u" && "u" in s.db.rows
    ensures var t := Apply(s, Step(h, Works));
            && "u" in t.db.rows && t.db.rows["u"].maxVersion == s.handlers[h].version
            && forall g | g in s.handlers && g != h :: g in t.handlers && t.handlers[g] == s.handlers[g]
  {
  }

  /** A request on version 2 is served, and then a login under a new name comes in on version 1. */
  function LateRename(): seq<Event> {
    FirstLogin(Works) + RequestUpToStore(1, 2) + [Step(1, Works)]
    + [Start(2, LoginRequest("u", "xyz", 1)), Step(2, Works), Step(2, Works)]
  }

  /** A login refused for its version may already have changed the user's name. */
  lemma RefusedLoginCanRename()
    ensures var s := Apply(Run(1, LateRename()), Step(2, Works));
            && 2 in s.handlers && s.handlers[2].pc == Done(Failure(VERSION_DOWNGRADE))
            && "u" in s.db.rows && s.db.rows["u"].username == "xyz"
  {
    var es := FirstLogin(Works) + RequestUpToStore(1, 2) + [Step(1, Works)];
    VersionTwoIsStored();
    RunAppend3(1, es, Start(2, LoginRequest("u", "xyz", 1)), Step(2, Works), Step(2, Works));
    RenamedThenRefused(Run(1, es));
    GateRefuses(Run(1, LateRename()));
  }

  lemma VersionTwoIsStored()
    ensures var s := Run(1, FirstLogin(Works) + RequestUpToStore(1, 2) + [Step(1, Works)]);
            2 !in s.handlers && "u" in s.db.rows && s.db.rows["u"] == Row(2, "abc", 2)
  {
    FirstLoginCommits();
    RequestRuns(FirstLogin(Works), 1, 2);
    RunAppend(1, FirstLogin(Works) + RequestUpToStore(1, 2), Step(1, Works));
  }

  lemma GateRefuses(s: State)
    requires 2 in s.handlers && s.handlers[2].pc == Gate && s.handlers[2].version == 1
    requires s.handlers[2].profile.maxServerVersion == 2
    ensures var t := Apply(s, Step(2, Works));
            && 2 in t.handlers && t.handlers[2].pc == Done(Failure(VERSION_DOWNGRADE)) && t.db == s.db
  {
  }

  /** A login of "u" as "xyz" on version 1 stands at the given place, in a database with the given row. */
  predicate LateLogin(s: State, pc: Pc, row: Row, profile: Profile) {
    && 2 in s.handlers && s.handlers[2] == Handler(Login, "u", "xyz", 1, pc, profile, false, 0)
    && "u" in s.db.rows && s.db.rows["u"] == row
  }

  lemma LateLoginLoads(s: State)
    requires 2 !in s.handlers && "u" in s.db.rows && s.db.rows["u"] == Row(2, "abc", 2)
    ensures var t := Apply(Apply(s, Start(2, LoginRequest("u", "xyz", 1))), Step(2, Works));
            LateLogin(t, Rename, Row(2, "abc", 2), ToProfile("u", Row(2, "abc", 2)))
  {
    TrimKeeps("xyz", IsSpace);
    var s1 := Apply(s, Start(2, LoginRequest("u", "xyz", 1)));
    assert s1.handlers[2].pc == Load;
  }

  lemma RenamedThenRefused(s: State)
    requires 2 !in s.handlers && "u" in s.db.rows && s.db.rows["u"] == Row(2, "abc", 2)
    ensures var t := Apply(Apply(Apply(s, Start(2, LoginRequest("u", "xyz", 1))), Step(2, Works)), Step(2, Works));
            && 2 in t.handlers && t.handlers[2].pc == Gate && t.handlers[2].version == 1
            && t.handlers[2].profile.maxServerVersion == 2
            && "u" in t.db.rows && t.db.rows["u"] == Row(2, "xyz", 2)
  {
    LateLoginLoads(s);
    LateLoginRenames(Apply(Apply(s, Start(2, LoginRequest("u", "xyz", 1))), Step(2, Works)));
  }

  lemma LateLoginRenames(s: State)
    requires LateLogin(s, Rename, Row(2, "abc", 2), ToProfile("u", Row(2, "abc", 2)))
    ensures LateLogin(Apply(s, Step(2, Works)), Gate, Row(2, "xyz", 2), ToProfile("u", Row(2, "xyz", 2)))
  {
  }

  /**
   The grant is not exactly-once: if the handler dies after its commit, the profile exists and no later login
   of that user, however many there are, brings the grant.
   */
  lemma GrantCanBeLostForGood(more: seq<Event>)
    ensures var s := Run(1, FirstLogin(Works) + [Crash(0)] + more);
            "u" in s.db.rows && Count(s.db.grants, "u") == 0
  {
    FirstLoginCommits();
    var es := FirstLogin(Works) + [Crash(0)];
    RunAppend(1, FirstLogin(Works), Crash(0));
    MissedGrantIsNeverMade(1, es, more, "u", 0);
    IdsAreStable(1, es, more, "u");
  }
}
