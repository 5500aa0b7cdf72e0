/**
 The login hook and the profile request as the server runs them: statement after statement on a shared database
 object, with early returns.  Each is proved against the handler program of the protocol, so whatever holds of every
 run of the protocol holds of them.
 */
module BootstrapServer {
  import opened Options
  import opened Text
  import opened Spelling
  import opened Bootstrap
  import opened BootstrapInvariant
  import opened BootstrapAlone
  import opened BootstrapNames
  import PlayerId
  import CustomId

  /** How a statement inside a transaction ends. */
  datatype Reply = Completes | Fails | Waits

  /******* The database *******/

  /** The shared tables and services, each statement or call ending as its outcome says. */
  class Database {
    var users: nat
    var sequence: Option<Sequence>
    var rows: map<string, Row>
    var lock: Option<Tx>
    var accounts: map<string, string>
    var mirror: map<string, Profile>
    var grants: map<string, nat>
    var credits: map<string, nat>
    var creator: map<string, HandlerId>

    constructor (users: nat)
      ensures Contents() == EmptyDb(users)
    {
      this.users := users;
      sequence, lock := None, None;
      rows, accounts, mirror, grants, credits, creator := map[], map[], map[], map[], map[], map[];
    }

    ghost function Contents(): Db
      reads this
    {
      Db(users, sequence, rows, lock, accounts, mirror, grants, credits, creator)
    }

    method SetRowUsername(user: string, username: string, o: Outcome) returns (ok: bool)
      modifies this
      ensures ok <==> o == Works
      ensures Contents() == if o == Lost then old(Contents()) else SetUsername(old(Contents()), user, username)
    {
      if o != Lost && user in rows {
        rows := rows[user := rows[user].(username := username)];
      }
      ok := o == Works;
    }

    method SetRowVersion(user: string, version: int, o: Outcome) returns (ok: bool)
      modifies this
      ensures ok <==> o == Works
      ensures Contents() == if o == Lost then old(Contents()) else SetVersion(old(Contents()), user, version)
    {
      if o != Lost && user in rows {
        rows := rows[user := rows[user].(maxVersion := version)];
      }
      ok := o == Works;
    }

    /** Seeds the sequence row inside h's transaction, unless there is one; waits while another one is uncommitted. */
    method InsertSequence(h: HandlerId, o: Outcome) returns (reply: Reply)
      modifies this
      ensures reply == if o != Works then Fails
                       else if old(sequence).None? && old(lock).Some? then Waits
                       else Completes
      ensures Contents() == if reply == Completes && old(sequence).None?
                            then old(Contents()).(lock := Some(Tx(h, Sequence(old(users), old(users)), None)))
                            else old(Contents())
    {
      if o != Works {
        return Fails;
      }
      if sequence.None? {
        if lock.Some? {
          return Waits;
        }
        lock := Some(Tx(h, Sequence(users, users), None));
      }
      return Completes;
    }

    /** Draws the next id inside h's transaction; waits while another one holds the row, fails when there is none. */
    method DrawNext(h: HandlerId, o: Outcome) returns (reply: Reply, next: nat)
      modifies this
      ensures reply == if o != Works then Fails
                       else if old(lock).Some? && old(lock).value.owner != h then Waits
                       else if old(lock).None? && old(sequence).None? then Fails
                       else Completes
      ensures reply != Completes ==> Contents() == old(Contents())
      ensures reply == Completes ==>
                var q := if old(lock).Some? then old(lock).value.sequence else old(sequence).value;
                next == q.next + 1 && Contents() == old(Contents()).(lock := Some(Tx(h, q.(next := next), None)))
    {
      next := 0;
      if o != Works {
        return Fails, next;
      }
      if lock.Some? && lock.value.owner != h {
        return Waits, next;
      }
      if lock.None? && sequence.None? {
        return Fails, next;
      }
      var q := if lock.Some? then lock.value.sequence else sequence.value;
      next := q.next + 1;
      lock := Some(Tx(h, q.(next := next), None));
      return Completes, next;
    }

    /** Inserts the profile row inside h's transaction; a key that is taken rejects it. */
    method InsertProfile(h: HandlerId, user: string, row: Row, o: Outcome) returns (ok: bool)
      requires lock.Some? && lock.value.owner == h
      modifies this
      ensures ok <==> o == Works && !UserTaken(old(Contents()), user) && !IdTaken(old(Contents()), row.playerId)
      ensures Contents() == if ok then old(Contents()).(lock := Some(old(lock).value.(row := Some(row))))
                            else old(Contents())
    {
      ok := o == Works && user !in rows && !exists u | u in rows :: rows[u].playerId == row.playerId;
      if ok {
        lock := Some(lock.value.(row := Some(row)));
      }
    }

    /** Commits h's transaction; a commit reported as failed may have gone through all the same. */
    method CommitProfile(h: HandlerId, user: string, o: Outcome) returns (ok: bool)
      requires lock.Some? && lock.value.owner == h && lock.value.row.Some?
      modifies this
      ensures ok <==> o == Works
      ensures Contents() == if o == Lost then old(Contents()) else CommitDb(old(Contents()), h, user)
    {
      if o != Lost {
        sequence := Some(lock.value.sequence);
        rows := rows[user := lock.value.row.value];
        creator := creator[user := h];
        lock := None;
      }
      ok := o == Works;
    }

    method RollbackTx(h: HandlerId)
      modifies this
      ensures Contents() == Rollback(old(Contents()), h)
    {
      if lock.Some? && lock.value.owner == h {
        lock := None;
      }
    }

    method AccountUpdateId(user: string, username: string, o: Outcome) returns (ok: bool)
      modifies this
      ensures ok <==> o == Works
      ensures Contents() == if o == Lost then old(Contents())
                            else old(Contents()).(accounts := old(accounts)[user := username])
    {
      if o != Lost {
        accounts := accounts[user := username];
      }
      ok := o == Works;
    }

    method StorageWrite(user: string, profile: Profile, o: Outcome) returns (ok: bool)
      modifies this
      ensures ok <==> o == Works
      ensures Contents() == if o == Lost then old(Contents())
                            else old(Contents()).(mirror := old(mirror)[user := profile])
    {
      if o != Lost {
        mirror := mirror[user := profile];
      }
      ok := o == Works;
    }

    method WalletUpdate(user: string, o: Outcome) returns (ok: bool)
      modifies this
      ensures ok <==> o == Works
      ensures Contents() == Issued(old(Contents()), user, o)
    {
      grants := grants[user := Count(grants, user) + 1];
      if o != Lost {
        credits := credits[user := Count(credits, user) + 1];
      }
      ok := o == Works;
    }
  }

  /******* The server *******/

  /** What is left of a text between white space is a user name. */
  ghost predicate NamesAUser(raw: string) { exists core, i: nat :: IsCore(raw, core, i) && IsUserName(core) }

  lemma NamesSpelled(raw: string)
    ensures NamesAUser(raw) <==> CustomId.ValidUsername(TrimSpace(raw))
  {
    NameSpelled(TrimSpace(raw));
    var i := TrimSpaceSpelled(raw);
    if core, j: nat :| IsCore(raw, core, j) && IsUserName(core) {
      CoreIsUnique(raw, core, j, TrimSpace(raw), i);
    }
  }

  class GameServer {
    const currentServerVersion: int
    const db: Database

    constructor (version: int, db: Database)
      ensures this.currentServerVersion == version && this.db == db
    {
      currentServerVersion := version;
      this.db := db;
    }

    /** The handler h of this server, at the place where it loads the profile. */
    ghost function Loading(kind: Kind, user: string, username: string): Handler {
      Handler(kind, user, username, currentServerVersion, Load, NO_PROFILE, false, 0)
    }

    method LoadPlayerProfile(user: string, o: Outcome) returns (ok: bool, profile: Option<Profile>)
      ensures ok <==> o == Works
      ensures ok ==> profile == if user in db.rows then Some(ToProfile(user, db.rows[user])) else None
    {
      ok, profile := o == Works, None;
      if ok && user in db.rows {
        profile := Some(ToProfile(user, db.rows[user]));
      }
    }

    /**
     Finds or creates the profile, and leaves the handler standing before the version gate; or fails; or waits for
     another login's transaction.
     */
    method EnsurePlayerProfile(h: HandlerId, user: string, username: string, calls: Calls)
      returns (reply: Reply, profile: Profile, created: bool)
      requires !OwnsLock(db.Contents(), h)
      modifies db
      ensures db.lock == old(db.lock)
      ensures var hd := Loading(Login, user, username);
              var x := Execute(old(db.Contents()), h, hd, calls);
              match reply
              case Completes =>
                x == Execute(db.Contents(), h, hd.(pc := Gate, profile := profile, created := created), calls)
              case Fails => Failed(x, db.Contents())
              case Waits => Stuck(x, db.Contents(), h)
      ensures calls(Load) != Works ==> reply == Fails
      ensures calls(Load) == Works && user in old(db.rows) ==>
                && reply == (if old(db.rows)[user].username == username || calls(Rename) == Works then Completes
                             else Fails)
                && !created && (reply == Completes ==>
                     profile == ToProfile(user, old(db.rows)[user]).(username := username))
      ensures calls(Load) == Works && user !in old(db.rows) && reply == Completes ==>
                created && profile.maxServerVersion == currentServerVersion
    {
      ghost var hd := Loading(Login, user, username);
      profile, created := NO_PROFILE, false;
      var ok, existing := LoadPlayerProfile(user, calls(Load));
      ExecuteStep(db.Contents(), h, hd, calls);
      if !ok {
        ExecuteEnds(db.Contents(), h, Stop(hd, INTERNAL), calls);
        return Fails, profile, created;
      }
      if existing.Some? {
        ok, profile := RenameIfNeeded(h, user, username, existing.value, calls);
        reply := if ok then Completes else Fails;
      } else {
        reply, profile := CreateProfile(h, user, username, calls);
        created := reply == Completes;
      }
    }

    /** Brings the row's name up to date with the name the user logged in under. */
    method RenameIfNeeded(h: HandlerId, user: string, username: string, existing: Profile, calls: Calls)
      returns (ok: bool, profile: Profile)
      modifies db
      ensures db.lock == old(db.lock)
      ensures var hd := Loading(Login, user, username);
              var from := hd.(profile := existing, pc := if existing.username != username then Rename else Gate);
              var x := Execute(old(db.Contents()), h, from, calls);
              if ok then x == Execute(db.Contents(), h, hd.(pc := Gate, profile := profile), calls)
              else Failed(x, db.Contents())
      ensures ok <==> existing.username == username || calls(Rename) == Works
      ensures ok ==> profile == existing.(username := username)
    {
      ok, profile := true, existing;
      if existing.username != username {
        ghost var from := Loading(Login, user, username).(profile := existing, pc := Rename);
        ExecuteStep(db.Contents(), h, from, calls);
        ok := db.SetRowUsername(user, username, calls(Rename));
        if ok {
          profile := profile.(username := username);
        } else {
          ExecuteEnds(db.Contents(), h, Stop(from, INTERNAL), calls);
        }
      }
    }

    /** The transaction that draws an id and inserts the row; any failure on the way rolls it back. */
    method CreateProfile(h: HandlerId, user: string, username: string, calls: Calls)
      returns (reply: Reply, profile: Profile)
      requires !OwnsLock(db.Contents(), h)
      modifies db
      ensures db.lock == old(db.lock)
      ensures var hd := Loading(Login, user, username);
              var x := Execute(old(db.Contents()), h, hd.(pc := Begin), calls);
              match reply
              case Completes =>
                x == Execute(db.Contents(), h, hd.(pc := Gate, profile := profile, created := true), calls)
              case Fails => Failed(x, db.Contents())
              case Waits => Stuck(x, db.Contents(), h)
      ensures reply == Completes ==> profile.maxServerVersion == currentServerVersion
    {
      ghost var hd := Loading(Login, user, username);
      profile := NO_PROFILE;
      ExecuteStep(db.Contents(), h, hd.(pc := Begin), calls);
      if calls(Begin) != Works {
        ExecuteEnds(db.Contents(), h, Stop(hd, INTERNAL), calls);
        return Fails, profile;
      }

      ExecuteNext(db.Contents(), h, hd.(pc := Seed), calls);
      reply := db.InsertSequence(h, calls(Seed));
      if reply == Fails {
        db.RollbackTx(h);
        ExecuteEnds(db.Contents(), h, Stop(hd, INTERNAL), calls);
      }
      if reply == Completes {
        reply, profile := DrawAndInsert(h, user, username, calls);
      }
    }

    method DrawAndInsert(h: HandlerId, user: string, username: string, calls: Calls)
      returns (reply: Reply, profile: Profile)
      modifies db
      ensures db.lock == Rollback(old(db.Contents()), h).lock
      ensures var hd := Loading(Login, user, username);
              var x := Execute(old(db.Contents()), h, hd.(pc := Bump), calls);
              match reply
              case Completes =>
                x == Execute(db.Contents(), h, hd.(pc := Gate, profile := profile, created := true), calls)
              case Fails => Failed(x, db.Contents())
              case Waits => Stuck(x, db.Contents(), h)
      ensures reply == Completes ==> profile.maxServerVersion == currentServerVersion
    {
      ghost var hd := Loading(Login, user, username);
      profile := NO_PROFILE;
      var nextValue;
      ExecuteNext(db.Contents(), h, hd.(pc := Bump), calls);
      reply, nextValue := db.DrawNext(h, calls(Bump));
      if reply == Fails {
        db.RollbackTx(h);
        ExecuteEnds(db.Contents(), h, Stop(hd, INTERNAL), calls);
      }
      if reply == Completes {
        var ok;
        ok, profile := InsertAndCommit(h, user, username, nextValue, calls);
        reply := if ok then Completes else Fails;
      }
    }

    method InsertAndCommit(h: HandlerId, user: string, username: string, nextValue: nat, calls: Calls)
      returns (ok: bool, profile: Profile)
      requires db.lock.Some? && db.lock.value.owner == h && db.lock.value.sequence.next == nextValue
      modifies db
      ensures db.lock.None?
      ensures var hd := Loading(Login, user, username);
              var x := Execute(old(db.Contents()), h, hd.(pc := Insert), calls);
              if ok then x == Execute(db.Contents(), h, hd.(pc := Gate, profile := profile, created := true), calls)
              else Failed(x, db.Contents())
      ensures ok ==> profile.maxServerVersion == currentServerVersion
    {
      ghost var hd := Loading(Login, user, username);
      profile := NO_PROFILE;
      var row := Row(nextValue, username, currentServerVersion);
      ExecuteStep(db.Contents(), h, hd.(pc := Insert), calls);
      ok := db.InsertProfile(h, user, row, calls(Insert));
      if !ok {
        db.RollbackTx(h);
        ExecuteEnds(db.Contents(), h, Stop(hd, INTERNAL), calls);
        return;
      }

      ExecuteStep(db.Contents(), h, hd.(pc := Commit), calls);
      ok := db.CommitProfile(h, user, calls(Commit));
      if !ok {
        db.RollbackTx(h);
        ExecuteEnds(db.Contents(), h, Stop(hd, INTERNAL), calls);
        return;
      }
      profile := ToProfile(user, row);
    }

    /** The version gate: refuses a server below the loaded version, and stores a version above it. */
    method EnsurePlayerServerVersion(h: HandlerId, ghost hd: Handler, user: string, profile: Profile, calls: Calls)
      returns (error: Option<int>, updated: Profile)
      requires hd.pc == Gate && hd.user == user && hd.profile == profile && hd.version == currentServerVersion
      modifies db
      ensures db.lock == old(db.lock)
      ensures var x := Execute(old(db.Contents()), h, hd, calls);
              match error
              case None => x == Execute(db.Contents(), h, hd.(pc := AfterGate(hd), profile := updated), calls)
              case Some(code) => x.db == db.Contents() && x.hd.pc == Done(Failure(code))
      ensures error == if currentServerVersion < profile.maxServerVersion then Some(9)
                       else if profile.maxServerVersion < currentServerVersion && calls(WriteVersion) != Works
                       then Some(13)
                       else None
      ensures error == None ==> updated == profile.(maxServerVersion := currentServerVersion)
      ensures db.Contents() ==
                if profile.maxServerVersion < currentServerVersion && calls(WriteVersion) != Lost
                then SetVersion(old(db.Contents()), user, currentServerVersion) else old(db.Contents())
    {
      error, updated := None, profile;
      ExecuteStep(db.Contents(), h, hd, calls);
      if profile.maxServerVersion > currentServerVersion {
        ExecuteEnds(db.Contents(), h, Stop(hd, VERSION_DOWNGRADE), calls);
        error := Some(VERSION_DOWNGRADE);
        return;
      }
      if currentServerVersion <= profile.maxServerVersion {
        return;
      }
      ExecuteStep(db.Contents(), h, hd.(pc := WriteVersion), calls);
      var ok := db.SetRowVersion(user, currentServerVersion, calls(WriteVersion));
      if !ok {
        ExecuteEnds(db.Contents(), h, Stop(hd, INTERNAL), calls);
        error := Some(INTERNAL);
        return;
      }
      updated := profile.(maxServerVersion := currentServerVersion);
    }

    /** Publishes the profile: account name, storage mirror, welcome grant, notification. */
    method Publish(h: HandlerId, ghost hd: Handler, user: string, username: string, profile: Profile, created: bool,
                   calls: Calls)
      returns (result: Result)
      requires hd.pc == Account && hd.user == user && hd.username == username
      requires hd.profile == profile && hd.created == created
      modifies db
      ensures db.lock == old(db.lock)
      ensures var x := Execute(old(db.Contents()), h, hd, calls);
              x.db == db.Contents() && x.hd.pc == Done(result)
      ensures result == if calls(Account) == Works && calls(Mirror) == Works && (created ==> calls(Grant) == Works)
                           && calls(Notify) == Works then Success else Failure(13)
    {
      result := Failure(INTERNAL);
      ExecuteStep(db.Contents(), h, hd, calls);
      var ok := db.AccountUpdateId(user, username, calls(Account));
      if !ok {
        ExecuteEnds(db.Contents(), h, Stop(hd, INTERNAL), calls);
        return;
      }

      ExecuteStep(db.Contents(), h, hd.(pc := Mirror), calls);
      ok := db.StorageWrite(user, profile, calls(Mirror));
      if !ok {
        ExecuteEnds(db.Contents(), h, Stop(hd, INTERNAL), calls);
        return;
      }
      result := GrantAndNotify(h, hd.(pc := if created then Grant else Notify), user, created, calls);
    }

    method GrantAndNotify(h: HandlerId, ghost hd: Handler, user: string, created: bool, calls: Calls)
      returns (result: Result)
      requires hd.pc == (if created then Grant else Notify) && hd.user == user
      modifies db
      ensures db.lock == old(db.lock)
      ensures var x := Execute(old(db.Contents()), h, hd, calls);
              x.db == db.Contents() && x.hd.pc == Done(result)
      ensures result == if (created ==> calls(Grant) == Works) && calls(Notify) == Works then Success else Failure(13)
    {
      result := Failure(INTERNAL);
      ghost var before := hd;
      if created {
        ExecuteStep(db.Contents(), h, hd, calls);
        GrantStep(db.Contents(), h, hd, calls(Grant));
        before := hd.(grants := hd.grants + 1).(pc := Notify);
        var ok := db.WalletUpdate(user, calls(Grant));
        if !ok {
          ExecuteEnds(db.Contents(), h, Stop(before, INTERNAL), calls);
          return;
        }
      }

      ExecuteStep(db.Contents(), h, before, calls);
      ghost var after := Finish(before, calls(Notify));
      ExecuteEnds(db.Contents(), h, after, calls);
      if calls(Notify) == Works {
        result := Success;
      }
    }

    /**
     The login hook, as handler h: it does to the database what the protocol's handler does, and ends alike, or waits
     for another login's transaction as that does.
     */
    method AfterAuthenticateCustom(h: HandlerId, user: string, rawUsername: string, calls: Calls)
      returns (answer: Option<Result>)
      requires !OwnsLock(db.Contents(), h)
      modifies db
      ensures db.lock == old(db.lock)
      ensures var hd := Admit(LoginRequest(user, rawUsername, currentServerVersion));
              var x := Execute(old(db.Contents()), h, hd, calls);
              match answer
              case Some(result) => x.db == db.Contents() && x.hd.pc == Done(result)
              case None => Stuck(x, db.Contents(), h)
      ensures user == "" ==> answer == Some(Failure(13)) && db.Contents() == old(db.Contents())
      ensures user != "" ==> (answer == Some(Failure(3)) <==> !NamesAUser(rawUsername))
      ensures answer == Some(Failure(3)) ==> db.Contents() == old(db.Contents())
      ensures user != "" && NamesAUser(rawUsername) && calls(Load) == Works && user in old(db.rows) ==>
                var row := old(db.rows)[user];
                answer == if row.username != TrimSpace(rawUsername) && calls(Rename) != Works then Some(Failure(13))
                          else if currentServerVersion < row.maxVersion then Some(Failure(9))
                          else if (row.maxVersion < currentServerVersion && calls(WriteVersion) != Works)
                            || calls(Account) != Works || calls(Mirror) != Works || calls(Notify) != Works
                          then Some(Failure(13)) else Some(Success)
    {
      ghost var hd := Admit(LoginRequest(user, rawUsername, currentServerVersion));
      if user == "" {
        ExecuteEnds(db.Contents(), h, hd, calls);
        return Some(Failure(INTERNAL));
      }
      var username := TrimSpace(rawUsername);
      NamesSpelled(rawUsername);
      if !CustomId.ValidUsername(username) {
        ExecuteEnds(db.Contents(), h, hd, calls);
        return Some(Failure(INVALID_ARGUMENT));
      }

      var reply, profile, created := EnsurePlayerProfile(h, user, username, calls);
      if reply == Fails {
        return Some(Failure(INTERNAL));
      }
      if reply == Waits {
        return None;
      }
      hd := hd.(pc := Gate, profile := profile, created := created);

      var error, updated := EnsurePlayerServerVersion(h, hd, user, profile, calls);
      if error.Some? {
        return Some(Failure(error.value));
      }
      hd := hd.(pc := Account, profile := updated);

      var result := Publish(h, hd, user, username, updated, created, calls);
      return Some(result);
    }

    /** The profile request, as handler h. */
    method GetPlayerProfile(h: HandlerId, user: string, calls: Calls) returns (result: Result, profile: Option<Profile>)
      modifies db
      ensures db.lock == old(db.lock)
      ensures var hd := Admit(ProfileRequest(user, currentServerVersion));
              var x := Execute(old(db.Contents()), h, hd, calls);
              && x.db == db.Contents() && x.hd.pc == Done(result)
              && (result == Success ==> profile == Some(x.hd.profile))
      ensures user == "" ==> result == Failure(13)
      ensures user != "" && (calls(Load) != Works || user !in old(db.rows)) ==>
                result == if calls(Load) != Works then Failure(13) else Failure(5)
      ensures user != "" && calls(Load) == Works && user in old(db.rows) ==>
                var stored := old(db.rows)[user].maxVersion;
                result == if currentServerVersion < stored then Failure(9)
                          else if stored < currentServerVersion && calls(WriteVersion) != Works then Failure(13)
                          else if calls(ReadAccount) != Works then Failure(13)
                          else Success
      ensures result == Failure(5) || result == Failure(9) ==> db.Contents() == old(db.Contents())
      ensures result == Success ==>
                var row := old(db.rows)[user];
                && profile == Some(Profile(user, PlayerId.Format(row.playerId), row.username, currentServerVersion))
                && db.Contents() == SetVersion(old(db.Contents()), user, currentServerVersion)
    {
      profile := None;
      ghost var hd := Admit(ProfileRequest(user, currentServerVersion));
      if user == "" {
        ExecuteEnds(db.Contents(), h, hd, calls);
        return Failure(INTERNAL), None;
      }

      ExecuteStep(db.Contents(), h, hd, calls);
      var ok, found := LoadPlayerProfile(user, calls(Load));
      if !ok {
        ExecuteEnds(db.Contents(), h, Stop(hd, INTERNAL), calls);
        return Failure(INTERNAL), None;
      }
      if found.None? {
        ExecuteEnds(db.Contents(), h, Stop(hd, NOT_FOUND), calls);
        return Failure(NOT_FOUND), None;
      }
      hd := hd.(pc := Gate, profile := found.value);

      var error, updated := EnsurePlayerServerVersion(h, hd, user, found.value, calls);
      if error.Some? {
        return Failure(error.value), None;
      }
      hd := hd.(pc := ReadAccount, profile := updated);

      ExecuteStep(db.Contents(), h, hd, calls);
      ExecuteEnds(db.Contents(), h, Finish(hd, calls(ReadAccount)), calls);
      if calls(ReadAccount) != Works {
        return Failure(INTERNAL), None;
      }
      return Success, Some(updated);
    }
  }

  /** An execution that ended with an internal error, leaving the given database. */
  ghost predicate Failed(x: Effect, db: Db) { x.db == db && x.hd.pc == Done(Failure(INTERNAL)) }

  /** An execution that has come to a statement that waits for another transaction. */
  ghost predicate Stuck(x: Effect, db: Db, h: HandlerId) { x.db == db && Waiting(db, h, x.hd) }
}
