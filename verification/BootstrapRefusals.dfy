/** Exactly when a login that is refused for its version has changed its user's name before. */
module BootstrapRefusals {
  import opened Options
  import opened Bootstrap
  import opened BootstrapInvariant
  import opened BootstrapProofs
  import opened BootstrapTheorems
  import opened BootstrapVersions
  import opened BootstrapGrants

  /** A handler moves only forward between two points of a run. */
  lemma MovesForward(users: nat, es: seq<Event>, i: nat, j: nat, h: HandlerId)
    requires i <= j <= |es| && h in StateAt(users, es, i).handlers
    ensures h in StateAt(users, es, j).handlers
    ensures Succeeds(StateAt(users, es, i).handlers[h], StateAt(users, es, j).handlers[h])
  {
    assert es[..j][..i] == es[..i];
    ServesSame(users, es[..j], i, h);
  }

  /** Past the rename statement, and not stopped but by the gate. */
  predicate WentOn(hd: Handler) { hd.pc != Rename && (hd.pc.Done? ==> hd.pc == Done(Failure(VERSION_DOWNGRADE))) }

  lemma RenameGoesOn(s: State, e: Event, h: HandlerId)
    requires h in s.handlers && s.handlers[h].pc == Rename
    ensures h in Apply(s, e).handlers
    ensures WentOn(Apply(s, e).handlers[h]) <==> e == Step(h, Works)
  {
  }

  /** A handler that stood at the rename statement and went on made it, and it worked. */
  lemma {:induction false} RenameWorked(users: nat, es: seq<Event>, j: nat, h: HandlerId)
    requires j <= |es| && Meets(StateAt(users, es, j), h, Rename)
    requires h in Run(users, es).handlers && WentOn(Run(users, es).handlers[h])
    ensures Worked(users, es, h, Rename)
    decreases |es|
  {
    assert es[..|es|] == es;
    var most, e := es[..|es| - 1], es[|es| - 1];
    var s := Run(users, most);
    assert most[..j] == es[..j];
    ServesSame(users, most, j, h);
    NowHappened(users, es, h, Rename, Step(h, Works));
    if s.handlers[h].pc == Rename {
      RenameGoesOn(s, e, h);
    } else {
      if !Active(s.handlers[h]) {
        EndedStays(s, e, h);
      }
      RenameWorked(users, most, j, h);
    }
  }

  /** After its load a login stands at the rename statement exactly when it loaded another name. */
  lemma LoadDecides(s: State, h: HandlerId, version: int)
    requires ReadsVersion(s, Step(h, Works), h, version) && s.handlers[h].kind == Login
    ensures var t := Apply(s, Step(h, Works));
            && h in t.handlers
            && t.handlers[h].pc ==
                 if s.db.rows[s.handlers[h].user].username != s.handlers[h].username then Rename else Gate
  {
  }

  /**
   A login that is refused for its version has renamed exactly when the row it loaded, at event i, held another name;
   and the version it loaded was above its own.
   */
  lemma RefusedLoginRenamesExactlyWhen(users: nat, es: seq<Event>, h: HandlerId) returns (i: nat, version: int)
    requires h in Run(users, es).handlers && Run(users, es).handlers[h].kind == Login
    requires Run(users, es).handlers[h].pc == Done(Failure(VERSION_DOWNGRADE))
    ensures i < |es| && ReadsVersion(StateAt(users, es, i), es[i], h, version)
    ensures var hd := Run(users, es).handlers[h];
            && hd.user in StateAt(users, es, i).db.rows && hd.version < version
            && (Worked(users, es, h, Rename) <==>
                  StateAt(users, es, i).db.rows[hd.user].username != hd.username)
  {
    i, version := RefusalIsFounded(users, es, h);
    ServesSame(users, es, i, h);
    RunSnoc(users, es, i);
    LoadDecides(StateAt(users, es, i), h, version);
    if StateAt(users, es, i + 1).handlers[h].pc == Rename {
      RenameWorked(users, es, i + 1, h);
    } else {
      NeverRenamed(users, es, i, h);
    }
  }

  lemma NeverRenamed(users: nat, es: seq<Event>, i: nat, h: HandlerId)
    requires i < |es| && Meets(StateAt(users, es, i), h, Load) && Meets(StateAt(users, es, i + 1), h, Gate)
    ensures !Worked(users, es, h, Rename)
  {
    forall k | 0 <= k < |es| ensures !HappenedAt(users, es, k, h, Rename, Step(h, Works)) {
      if Meets(StateAt(users, es, k), h, Rename) {
        if k <= i {
          MovesForward(users, es, k, i, h);
        } else {
          MovesForward(users, es, i + 1, k, h);
        }
      }
    }
  }
}
