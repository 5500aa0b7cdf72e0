/** The one code that server and client share: what a refused login ends with is what the client tells apart. */
module DowngradeCode {
  import opened Bootstrap
  import opened BootstrapNames
  import ExceptionSearch
  import ExceptionOrder

  /** The client tells a refusal from every other answer of a server. */
  lemma RefusalIsTold(db: Db, h: HandlerId, hd: Handler, o: Outcome, m: string)
    requires hd.pc == Gate && hd.version < hd.profile.maxServerVersion
    ensures Next(db, h, hd, o).hd.pc == Done(Failure(9))
    ensures ExceptionOrder.TellsDowngrade(ExceptionSearch.ApiResponse(9, m))
  {
  }

  lemma OnlyRefusalIsTold(users: nat, es: seq<Event>, h: HandlerId, code: int, m: string)
    requires h in Run(users, es).handlers && Run(users, es).handlers[h].pc == Done(Failure(code))
    ensures code == 3 || code == 5 || code == 9 || code == 13
    ensures ExceptionOrder.TellsDowngrade(ExceptionSearch.ApiResponse(code, m)) <==> code == 9
  {
    AnswersAreKnownInRuns(users, es);
    assert AnswersAreKnown(Run(users, es).handlers[h]);
  }
}
