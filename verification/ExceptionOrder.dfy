/**
 Which server error the search finds when there are several: the first in an order of its own, by levels.  Aggregates
 nested in aggregates form levels; server errors of outer levels come first, and within a level they come from left to
 right.
 */
module ExceptionOrder {
  import opened Options
  import opened ExceptionSearch

  /******* The order *******/

  /** The next level: what the aggregates of a level hold. */
  function Below(level: seq<Exn>): seq<Exn> {
    if level == [] then [] else (if level[0].Aggregate? then level[0].inners else []) + Below(level[1..])
  }

  lemma {:induction false} BelowIsSmaller(level: seq<Exn>)
    ensures SizeIn(Below(level)) + |level| <= SizeIn(level)
  {
    if level != [] {
      BelowIsSmaller(level[1..]);
      AppendIn(if level[0].Aggregate? then level[0].inners else [], Below(level[1..]));
    }
  }

  /** The server errors of an exception, in order. */
  function Ordered(e: Exn): seq<Exn>
    decreases Size(e), 0
  {
    match e
    case ApiResponse(_, _) => [e]
    case Aggregate(_, inners) => ByLevels(inners)
    case Plain(_, None) => []
    case Plain(_, Some(x)) => Ordered(x)
  }

  /** The server errors of a level and of all levels below it, in order. */
  function ByLevels(level: seq<Exn>): seq<Exn>
    decreases SizeIn(level), 2
  {
    if level == [] then [] else BelowIsSmaller(level); OnLevel(level) + ByLevels(Below(level))
  }

  /** The server errors a level holds outside its aggregates, from left to right. */
  function OnLevel(level: seq<Exn>): seq<Exn>
    decreases SizeIn(level), 1
  {
    if level == [] then []
    else (if level[0].Aggregate? then [] else Ordered(level[0])) + OnLevel(level[1..])
  }

  /******* Flattening keeps the order *******/

  lemma {:induction false} KeepAppend(xs: seq<Exn>, ys: seq<Exn>, aggregates: bool)
    ensures Keep(xs + ys, aggregates) == Keep(xs, aggregates) + Keep(ys, aggregates)
  {
    if xs == [] {
      assert xs + ys == ys;
    } else {
      assert (xs + ys)[0] == xs[0] && (xs + ys)[1..] == xs[1..] + ys;
      KeepAppend(xs[1..], ys, aggregates);
    }
  }

  lemma {:induction false} OnLevelAppend(xs: seq<Exn>, ys: seq<Exn>)
    ensures OnLevel(xs + ys) == OnLevel(xs) + OnLevel(ys)
  {
    if xs == [] {
      assert xs + ys == ys;
    } else {
      assert (xs + ys)[0] == xs[0] && (xs + ys)[1..] == xs[1..] + ys;
      OnLevelAppend(xs[1..], ys);
    }
  }

  /** Aggregates hold the lower levels, and the others the level's own errors. */
  lemma {:induction false} KeepLevel(level: seq<Exn>)
    ensures OnLevel(Keep(level, false)) == OnLevel(level)
  {
    if level != [] {
      KeepLevel(level[1..]);
      if !level[0].Aggregate? {
        KeepHead(level, false);
      }
    }
  }

  lemma {:induction false} KeepBelow(level: seq<Exn>)
    ensures Below(Keep(level, true)) == Below(level)
  {
    if level != [] {
      KeepBelow(level[1..]);
      if level[0].Aggregate? {
        KeepHead(level, true);
      }
    }
  }

  lemma KeepHead(level: seq<Exn>, aggregates: bool)
    requires level != [] && level[0].Aggregate? == aggregates
    ensures Keep(level, aggregates) != [] && Keep(level, aggregates)[0] == level[0]
    ensures Keep(level, aggregates)[1..] == Keep(level[1..], aggregates)
  {
  }

  predicate AllAggregates(es: seq<Exn>) { forall i | 0 <= i < |es| :: es[i].Aggregate? }

  /** The queue takes a whole level of aggregates before it comes to the next. */
  lemma {:induction false} QueueTakesLevel(level: seq<Exn>, rest: seq<Exn>)
    requires AllAggregates(level) && AllAggregates(rest)
    ensures AllAggregates(Keep(Below(level), true))
    ensures FlattenQueue(level + rest) == Keep(Below(level), false) + FlattenQueue(rest + Keep(Below(level), true))
    decreases |level|
  {
    KeepSplits(Below(level));
    if level == [] {
      assert level + rest == rest && rest + Keep(Below(level), true) == rest;
    } else {
      var inners, more := level[0].inners, level[1..];
      var below := Below(more);
      QueueTakesOne(level, rest);
      QueueTakesLevel(more, rest + Keep(inners, true));
      KeepAppend(inners, below, true);
      KeepAppend(inners, below, false);
      Associative(rest, Keep(inners, true), Keep(below, true));
      Associative(Keep(inners, false), Keep(below, false), FlattenQueue(rest + Keep(inners + below, true)));
    }
  }

  lemma QueueTakesOne(level: seq<Exn>, rest: seq<Exn>)
    requires level != [] && AllAggregates(level) && AllAggregates(rest)
    ensures AllAggregates(rest + Keep(level[0].inners, true))
    ensures FlattenQueue(level + rest)
         == Keep(level[0].inners, false) + FlattenQueue(level[1..] + (rest + Keep(level[0].inners, true)))
  {
    KeepSplits(level[0].inners);
    assert (level + rest)[0] == level[0] && (level + rest)[1..] == level[1..] + rest;
    Associative(level[1..], rest, Keep(level[0].inners, true));
  }

  lemma Associative(a: seq<Exn>, b: seq<Exn>, c: seq<Exn>)
    ensures a + b + c == a + (b + c)
  {
  }

  lemma {:induction false} FlattenIsByLevels(level: seq<Exn>)
    requires AllAggregates(level)
    ensures OnLevel(FlattenQueue(level)) == ByLevels(Below(level))
    decreases SizeIn(level)
  {
    if level != [] {
      var below := Below(level);
      var next := Keep(below, true);
      QueueTakesLevel(level, []);
      assert level + [] == level && [] + next == next;
      OnLevelAppend(Keep(below, false), FlattenQueue(next));
      KeepLevel(below);
      KeepBelow(below);
      KeepSplits(below);
      BelowIsSmaller(level);
      FlattenIsByLevels(next);
    }
  }

  /******* The search takes the first *******/

  function First(es: seq<Exn>): Option<Exn> { if es == [] then None else Some(es[0]) }

  /** The search finds the first server error in the order. */
  lemma {:induction false} SearchFindsFirst(e: Exn)
    ensures TryGetApiResponse(e) == First(Ordered(e))
    decreases Size(e), 0
  {
    match e
    case ApiResponse(_, _) =>
    case Plain(_, None) =>
    case Plain(_, Some(x)) => SearchFindsFirst(x);
    case Aggregate(_, inners) =>
      FlattenIsSmaller(e);
      FlattenKeeps([e]);
      SearchAllFindsFirst(Flatten(e));
      FlattenIsByLevels([e]);
      assert Below([e]) == inners + [];
      assert inners + [] == inners;
      SearchIsComplete(e);
      SearchAllIsComplete(Flatten(e));
  }

  lemma {:induction false} SearchAllFindsFirst(es: seq<Exn>)
    requires forall i | 0 <= i < |es| :: !es[i].Aggregate?
    ensures TryGetFirst(es) == First(OnLevel(es))
    decreases SizeIn(es), 1
  {
    if es != [] {
      SearchFindsFirst(es[0]);
      SearchAllFindsFirst(es[1..]);
    }
  }

  /** The order has every reachable server error, and nothing else. */
  lemma {:induction false} OrderIsComplete(e: Exn)
    ensures forall x :: x in Ordered(e) <==> x in Apis(e)
    decreases Size(e), 0
  {
    match e
    case ApiResponse(_, _) =>
    case Aggregate(_, inners) => LevelsAreComplete(inners);
    case Plain(_, None) =>
    case Plain(_, Some(x)) => OrderIsComplete(x);
  }

  lemma {:induction false} LevelsAreComplete(level: seq<Exn>)
    ensures forall x :: x in ByLevels(level) <==> x in ApisIn(level)
    decreases SizeIn(level), 2
  {
    if level != [] {
      BelowIsSmaller(level);
      LevelIsComplete(level);
      LevelsAreComplete(Below(level));
    }
  }

  lemma {:induction false} LevelIsComplete(level: seq<Exn>)
    ensures forall x :: x in ApisIn(level) <==> x in OnLevel(level) || x in ApisIn(Below(level))
    decreases SizeIn(level), 1
  {
    if level != [] {
      var inners := if level[0].Aggregate? then level[0].inners else [];
      LevelIsComplete(level[1..]);
      AppendIn(inners, Below(level[1..]));
      if !level[0].Aggregate? {
        OrderIsComplete(level[0]);
      }
    }
  }

  /******* The message *******/

  const VERSION_DOWNGRADE := 9

  /** Whether the user is told that the account has been on a higher version. */
  predicate TellsDowngrade(e: Exn) {
    TryGetApiResponse(e).Some? && HasCode(TryGetApiResponse(e).value, VERSION_DOWNGRADE)
  }

  predicate HasCode(e: Exn, code: int) { e.ApiResponse? && e.code == code }

  /** The user is told exactly when the first server error in the order is about the version. */
  lemma DowngradeToldExactlyWhen(e: Exn)
    ensures TellsDowngrade(e) <==> Ordered(e) != [] && HasCode(Ordered(e)[0], VERSION_DOWNGRADE)
  {
    SearchFindsFirst(e);
  }

  /** When all server errors in the tree carry one code, the message goes by that code. */
  lemma MessageFollowsTheCode(e: Exn, code: int)
    requires Apis(e) != {} && forall x | x in Apis(e) :: HasCode(x, code)
    ensures TellsDowngrade(e) <==> code == VERSION_DOWNGRADE
  {
    SearchIsComplete(e);
  }

  /** With different codes in one tree only the first counts, and one nested deeper comes later. */
  lemma MixedCodesCanHideDowngrade(m: string)
    ensures var e := Aggregate(m, [Aggregate(m, [ApiResponse(VERSION_DOWNGRADE, m)]), ApiResponse(5, m)]);
            ApiResponse(VERSION_DOWNGRADE, m) in Apis(e) && !TellsDowngrade(e)
  {
    var a, b := ApiResponse(VERSION_DOWNGRADE, m), ApiResponse(5, m);
    var inner := Aggregate(m, [a]);
    var e := Aggregate(m, [inner, b]);
    assert Apis(inner) == ApisIn([a]) == {a};
    assert [inner, b][1..] == [b];
    assert OnLevel([b]) == Ordered(b) + OnLevel([]) == [b];
    assert OnLevel([inner, b]) == [] + OnLevel([b]);
    assert Ordered(e) == ByLevels([inner, b]) == [b] + ByLevels(Below([inner, b]));
    DowngradeToldExactlyWhen(e);
  }
}
