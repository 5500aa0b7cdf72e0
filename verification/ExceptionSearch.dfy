/**
 The client's search for a server error inside a failed task's exception.  An aggregate holds any number of
 inner exceptions, any other exception at most one.
 */
module ExceptionSearch {
  import opened Options

  datatype Exn =
    | ApiResponse(code: int, message: string)
    | Aggregate(message: string, inners: seq<Exn>)
    | Plain(message: string, inner: Option<Exn>)

  /** The server errors reachable from an exception through inner links. */
  function Apis(e: Exn): set<Exn> {
    match e
    case ApiResponse(_, _) => {e}
    case Aggregate(_, inners) => ApisIn(inners)
    case Plain(_, None) => {}
    case Plain(_, Some(x)) => Apis(x)
  }

  function ApisIn(es: seq<Exn>): set<Exn> { if es == [] then {} else Apis(es[0]) + ApisIn(es[1..]) }

  /** The number of exceptions in the tree. */
  function Size(e: Exn): nat
    ensures Size(e) >= 1
  {
    match e
    case ApiResponse(_, _) => 1
    case Aggregate(_, inners) => 1 + SizeIn(inners)
    case Plain(_, None) => 1
    case Plain(_, Some(x)) => 1 + Size(x)
  }

  function SizeIn(es: seq<Exn>): nat { if es == [] then 0 else Size(es[0]) + SizeIn(es[1..]) }

  /******* Flattening *******/

  function Keep(es: seq<Exn>, aggregates: bool): seq<Exn> {
    if es == [] then []
    else if es[0].Aggregate? == aggregates then [es[0]] + Keep(es[1..], aggregates)
    else Keep(es[1..], aggregates)
  }

  lemma {:induction false} AppendIn(xs: seq<Exn>, ys: seq<Exn>)
    ensures SizeIn(xs + ys) == SizeIn(xs) + SizeIn(ys)
    ensures ApisIn(xs + ys) == ApisIn(xs) + ApisIn(ys)
  {
    if xs == [] {
      assert xs + ys == ys;
    } else {
      AppendIn(xs[1..], ys);
      assert (xs + ys)[1..] == xs[1..] + ys;
    }
  }

  /** Sorting out the aggregates loses nothing. */
  lemma {:induction false} KeepSplits(es: seq<Exn>)
    ensures SizeIn(Keep(es, true)) + SizeIn(Keep(es, false)) == SizeIn(es)
    ensures ApisIn(Keep(es, true)) + ApisIn(Keep(es, false)) == ApisIn(es)
    ensures forall i | 0 <= i < |Keep(es, true)| :: Keep(es, true)[i].Aggregate?
    ensures forall i | 0 <= i < |Keep(es, false)| :: !Keep(es, false)[i].Aggregate?
  {
    if es != [] {
      KeepSplits(es[1..]);
      AppendIn([es[0]], Keep(es[1..], true));
      AppendIn([es[0]], Keep(es[1..], false));
      assert Keep(es, es[0].Aggregate?)[1..] == Keep(es[1..], es[0].Aggregate?);
    }
  }

  /** The queue of aggregates still to open; inner aggregates go to its end, other exceptions to the result. */
  function FlattenQueue(queue: seq<Exn>): seq<Exn>
    requires forall i | 0 <= i < |queue| :: queue[i].Aggregate?
    decreases SizeIn(queue)
  {
    if queue == [] then []
    else
      var inners := queue[0].inners;
      KeepSplits(inners);
      AppendIn(queue[1..], Keep(inners, true));
      assert Size(queue[0]) == 1 + SizeIn(inners);
      Keep(inners, false) + FlattenQueue(queue[1..] + Keep(inners, true))
  }

  function Flatten(e: Exn): seq<Exn>
    requires e.Aggregate?
  {
    FlattenQueue([e])
  }

  /** Flattening keeps every server error, drops every aggregate, and leaves strictly less to search. */
  lemma {:induction false} FlattenKeeps(queue: seq<Exn>)
    requires forall i | 0 <= i < |queue| :: queue[i].Aggregate?
    ensures ApisIn(FlattenQueue(queue)) == ApisIn(queue)
    ensures forall i | 0 <= i < |FlattenQueue(queue)| :: !FlattenQueue(queue)[i].Aggregate?
    ensures SizeIn(FlattenQueue(queue)) + |queue| <= SizeIn(queue)
    decreases SizeIn(queue)
  {
    if queue != [] {
      var inners := queue[0].inners;
      var rest := queue[1..] + Keep(inners, true);
      KeepSplits(inners);
      AppendIn(queue[1..], Keep(inners, true));
      assert Size(queue[0]) == 1 + SizeIn(inners);
      FlattenKeeps(rest);
      AppendIn(Keep(inners, false), FlattenQueue(rest));
    }
  }

  lemma FlattenIsSmaller(e: Exn)
    requires e.Aggregate?
    ensures SizeIn(Flatten(e)) < Size(e)
    ensures ApisIn(Flatten(e)) == Apis(e)
  {
    FlattenKeeps([e]);
    assert [e][1..] == [];
    assert SizeIn([e]) == Size(e) && ApisIn([e]) == Apis(e);
  }

  /******* The search *******/

  /** `Exception.InnerException`: an aggregate's is its first. */
  function InnerException(e: Exn): Option<Exn> {
    match e
    case ApiResponse(_, _) => None
    case Aggregate(_, inners) => if inners == [] then None else Some(inners[0])
    case Plain(_, inner) => inner
  }

  function TryGetApiResponse(e: Exn): Option<Exn>
    decreases Size(e), 0
  {
    if e.ApiResponse? then Some(e)
    else
      var found := if e.Aggregate? then FlattenIsSmaller(e); TryGetFirst(Flatten(e)) else None;
      if found.Some? then found
      else if InnerException(e).Some? then TryGetApiResponse(InnerException(e).value)
      else None
  }

  function TryGetFirst(es: seq<Exn>): Option<Exn>
    decreases SizeIn(es), 1
  {
    if es == [] then None
    else
      var found := TryGetApiResponse(es[0]);
      if found.Some? then found else TryGetFirst(es[1..])
  }

  /** The search finds a server error exactly when there is one to reach, and finds one of those. */
  lemma {:induction false} SearchIsComplete(e: Exn)
    ensures TryGetApiResponse(e).Some? <==> Apis(e) != {}
    ensures TryGetApiResponse(e).Some? ==>
              TryGetApiResponse(e).value in Apis(e) && TryGetApiResponse(e).value.ApiResponse?
    decreases Size(e), 0
  {
    match e
    case ApiResponse(_, _) =>
    case Aggregate(_, inners) =>
      FlattenIsSmaller(e);
      SearchAllIsComplete(Flatten(e));
      if inners != [] {
        SearchIsComplete(inners[0]);
        assert Apis(inners[0]) <= Apis(e);
      }
    case Plain(_, None) =>
    case Plain(_, Some(x)) => SearchIsComplete(x);
  }

  lemma {:induction false} SearchAllIsComplete(es: seq<Exn>)
    ensures TryGetFirst(es).Some? <==> ApisIn(es) != {}
    ensures TryGetFirst(es).Some? ==> TryGetFirst(es).value in ApisIn(es) && TryGetFirst(es).value.ApiResponse?
    decreases SizeIn(es), 1
  {
    if es != [] {
      SearchIsComplete(es[0]);
      SearchAllIsComplete(es[1..]);
    }
  }
}
