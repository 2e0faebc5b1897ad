/** The questions of one contest as its service keeps them: adding, removing and reordering, each checked
    by the service before the repository is asked. Every order in the column is positive, which is all that
    reordering needs to go through. */
module ContestOrders {
  import opened Collections
  import opened QuestionOrder

  /** A question to add, with the position asked for if any (the request schema keeps it positive). */
  type Wish = (QuestionId, Option<int>)

  ghost predicate Positive(o: Orders) {
    forall q :: q in o ==> o[q] >= 1
  }

  ghost predicate WellFormed(items: seq<Wish>) {
    forall i :: 0 <= i < |items| && items[i].1.Some? ==> items[i].1.value > 0
  }

  /** Orders as they should be. */
  ghost predicate Kept(o: Orders) { Unique(o) && Positive(o) }

  function Max(a: int, b: int): int { if a > b then a else b }

  /** The loop of add_questions_to_contest: o holds what the contest has and what has been placed so far. */
  function Placed(o: Orders, items: seq<Wish>, next: int): Option<Orders>
    decreases |items|
  {
    if items == [] then Some(o)
    else
      var (q, wanted) := items[0];
      if q in o then None
      else if wanted.Some? && wanted.value in o.Values then None
      else
        var order := if wanted.Some? then wanted.value else next;
        Placed(o[q := order], items[1..], Max(next, order + 1))
  }

  ghost predicate Below(o: Orders, next: int) {
    forall q :: q in o ==> o[q] < next
  }

  /** The question is in the contest or the batch already, or its wish meets an order in use. */
  predicate Refuses(o: Orders, item: Wish) {
    item.0 in o || (item.1.Some? && exists q :: q in o && o[q] == item.1.value)
  }

  /** Placing one more item of a batch: it is refused as it should be, a wish is granted, and without one the
      question comes right after the last order in use. A refusal stays one. */
  lemma {:induction false} PlacedStep(o: Orders, items: seq<Wish>, next: int, k: nat)
    requires Positive(o) && WellFormed(items) && IsMaxOrder(o, next - 1) && k < |items|
    ensures Placed(o, items[..0], next) == Some(o)
    ensures match Placed(o, items[..k], next)
            case None => Placed(o, items[..k + 1], next) == None
            case Some(o1) =>
              match Placed(o, items[..k + 1], next)
              case None => Refuses(o1, items[k])
              case Some(o2) =>
                && !Refuses(o1, items[k]) && items[k].0 in o2 && o2 == o1[items[k].0 := o2[items[k].0]]
                && (match items[k].1
                    case Some(value) => o2[items[k].0] == value
                    case None => IsMaxOrder(o1, o2[items[k].0] - 1))
    decreases |items|
  {
    var (q, wanted) := items[0];
    assert items[..k + 1][0] == items[0] && items[..k + 1][1..] == items[1..][..k];
    if Refuses(o, items[0]) {
      assert Placed(o, items[..k + 1], next) == None;
      if k > 0 {
        assert items[..k][0] == items[0];
      }
    } else {
      var order := if wanted.Some? then wanted.value else next;
      var o1 := o[q := order];
      NewMax(o, q, order, next);
      if k > 0 {
        assert items[..k][0] == items[0] && items[..k][1..] == items[1..][..k - 1];
        PlacedStep(o1, items[1..], Max(next, order + 1), k - 1);
        assert items[1..][..k - 1 + 1] == items[1..][..k];
      }
    }
  }

  lemma NewMax(o: Orders, q: QuestionId, order: int, next: int)
    requires Positive(o) && IsMaxOrder(o, next - 1) && q !in o && order >= 1
    ensures Positive(o[q := order]) && IsMaxOrder(o[q := order], Max(next, order + 1) - 1)
  {
    var o1 := o[q := order];
    assert o1[q] == order;
    if o != map[] && next - 1 > order {
      var p :| p in o && o[p] == next - 1;
      assert o1[p] == next - 1;
    }
  }

  /** Adding keeps what is there, keeps the orders unique and positive, and gives an explicit wish its order. */
  lemma {:induction false} PlacedKeeps(o: Orders, items: seq<Wish>, next: int)
    requires Kept(o) && WellFormed(items) && Below(o, next) && next >= 1
    ensures Placed(o, items, next).Some? ==>
              var o' := Placed(o, items, next).value;
              && Kept(o')
              && (forall q :: q in o ==> q in o' && o'[q] == o[q])
              && (forall i :: 0 <= i < |items| ==> items[i].0 in o' && items[i].0 !in o)
              && (forall i :: 0 <= i < |items| && items[i].1.Some? ==> o'[items[i].0] == items[i].1.value)
              && (forall q :: q in o' ==> q in o || exists i :: 0 <= i < |items| && items[i].0 == q)
    decreases |items|
  {
    hide Kept;
    if items != [] {
      var (q, wanted) := items[0];
      if q !in o && (wanted.Some? ==> wanted.value !in o.Values) {
        var order := if wanted.Some? then wanted.value else next;
        var o1 := o[q := order];
        OneMore(o, q, order);
        PlacedKeeps(o1, items[1..], Max(next, order + 1));
        forall i | 0 <= i < |items| ensures i == 0 || items[i] == items[1..][i - 1] {
        }
        if Placed(o, items, next).Some? {
          var o' := Placed(o, items, next).value;
          assert o1[q] == order && o'[q] == order;
          forall x | x in o' ensures x in o || exists i :: 0 <= i < |items| && items[i].0 == x {
            if x !in o && x != q {
              var i :| 0 <= i < |items[1..]| && items[1..][i].0 == x;
              assert items[i + 1].0 == x;
            } else if x == q {
              assert items[0].0 == x;
            }
          }
        }
      }
    }
  }

  lemma OneMore(o: Orders, q: QuestionId, order: int)
    requires Kept(o) && q !in o && order >= 1 && forall p :: p in o ==> o[p] != order
    ensures Kept(o[q := order])
  {
  }

  // ----- reordering, as the service checks it -----

  /** order_map: the present orders with the requested ones put over them. */
  function Requested(o: Orders, request: seq<(QuestionId, int)>): Orders {
    if request == [] then o
    else var n := |request| - 1; Requested(o, request[..n])[request[n].0 := request[n].1]
  }

  /** o' gives every requested question the last position asked for it, and leaves the others alone. */
  ghost predicate Honours(o: Orders, request: seq<(QuestionId, int)>, o': Orders) {
    && (forall q :: q in o' <==> q in o || exists i :: 0 <= i < |request| && request[i].0 == q)
    && (forall i :: 0 <= i < |request| && LastWish(request, i) ==>
          request[i].0 in o' && o'[request[i].0] == request[i].1)
    && (forall q :: q in o && (forall i :: 0 <= i < |request| ==> request[i].0 != q) ==> q in o' && o'[q] == o[q])
  }

  lemma {:induction false} RequestedDomain(o: Orders, request: seq<(QuestionId, int)>, q: QuestionId)
    ensures q in Requested(o, request) <==> q in o || exists i :: 0 <= i < |request| && request[i].0 == q
    ensures q in o && (forall i :: 0 <= i < |request| ==> request[i].0 != q) ==> Requested(o, request)[q] == o[q]
  {
    if request != [] {
      var n := |request| - 1;
      RequestedDomain(o, request[..n], q);
      if i :| 0 <= i < n && request[i].0 == q {
        assert request[..n][i].0 == q;
      }
      assert request[n].0 == q ==> q in Requested(o, request);
    }
  }

  lemma {:induction false} RequestedLast(o: Orders, request: seq<(QuestionId, int)>, i: nat)
    requires LastWish(request, i)
    ensures request[i].0 in Requested(o, request) && Requested(o, request)[request[i].0] == request[i].1
  {
    var n := |request| - 1;
    if i < n {
      assert request[n].0 != request[i].0;
      RequestedLast(o, request[..n], i);
    }
  }

  lemma RequestedMeans(o: Orders, request: seq<(QuestionId, int)>)
    ensures Honours(o, request, Requested(o, request))
  {
    hide Requested, LastWish;
    forall q {
      RequestedDomain(o, request, q);
    }
    forall i | 0 <= i < |request| && LastWish(request, i)
      ensures request[i].0 in Requested(o, request) && Requested(o, request)[request[i].0] == request[i].1
    {
      RequestedLast(o, request, i);
    }
  }

  /** With distinct questions: each holds what was asked for. */
  lemma HonoursDistinct(o: Orders, request: seq<(QuestionId, int)>, o': Orders)
    requires Honours(o, request, o') && forall i, j :: 0 <= i < j < |request| ==> request[i].0 != request[j].0
    ensures forall i :: 0 <= i < |request| ==> request[i].0 in o' && o'[request[i].0] == request[i].1
  {
    forall i | 0 <= i < |request| ensures request[i].0 in o' && o'[request[i].0] == request[i].1 {
      assert LastWish(request, i);
    }
  }

  /** Some question not set aside has the order n. */
  ghost predicate Taken(o: Orders, aside: set<QuestionId>, n: int) {
    exists q :: q in o && q !in aside && o[q] == n
  }

  /** The service accepts exactly the requests about known questions after which each of 1 to N is taken. */
  lemma AcceptsMeans(o: Orders, request: seq<(QuestionId, int)>, o': Orders)
    requires Honours(o, request, o')
    ensures Accepts(o, request)
            <==> request == []
                 || ((forall i :: 0 <= i < |request| ==> request[i].0 in o)
                     && (forall n :: 1 <= n <= |o| ==> Taken(o', {}, n)))
  {
    hide Sequential, Taken, Honours, Requested;
    RequestedMeans(o, request);
    OneHonours(o, request, o', Requested(o, request));
    if forall i :: 0 <= i < |request| ==> request[i].0 in o {
      RequestedKeys(o, request);
      assert |o'| == |o| by {
        assert |o'.Keys| == |o.Keys|;
      }
      AllPlaces(o');
    }
  }

  lemma OneHonours(o: Orders, request: seq<(QuestionId, int)>, a: Orders, b: Orders)
    requires Honours(o, request, a) && Honours(o, request, b)
    ensures a == b
  {
    forall q | q in a ensures q in b && a[q] == b[q] {
      if exists i :: 0 <= i < |request| && request[i].0 == q {
        var i := LastOf(request, q);
      }
    }
    forall q | q in b ensures q in a {
    }
  }

  lemma {:induction false} LastOf(request: seq<(QuestionId, int)>, q: QuestionId) returns (i: nat)
    requires exists i :: 0 <= i < |request| && request[i].0 == q
    ensures LastWish(request, i) && request[i].0 == q
  {
    var n := |request| - 1;
    if request[n].0 == q {
      i := n;
    } else {
      var k :| 0 <= k < |request| && request[k].0 == q;
      assert request[..n][k].0 == q;
      i := LastOf(request[..n], q);
      assert request[..n][i] == request[i];
      forall j | i < j < |request| ensures request[j].0 != request[i].0 {
        if j < n {
          assert request[..n][j] == request[j];
        }
      }
    }
  }

  /** N orders are 1 to N, each once, exactly when each of 1 to N is among them. */
  lemma AllPlaces(o: Orders)
    ensures Sequential(o) <==> forall n :: 1 <= n <= |o| ==> Taken(o, {}, n)
  {
    if Sequential(o) {
      forall n | 1 <= n <= |o| ensures Taken(o, {}, n) {
        if !Taken(o, {}, n) {
          Squeezed(o, n, |o|);
        }
      }
    }
    if forall n :: 1 <= n <= |o| ==> Taken(o, {}, n) {
      assert o.Keys - {} == o.Keys;
      Spread(o, |o|, {});
    }
  }

  /** Distinct orders from 1 to m that avoid n are fewer than m. */
  lemma Squeezed(o: Orders, n: nat, m: nat)
    requires Unique(o) && 1 <= n <= m && forall q :: q in o ==> 1 <= o[q] <= m && o[q] != n
    ensures |o| < m
  {
    var down := map q | q in o :: if o[q] > n then o[q] - 1 else o[q];
    assert down.Keys == o.Keys;
    assert |down| == |o|;
    Pigeonhole(down, m - 1);
  }

  /** If 1 to m are all taken, by questions outside those set aside, and there are no more than m of these,
      then each takes exactly one. */
  lemma {:induction false} Spread(o: Orders, m: nat, aside: set<QuestionId>)
    requires aside <= o.Keys && |o.Keys - aside| <= m
    requires forall n :: 1 <= n <= m ==> Taken(o, aside, n)
    ensures forall q :: q in o && q !in aside ==> 1 <= o[q] <= m
    ensures forall p, q :: p in o && q in o && p !in aside && q !in aside && p != q ==> o[p] != o[q]
    decreases m
  {
    if m == 0 {
      assert o.Keys - aside == {};
      forall q | q in o ensures q in aside {
        assert q in o.Keys - aside || q in aside;
      }
    } else {
      assert Taken(o, aside, m);
      var q :| q in o && q !in aside && o[q] == m;
      var more := aside + {q};
      assert o.Keys - more == (o.Keys - aside) - {q};
      forall n | 1 <= n <= m - 1 ensures Taken(o, more, n) {
        assert Taken(o, aside, n);
        var p :| p in o && p !in aside && o[p] == n;
        assert p !in more;
      }
      Spread(o, m - 1, more);
    }
  }

  /** The sorted values are 1 .. n. */
  predicate Sequential(o: Orders) {
    && (forall q :: q in o ==> 1 <= o[q] <= |o|)
    && (forall p, q :: p in o && q in o && p != q ==> o[p] != o[q])
  }

  /** The service does not refuse the request; an empty one is let through unchecked. */
  predicate Accepts(o: Orders, request: seq<(QuestionId, int)>) {
    request == [] || ((forall i :: 0 <= i < |request| ==> request[i].0 in o) && Sequential(Requested(o, request)))
  }

  lemma {:induction false} RequestedKeys(o: Orders, request: seq<(QuestionId, int)>)
    requires forall i :: 0 <= i < |request| ==> request[i].0 in o
    ensures Requested(o, request).Keys == o.Keys
  {
    if request != [] {
      RequestedKeys(o, request[..|request| - 1]);
    }
  }

  /** An accepted request goes through, in every row order of both statements, when the orders are positive. */
  lemma AcceptedIsSafe(o: Orders, request: seq<(QuestionId, int)>, reorders: seq<(QuestionId, int)>, m: int)
    requires Kept(o) && IsMaxOrder(o, m) && FinalTargets(reorders) == Requested(o, request)
    requires request != [] && Accepts(o, request)
    ensures SafeTargets(o, reorders, m)
    ensures AlwaysSucceeds(o, TempTargets(reorders, m))
    ensures AlwaysSucceeds(Updated(o, TempTargets(reorders, m)), FinalTargets(reorders))
  {
    hide AlwaysSucceeds, SafeTargets;
    RequestedKeys(o, request);
    assert |Requested(o, request)| == |o| by {
      assert |Requested(o, request).Keys| == |o.Keys|;
    }
    ServiceOrdersAreSafe(o, reorders, m);
    ReorderSafeIff(o, reorders, m);
  }

  // ----- the service -----

  /** The skip over taken orders. The service starts it above all of them. */
  method NextFree(taken: set<int>, from: int) returns (r: int)
    ensures from <= r && r !in taken && forall x :: from <= x < r ==> x in taken
  {
    r := from;
    while r in taken
      invariant from <= r && forall x :: from <= x < r ==> x in taken
      decreases set x | x in taken && r <= x
    {
      ghost var above := set x | x in taken && r <= x;
      assert r in above;
      r := r + 1;
      assert (set x | x in taken && r <= x) == above - {r - 1};
    }
  }

  /** Requests put over the present orders, as a list of pairs, each question once. */
  method Items(o: Orders) returns (reorders: seq<(QuestionId, int)>)
    ensures FinalTargets(reorders) == o
  {
    reorders := [];
    var rest := o.Keys;
    while rest != {}
      invariant rest <= o.Keys
      invariant FinalTargets(reorders) == map q | q in o && q !in rest :: o[q]
      decreases rest
    {
      var q :| q in rest;
      ghost var before := reorders;
      reorders := reorders + [(q, o[q])];
      assert reorders[..|before|] == before;
      rest := rest - {q};
    }
  }

  class ContestQuestionService {
    const repository: ContestQuestions

    constructor (repository: ContestQuestions)
      ensures this.repository == repository
    {
      this.repository := repository;
    }

    ghost predicate Valid()
      reads repository
    {
      Kept(repository.orders)
    }

    /** add_questions_to_contest */
    method AddQuestions(items: seq<Wish>) returns (ok: bool)
      requires Valid() && WellFormed(items)
      modifies repository
      ensures Valid()
      ensures !ok ==> repository.orders == old(repository.orders)
      ensures ok ==> exists m :: IsMaxOrder(old(repository.orders), m)
                                 && Placed(old(repository.orders), items, m + 1) == Some(repository.orders)
      ensures !ok ==> exists m :: IsMaxOrder(old(repository.orders), m)
                                  && Placed(old(repository.orders), items, m + 1) == None
      ensures exists m :: Changes(old(repository.orders), Adding(items), m, repository.orders)
    {
      hide Kept, WellFormed, IsMaxOrder, Changes;
      var before := repository.orders;
      var maxOrder := repository.GetMaxQuestionOrder();
      MaxIsBelow(before, maxOrder);
      PlacedKeeps(before, items, maxOrder + 1);
      AddingIs(before, items, maxOrder, before);
      var next := maxOrder + 1;
      var placed := before;
      for i := 0 to |items|
        invariant repository.orders == before && Below(placed, next)
        invariant Placed(before, items, maxOrder + 1) == Placed(placed, items[i..], next)
      {
        assert items[i..][0] == items[i] && items[i..][1..] == items[i + 1..];
        var q, wanted := items[i].0, items[i].1;
        if q in placed {
          return false;
        }
        var order: int;
        match wanted {
          case None =>
            order := NextFree(placed.Values, next);
            assert order == next by {
              AboveAll(placed, next);
            }
          case Some(value) =>
            if value in placed.Values {
              return false;
            }
            order := value;
        }
        if order >= next {
          next := order + 1;
        }
        placed := placed[q := order];
      }
      AddingIs(before, items, maxOrder, placed);
      repository.orders := placed;
      ok := true;
    }

    /** remove_questions_from_contest */
    method RemoveQuestions(ids: set<QuestionId>)
      requires Valid()
      modifies repository
      ensures Valid() && repository.orders == old(repository.orders) - ids
      ensures forall m :: Changes(old(repository.orders), Removing(ids), m, repository.orders)
    {
      repository.orders := repository.orders - ids;
    }

    /** reorder_contest_questions: it fails exactly when the service refuses the request. */
    method ReorderContestQuestions(request: seq<(QuestionId, int)>, first: seq<QuestionId>, second: seq<QuestionId>)
      returns (ok: bool)
      requires Valid()
      requires IsScan(first, repository.orders, repository.orders)
      requires IsScan(second, repository.orders, repository.orders)
      modifies repository
      ensures Valid()
      ensures ok <==> Accepts(old(repository.orders), request)
      ensures ok ==> Honours(old(repository.orders), request, repository.orders)
      ensures repository.orders == if ok then Requested(old(repository.orders), request) else old(repository.orders)
      ensures exists reorders, m ::
                Changes(old(repository.orders), Reordering(request, reorders, first, second), m, repository.orders)
    {
      hide Sequential, IsMaxOrder, SafeTargets, AlwaysSucceeds, Honours, Changes;
      var o := repository.orders;
      RequestedMeans(o, request);
      if request == [] || !Accepts(o, request) {
        ReorderingIs(o, request, [], 0, first, second);
      }
      if |request| == 0 {
        return true;
      }
      if exists i :: 0 <= i < |request| && request[i].0 !in o {
        return false;
      }
      RequestedKeys(o, request);
      var orders := Requested(o, request);
      if !Sequential(orders) {
        return false;
      }
      var reorders := Items(orders);
      var m := repository.GetMaxQuestionOrder();
      AcceptedIsSafe(o, request, reorders, m);
      ReorderingIs(o, request, reorders, m, first, second);
      ok := repository.ReorderQuestionsInContest(reorders, first, second);
      ReorderedIs(o, orders);
      SequentialKeeps(orders);
    }
  }

  lemma ReorderedIs(o: Orders, orders: Orders)
    requires o.Keys == orders.Keys
    ensures Updated(o, orders) == orders
  {
  }

  lemma SequentialKeeps(orders: Orders)
    requires Sequential(orders)
    ensures Kept(orders)
  {
  }

  lemma AboveAll(o: Orders, next: int)
    requires Below(o, next)
    ensures next !in o.Values
  {
  }

  lemma MaxIsBelow(o: Orders, m: int)
    requires IsMaxOrder(o, m)
    ensures Below(o, m + 1) && (Kept(o) ==> m >= 0)
  {
  }

  // ----- any sequence of changes -----

  datatype Change =
    | Adding(items: seq<Wish>)
    | Removing(ids: set<QuestionId>)
    | Reordering(request: seq<(QuestionId, int)>, reorders: seq<(QuestionId, int)>,
                 first: seq<QuestionId>, second: seq<QuestionId>)

  /** What the two statements leave: the final orders, or on a violation what was there. */
  function TwoStatements(o: Orders, reorders: seq<(QuestionId, int)>, m: int, first: seq<QuestionId>,
                         second: seq<QuestionId>): Orders
    requires forall q :: q in first || q in second ==> q in o && q in FinalTargets(reorders)
  {
    SameKeys(reorders, m);
    var parked := Rewrite(o, TempTargets(reorders, m), first);
    if parked.None? then o
    else
      RewriteSameKeys(o, TempTargets(reorders, m), first);
      var final := Rewrite(parked.value, FinalTargets(reorders), second);
      if final.None? then o else final.value
  }

  lemma {:induction false} RewriteSameKeys(o: Orders, target: Orders, rows: seq<QuestionId>)
    requires forall q :: q in rows ==> q in o && q in target
    ensures Rewrite(o, target, rows).Some? ==> Rewrite(o, target, rows).value.Keys == o.Keys
  {
    if rows != [] && !Collides(o, rows[0], target[rows[0]]) {
      RewriteSameKeys(o[rows[0] := target[rows[0]]], target, rows[1..]);
    }
  }

  /** One change, with the maximum the service reads. */
  ghost predicate Changes(o: Orders, c: Change, m: int, o': Orders) {
    match c
    case Adding(items) =>
      WellFormed(items) && IsMaxOrder(o, m)
      && o' == if Placed(o, items, m + 1).Some? then Placed(o, items, m + 1).value else o
    case Removing(ids) => o' == o - ids
    case Reordering(request, reorders, first, second) =>
      if request != [] && Accepts(o, request)
      then FinalTargets(reorders) == Requested(o, request) && IsScan(first, o, o) && IsScan(second, o, o)
           && IsMaxOrder(o, m) && (forall q :: q in first || q in second ==> q in o && q in FinalTargets(reorders))
           && o' == TwoStatements(o, reorders, m, first, second)
      else o' == o
  }

  /** A history's additions and reorderings are what the service's methods do. */
  lemma AddingIs(o: Orders, items: seq<Wish>, m: int, o': Orders)
    requires WellFormed(items) && IsMaxOrder(o, m)
    ensures Changes(o, Adding(items), m, o')
            <==> Placed(o, items, m + 1) == Some(o') || (Placed(o, items, m + 1) == None && o' == o)
  {
  }

  lemma ReorderingIs(o: Orders, request: seq<(QuestionId, int)>, reorders: seq<(QuestionId, int)>, m: int,
                     first: seq<QuestionId>, second: seq<QuestionId>)
    requires Kept(o) && IsScan(first, o, o) && IsScan(second, o, o)
    requires request != [] && Accepts(o, request) ==>
               IsMaxOrder(o, m) && FinalTargets(reorders) == Requested(o, request)
    ensures Changes(o, Reordering(request, reorders, first, second), m,
                    if Accepts(o, request) then Requested(o, request) else o)
  {
    if request != [] && Accepts(o, request) {
      ReorderingDone(o, request, reorders, m, first, second);
    }
  }

  ghost predicate IsHistory(os: seq<Orders>, ms: seq<int>, cs: seq<Change>) {
    && |os| == |cs| + 1 && |ms| == |cs| && os[0] == map[]
    && forall i :: 0 <= i < |cs| ==> Changes(os[i], cs[i], ms[i], os[i + 1])
  }

  lemma ReorderingDone(o: Orders, request: seq<(QuestionId, int)>, reorders: seq<(QuestionId, int)>, m: int,
                       first: seq<QuestionId>, second: seq<QuestionId>)
    requires Kept(o) && IsMaxOrder(o, m) && FinalTargets(reorders) == Requested(o, request)
    requires request != [] && Accepts(o, request)
    requires IsScan(first, o, o) && IsScan(second, o, o)
    ensures forall q :: q in first || q in second ==> q in o && q in FinalTargets(reorders)
    ensures TwoStatements(o, reorders, m, first, second) == Requested(o, request)
  {
    hide Rewrite, AlwaysSucceeds, SafeTargets, IsMaxOrder;
    var temp, final := TempTargets(reorders, m), FinalTargets(reorders);
    SameKeys(reorders, m);
    RequestedKeys(o, request);
    AcceptedIsSafe(o, request, reorders, m);
    assert IsScan(first, o, temp) && IsScan(second, o, final);
    TempsGoThrough(o, reorders, m, first);
    SecondGoesThrough(o, reorders, m, second);
    RewriteKeeps(Updated(o, temp), final, second);
    UpdatedTwice(o, temp, final);
    ReorderedIs(o, final);
  }

  lemma StepKeeps(o: Orders, c: Change, m: int, o': Orders)
    requires Kept(o) && Changes(o, c, m, o')
    ensures Kept(o')
    ensures c.Reordering? && Accepts(o, c.request) ==> Honours(o, c.request, o')
  {
    hide TwoStatements, IsMaxOrder;
    match c {
      case Adding(items) =>
        MaxIsBelow(o, m);
        PlacedKeeps(o, items, m + 1);
      case Removing(_) =>
      case Reordering(request, reorders, first, second) =>
        RequestedMeans(o, request);
        if request != [] && Accepts(o, request) {
          ReorderingDone(o, request, reorders, m, first, second);
          SequentialKeeps(Requested(o, request));
        }
    }
  }

  /** From an empty contest, after any sequence of additions, removals and reorderings, the orders are unique
      and at least 1; and every reordering the service has accepted has gone through, with exactly the orders
      asked for, whatever order the rows were rewritten in. */
  lemma {:induction false} ServiceHistory(os: seq<Orders>, ms: seq<int>, cs: seq<Change>)
    requires IsHistory(os, ms, cs)
    ensures Kept(os[|cs|])
    ensures forall i :: 0 <= i < |cs| && cs[i].Reordering? && Accepts(os[i], cs[i].request) ==>
              Honours(os[i], cs[i].request, os[i + 1])
  {
    hide Changes, Kept, Accepts, Honours;
    if cs == [] {
      NoQuestions();
    } else {
      var n := |cs| - 1;
      ServiceHistory(os[..|cs|], ms[..n], cs[..n]);
      assert os[..|cs|][n] == os[n];
      StepKeeps(os[n], cs[n], ms[n], os[n + 1]);
      forall i | 0 <= i < |cs| && cs[i].Reordering? && Accepts(os[i], cs[i].request)
        ensures Honours(os[i], cs[i].request, os[i + 1])
      {
        if i < n {
          assert cs[..n][i] == cs[i] && os[..|cs|][i] == os[i] && os[..|cs|][i + 1] == os[i + 1];
        }
      }
    }
  }

  lemma NoQuestions()
    ensures Kept(map[])
  {
  }
}
