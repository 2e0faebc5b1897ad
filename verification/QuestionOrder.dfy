/** Reordering a contest's questions in two UPDATE statements under UNIQUE (contest_id, order).
    Each statement rewrites its rows one by one, in an order of the database's choosing, and the
    constraint is checked at every row. */
module QuestionOrder {
  import opened Collections

  datatype QuestionId = QuestionId(id: nat)

  /** The order column of one contest, by question. */
  type Orders = map<QuestionId, int>

  ghost predicate Unique(o: Orders) {
    forall p, q :: p in o && q in o && p != q ==> o[p] != o[q]
  }

  predicate Collides(o: Orders, q: QuestionId, v: int) {
    exists p :: p in o && p != q && o[p] == v
  }

  /** One UPDATE, row by row; None when a row violates the constraint. */
  function Rewrite(o: Orders, target: Orders, rows: seq<QuestionId>): Option<Orders>
    requires forall q :: q in rows ==> q in o && q in target
  {
    if rows == [] then Some(o)
    else if Collides(o, rows[0], target[rows[0]]) then None
    else Rewrite(o[rows[0] := target[rows[0]]], target, rows[1..])
  }

  /** rows are the rows of o that the WHERE clause selects, each once. */
  ghost predicate IsScan(rows: seq<QuestionId>, o: Orders, target: Orders) {
    && (forall i, j :: 0 <= i < j < |rows| ==> rows[i] != rows[j])
    && (forall q :: q in rows <==> q in o && q in target)
  }

  /** The state an UPDATE leaves when it goes through. */
  function Updated(o: Orders, target: Orders): Orders {
    map q | q in o :: if q in target then target[q] else o[q]
  }

  /** get_max_question_order: 0 for a contest without questions. */
  ghost predicate IsMaxOrder(o: Orders, m: int) {
    if o == map[] then m == 0
    else (exists q :: q in o && o[q] == m) && forall q :: q in o ==> o[q] <= m
  }

  /** {question_id: max_order + i + 1 for i, ...}: of a repeated id the last index stays. */
  function TempTargets(reorders: seq<(QuestionId, int)>, m: int): Orders {
    if reorders == [] then map[]
    else var n := |reorders| - 1; TempTargets(reorders[..n], m)[reorders[n].0 := m + n + 1]
  }

  /** {question_id: order for ...} */
  function FinalTargets(reorders: seq<(QuestionId, int)>): Orders {
    if reorders == [] then map[]
    else var n := |reorders| - 1; FinalTargets(reorders[..n])[reorders[n].0 := reorders[n].1]
  }

  /** No later entry of the list is about the same question. */
  ghost predicate LastWish(reorders: seq<(QuestionId, int)>, i: nat) {
    i < |reorders| && forall j :: i < j < |reorders| ==> reorders[j].0 != reorders[i].0
  }

  /** The i-th entry parks its question i + 1 places above the maximum and then gives it the order it names,
      unless a later entry is about the same question. */
  lemma {:induction false} TargetsMean(reorders: seq<(QuestionId, int)>, m: int, i: nat)
    requires LastWish(reorders, i)
    ensures var (q, order) := reorders[i];
            && q in TempTargets(reorders, m) && TempTargets(reorders, m)[q] == m + i + 1
            && q in FinalTargets(reorders) && FinalTargets(reorders)[q] == order
  {
    var n := |reorders| - 1;
    if i < n {
      assert reorders[n].0 != reorders[i].0;
      TargetsMean(reorders[..n], m, i);
    }
  }

  lemma {:induction false} TargetsListed(reorders: seq<(QuestionId, int)>, m: int, q: QuestionId)
    ensures q in TempTargets(reorders, m) <==> q in FinalTargets(reorders)
    ensures q in FinalTargets(reorders) <==> exists i :: 0 <= i < |reorders| && reorders[i].0 == q
  {
    if reorders != [] {
      var n := |reorders| - 1;
      TargetsListed(reorders[..n], m, q);
      if i :| 0 <= i < n && reorders[i].0 == q {
        assert reorders[..n][i].0 == q;
      }
      assert reorders[n].0 == q ==> q in FinalTargets(reorders);
    }
  }

  /** o' has the rows of o: those listed with the last order the list names, the others as they were. */
  ghost predicate Reordered(o: Orders, reorders: seq<(QuestionId, int)>, o': Orders) {
    && o'.Keys == o.Keys
    && (forall i :: 0 <= i < |reorders| && LastWish(reorders, i) && reorders[i].0 in o' ==>
          o'[reorders[i].0] == reorders[i].1)
    && (forall q :: q in o' && (forall i :: 0 <= i < |reorders| ==> reorders[i].0 != q) ==> o'[q] == o[q])
  }

  lemma UpdatedReorders(o: Orders, reorders: seq<(QuestionId, int)>)
    ensures Reordered(o, reorders, Updated(o, FinalTargets(reorders)))
  {
    hide FinalTargets, TempTargets, LastWish;
    forall i | 0 <= i < |reorders| && LastWish(reorders, i) && reorders[i].0 in o
      ensures Updated(o, FinalTargets(reorders))[reorders[i].0] == reorders[i].1
    {
      TargetsMean(reorders, 0, i);
    }
    forall q {
      TargetsListed(reorders, 0, q);
    }
  }

  // ----- the repository method -----

  class ContestQuestions {
    var orders: Orders

    method GetMaxQuestionOrder() returns (m: int)
      ensures IsMaxOrder(orders, m)
    {
      m := 0;
      var rest := orders.Keys;
      while rest != {}
        invariant rest <= orders.Keys
        invariant rest == orders.Keys ==> m == 0
        invariant rest != orders.Keys ==> exists q :: q in orders && q !in rest && orders[q] == m
        invariant rest != orders.Keys ==> forall q :: q in orders && q !in rest ==> orders[q] <= m
        decreases rest
      {
        var q :| q in rest;
        if rest == orders.Keys || orders[q] > m {
          m := orders[q];
        }
        rest := rest - {q};
      }
    }

    method UpdateOrders(target: Orders, rows: seq<QuestionId>) returns (ok: bool)
      requires forall q :: q in rows ==> q in orders && q in target
      modifies this
      ensures ok <==> Rewrite(old(orders), target, rows).Some?
      ensures ok ==> orders == Rewrite(old(orders), target, rows).value
    {
      for i := 0 to |rows|
        invariant orders.Keys == old(orders.Keys)
        invariant Rewrite(old(orders), target, rows) == Rewrite(orders, target, rows[i..])
      {
        var q := rows[i];
        assert rows[i..][0] == q && rows[i..][1..] == rows[i + 1..];
        if Collides(orders, q, target[q]) {
          return false;
        }
        orders := orders[q := target[q]];
      }
      ok := true;
    }

    /** first and second are the row orders the database happens to use. A violation aborts the
        transaction. */
    method ReorderQuestionsInContest(reorders: seq<(QuestionId, int)>, first: seq<QuestionId>, second: seq<QuestionId>)
      returns (ok: bool)
      requires IsScan(first, orders, FinalTargets(reorders)) && IsScan(second, orders, FinalTargets(reorders))
      requires Unique(orders)
      modifies this
      ensures ok ==> orders == Updated(old(orders), FinalTargets(reorders)) && Unique(orders)
      ensures ok ==> Reordered(old(orders), reorders, orders)
      ensures !ok ==> orders == old(orders)
      ensures forall m :: IsMaxOrder(old(orders), m) && SafeTargets(old(orders), reorders, m) ==> ok
    {
      hide SafeTargets, Rewrite, IsMaxOrder, Reordered;
      UpdatedReorders(orders, reorders);
      if |reorders| == 0 {
        UpdatedNothing(orders);
        return true;
      }
      var before := orders;
      var maxOrder := GetMaxQuestionOrder();
      var temp := TempTargets(reorders, maxOrder);
      SameKeys(reorders, maxOrder);
      TempsGoThrough(before, reorders, maxOrder, first);
      var parked := UpdateOrders(temp, first);
      RewriteKeeps(Updated(before, temp), FinalTargets(reorders), second);
      ok := UpdateOrders(FinalTargets(reorders), second);
      if !ok {
        orders := before;
      }
      UpdatedTwice(before, temp, FinalTargets(reorders));
      forall m | IsMaxOrder(before, m) && SafeTargets(before, reorders, m) ensures ok {
        OneMaximum(before, m, maxOrder);
        SecondGoesThrough(before, reorders, m, second);
      }
    }
  }

  lemma UpdatedNothing(o: Orders)
    ensures Updated(o, FinalTargets([])) == o
  {
  }

  lemma UpdatedTwice(o: Orders, temp: Orders, final: Orders)
    requires temp.Keys == final.Keys
    ensures Updated(Updated(o, temp), final) == Updated(o, final)
  {
  }

  lemma OneMaximum(o: Orders, m: int, n: int)
    requires IsMaxOrder(o, m) && IsMaxOrder(o, n)
    ensures m == n
  {
  }

  lemma {:induction false} SameKeys(reorders: seq<(QuestionId, int)>, m: int)
    ensures TempTargets(reorders, m).Keys == FinalTargets(reorders).Keys
  {
    if reorders != [] {
      SameKeys(reorders[..|reorders| - 1], m);
    }
  }

  // ----- one UPDATE -----

  /** Whatever order the rows are rewritten in, no row meets a value that another row has now or
      will have. */
  ghost predicate NoConflict(o: Orders, target: Orders) {
    forall q, p :: q in o && q in target && p in o && p != q ==>
      target[q] != o[p] && (p in target ==> target[q] != target[p])
  }

  lemma {:induction false} RewriteAll(o: Orders, target: Orders, rows: seq<QuestionId>)
    requires Unique(o) && forall q :: q in rows ==> q in o && q in target
    requires forall i, j :: 0 <= i < j < |rows| ==> rows[i] != rows[j]
    requires forall q, p :: q in rows && p in o && p != q ==> target[q] != o[p]
    requires forall q, p :: q in rows && p in rows && p != q ==> target[q] != target[p]
    ensures Rewrite(o, target, rows).Some?
  {
    if rows != [] {
      assert rows[0] in rows;
      forall q | q in rows[1..] ensures q in rows && q != rows[0] {
      }
      RewriteAll(o[rows[0] := target[rows[0]]], target, rows[1..]);
    }
  }

  /** Each intermediate state is unique, and success leads to Updated. */
  lemma {:induction false} RewriteKeeps(o: Orders, target: Orders, rows: seq<QuestionId>)
    requires Unique(o) && IsScan(rows, o, target)
    ensures Rewrite(o, target, rows).Some? ==>
              Unique(Rewrite(o, target, rows).value) && Rewrite(o, target, rows).value == Updated(o, target)
  {
    RewriteValue(o, target, rows);
  }

  lemma {:induction false} RewriteValue(o: Orders, target: Orders, rows: seq<QuestionId>)
    requires Unique(o) && forall q :: q in rows ==> q in o && q in target
    requires forall i, j :: 0 <= i < j < |rows| ==> rows[i] != rows[j]
    ensures Rewrite(o, target, rows).Some? ==>
              Unique(Rewrite(o, target, rows).value)
              && Rewrite(o, target, rows).value == map q | q in o :: if q in rows then target[q] else o[q]
  {
    if rows == [] {
      assert o == map q | q in o :: if q in rows then target[q] else o[q];
    } else if !Collides(o, rows[0], target[rows[0]]) {
      var o' := o[rows[0] := target[rows[0]]];
      RewriteValue(o', target, rows[1..]);
      assert forall q :: q in rows <==> q == rows[0] || q in rows[1..];
    }
  }

  /** A row whose new value another row keeps cannot be written, wherever it comes in the scan. */
  lemma {:induction false} KeptValueFails(o: Orders, target: Orders, rows: seq<QuestionId>, q: QuestionId,
                                          p: QuestionId)
    requires forall x :: x in rows ==> x in o && x in target
    requires q in rows && p in o && p !in rows && target[q] == o[p]
    ensures Rewrite(o, target, rows).None?
  {
    if rows[0] != q && !Collides(o, rows[0], target[rows[0]]) {
      KeptValueFails(o[rows[0] := target[rows[0]]], target, rows[1..], q, p);
    }
  }

  /** Of two rows with the same new value the later one cannot be written. */
  lemma {:induction false} SharedValueFails(o: Orders, target: Orders, rows: seq<QuestionId>, q: QuestionId,
                                            p: QuestionId)
    requires forall x :: x in rows ==> x in o && x in target
    requires forall i, j :: 0 <= i < j < |rows| ==> rows[i] != rows[j]
    requires q in rows && p in rows && q != p && target[q] == target[p]
    ensures Rewrite(o, target, rows).None?
  {
    if !Collides(o, rows[0], target[rows[0]]) {
      var o' := o[rows[0] := target[rows[0]]];
      if rows[0] == q {
        KeptValueFails(o', target, rows[1..], p, q);
      } else if rows[0] == p {
        KeptValueFails(o', target, rows[1..], q, p);
      } else {
        SharedValueFails(o', target, rows[1..], q, p);
      }
    }
  }

  /** A scan that starts with a given row. */
  lemma ScanFrom(o: Orders, target: Orders, q: QuestionId) returns (rows: seq<QuestionId>)
    requires q in o && q in target
    ensures IsScan(rows, o, target) && rows != [] && rows[0] == q
  {
    var rest := Listing((set x | x in o && x in target) - {q});
    rows := [q] + rest;
  }

  lemma Listing(s: set<QuestionId>) returns (rows: seq<QuestionId>)
    ensures forall i, j :: 0 <= i < j < |rows| ==> rows[i] != rows[j]
    ensures forall q :: q in rows <==> q in s
    decreases s
  {
    if s == {} {
      rows := [];
    } else {
      var x :| x in s;
      var rest := Listing(s - {x});
      rows := [x] + rest;
    }
  }

  ghost predicate AlwaysSucceeds(o: Orders, target: Orders) {
    forall rows :: IsScan(rows, o, target) ==> Rewrite(o, target, rows).Some?
  }

  /** One UPDATE goes through in every row order exactly when it has no conflict. */
  lemma UpdateSafeIff(o: Orders, target: Orders)
    requires Unique(o)
    ensures AlwaysSucceeds(o, target) <==> NoConflict(o, target)
  {
    if NoConflict(o, target) {
      forall rows | IsScan(rows, o, target) ensures Rewrite(o, target, rows).Some? {
        RewriteAll(o, target, rows);
      }
    } else {
      var q, p :| q in o && q in target && p in o && p != q
                  && (target[q] == o[p] || (p in target && target[q] == target[p]));
      var rows := ScanFrom(o, target, q);
      if target[q] == o[p] {
        assert Collides(o, q, target[q]);
      } else {
        SharedValueFails(o, target, rows, q, p);
      }
      assert Rewrite(o, target, rows).None?;
    }
  }

  // ----- the two phases -----

  lemma {:induction false} TempRange(reorders: seq<(QuestionId, int)>, m: int)
    ensures forall q :: q in TempTargets(reorders, m) ==> m < TempTargets(reorders, m)[q] <= m + |reorders|
    ensures Unique(TempTargets(reorders, m))
  {
    if reorders != [] {
      TempRange(reorders[..|reorders| - 1], m);
    }
  }

  /** Parking the rows above the maximum never conflicts. */
  lemma TempsGoThrough(o: Orders, reorders: seq<(QuestionId, int)>, m: int, rows: seq<QuestionId>)
    requires Unique(o) && IsMaxOrder(o, m) && IsScan(rows, o, TempTargets(reorders, m))
    ensures Rewrite(o, TempTargets(reorders, m), rows) == Some(Updated(o, TempTargets(reorders, m)))
    ensures Unique(Updated(o, TempTargets(reorders, m)))
  {
    TempRange(reorders, m);
    RewriteAll(o, TempTargets(reorders, m), rows);
    RewriteKeeps(o, TempTargets(reorders, m), rows);
  }

  /** No requested order is shared, is in use outside the list, or is a parking place of another
      listed question. */
  ghost predicate SafeTargets(o: Orders, reorders: seq<(QuestionId, int)>, m: int) {
    var final := FinalTargets(reorders);
    var temp := TempTargets(reorders, m);
    forall q, p :: q in o && q in final && p in o && p != q ==>
      if p in final && p in temp then final[q] != final[p] && final[q] != temp[p] else final[q] != o[p]
  }

  lemma SafeIsNoConflict(o: Orders, reorders: seq<(QuestionId, int)>, m: int)
    ensures SafeTargets(o, reorders, m) <==> NoConflict(Updated(o, TempTargets(reorders, m)), FinalTargets(reorders))
  {
    SameKeys(reorders, m);
  }

  lemma SecondGoesThrough(o: Orders, reorders: seq<(QuestionId, int)>, m: int, rows: seq<QuestionId>)
    requires Unique(o) && IsMaxOrder(o, m) && SafeTargets(o, reorders, m)
    requires IsScan(rows, o, FinalTargets(reorders))
    ensures Rewrite(Updated(o, TempTargets(reorders, m)), FinalTargets(reorders), rows).Some?
  {
    hide SafeTargets, NoConflict, Rewrite, Updated;
    var parked := Updated(o, TempTargets(reorders, m));
    SafeIsNoConflict(o, reorders, m);
    ParkedUnique(o, reorders, m);
    assert IsScan(rows, parked, FinalTargets(reorders)) by {
      UpdatedKeys(o, TempTargets(reorders, m));
    }
    UpdateSafeIff(parked, FinalTargets(reorders));
  }

  lemma UpdatedKeys(o: Orders, target: Orders)
    ensures Updated(o, target).Keys == o.Keys
  {
  }

  lemma ParkedUnique(o: Orders, reorders: seq<(QuestionId, int)>, m: int)
    requires Unique(o) && IsMaxOrder(o, m)
    ensures Unique(Updated(o, TempTargets(reorders, m)))
  {
    TempRange(reorders, m);
  }

  /** The whole reordering goes through, for every row order of both statements, exactly when the
      targets are safe: the two-step update removes the conflicts among the old orders only. */
  lemma ReorderSafeIff(o: Orders, reorders: seq<(QuestionId, int)>, m: int)
    requires Unique(o) && IsMaxOrder(o, m)
    ensures AlwaysSucceeds(o, TempTargets(reorders, m))
    ensures AlwaysSucceeds(Updated(o, TempTargets(reorders, m)), FinalTargets(reorders))
        <==> SafeTargets(o, reorders, m)
  {
    hide SafeTargets, NoConflict, Rewrite;
    forall rows | IsScan(rows, o, TempTargets(reorders, m)) ensures Rewrite(o, TempTargets(reorders, m), rows).Some? {
      TempsGoThrough(o, reorders, m, rows);
    }
    ParkedUnique(o, reorders, m);
    SafeIsNoConflict(o, reorders, m);
    UpdateSafeIff(Updated(o, TempTargets(reorders, m)), FinalTargets(reorders));
  }

  // ----- what callers may rely on -----

  /** Distinct targets, unused outside the list and at most the current maximum, are safe. */
  lemma UpToMaximumIsSafe(o: Orders, reorders: seq<(QuestionId, int)>, m: int)
    requires IsMaxOrder(o, m)
    requires var final := FinalTargets(reorders);
             && Unique(final)
             && (forall q :: q in final ==> final[q] <= m)
             && (forall q, p :: q in final && p in o && p !in final ==> final[q] != o[p])
    ensures SafeTargets(o, reorders, m)
  {
    TempRange(reorders, m);
    SameKeys(reorders, m);
  }

  lemma {:induction false} Pigeonhole(o: Orders, m: nat)
    requires Unique(o) && forall q :: q in o ==> 1 <= o[q] <= m
    ensures |o| <= m
  {
    if q :| q in o && o[q] == m {
      var rest := o - {q};
      assert rest.Keys == o.Keys - {q};
      Pigeonhole(rest, m - 1);
    } else if m > 0 {
      Pigeonhole(o, m - 1);
    } else {
      NoRows(o);
    }
  }

  lemma NoRows(o: Orders)
    requires forall q :: q !in o
    ensures |o| == 0
  {
    if o.Keys != {} {
      NonEmpty(o.Keys);
    }
  }

  /** The service hands over all questions with targets 1 .. N. That is safe when the stored orders
      are positive, as they always are (ContestOrders.ServiceHistory). */
  lemma ServiceOrdersAreSafe(o: Orders, reorders: seq<(QuestionId, int)>, m: int)
    requires Unique(o) && IsMaxOrder(o, m) && forall q :: q in o ==> o[q] >= 1
    requires var final := FinalTargets(reorders);
             final.Keys == o.Keys && Unique(final) && forall q :: q in final ==> 1 <= final[q] <= |o|
    ensures SafeTargets(o, reorders, m)
  {
    if o != map[] {
      var q :| q in o && o[q] == m;
      Pigeonhole(o, m);
    }
    UpToMaximumIsSafe(o, reorders, m);
  }

  /** The hypothesis cannot be dropped: with an order 0, which nothing writes, N could be another
      question's parking place. */
  lemma ServiceOrdersCanFail(a: QuestionId, b: QuestionId)
    requires a != b
    ensures var o := map[a := 0, b := 1];
            var reorders := [(a, 1), (b, 2)];
            && Unique(o) && IsMaxOrder(o, 1)
            && FinalTargets(reorders) == map[a := 1, b := 2] && !SafeTargets(o, reorders, 1)
  {
    var o := map[a := 0, b := 1];
    var reorders := [(a, 1), (b, 2)];
    assert o[b] == 1;
    Appended([], (a, 1), 1);
    Appended([(a, 1)], (b, 2), 1);
    assert [] + [(a, 1)] == [(a, 1)] && [(a, 1)] + [(b, 2)] == reorders;
    assert FinalTargets(reorders) == map[a := 1, b := 2] && TempTargets(reorders, 1) == map[a := 2, b := 3];
    assert FinalTargets(reorders)[b] == TempTargets(reorders, 1)[a];
  }

  lemma Appended(reorders: seq<(QuestionId, int)>, r: (QuestionId, int), m: int)
    ensures FinalTargets(reorders + [r]) == FinalTargets(reorders)[r.0 := r.1]
    ensures TempTargets(reorders + [r], m) == TempTargets(reorders, m)[r.0 := m + |reorders| + 1]
  {
    assert (reorders + [r])[..|reorders|] == reorders;
  }
}
