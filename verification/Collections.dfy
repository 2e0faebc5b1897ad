/** Small facts about finite sets and maps that the other modules share. */
module Collections {

  datatype Option<+T> = None | Some(value: T)

  /** A worker process. */
  datatype Worker = Worker(id: nat)

  function GetOr<K, V>(m: map<K, V>, k: K, d: V): V {
    if k in m then m[k] else d
  }

  function Sum(xs: seq<int>): int {
    if xs == [] then 0 else Sum(xs[..|xs| - 1]) + xs[|xs| - 1]
  }

  lemma {:induction false} SumAppend(xs: seq<int>, ys: seq<int>)
    ensures Sum(xs + ys) == Sum(xs) + Sum(ys) && forall x :: Sum([x]) == x
  {
    forall x ensures Sum([x]) == x {
      assert [x][..0] == [];
    }
    if ys == [] {
      assert xs + ys == xs;
    } else {
      SumAppend(xs, ys[..|ys| - 1]);
      assert (xs + ys)[..|xs + ys| - 1] == xs + ys[..|ys| - 1];
    }
  }

  ghost predicate Distinct<T>(q: seq<T>) {
    forall i, j :: 0 <= i < j < |q| ==> q[i] != q[j]
  }

  lemma NonEmpty<T>(s: set<T>)
    requires s != {}
    ensures exists x :: x in s
  {
    var x :| x in s;
  }

  /** Pairing every member of a set with one fixed value keeps its size. */
  lemma {:induction false} PairedSize<A, B>(s: set<A>, e: B, paired: set<(A, B)>)
    requires paired == set x | x in s :: (x, e)
    ensures |paired| == |s|
    decreases s
  {
    if s == {} {
      assert paired == {};
    } else {
      var x :| x in s;
      var rest := set y | y in s - {x} :: (y, e);
      PairedSize(s - {x}, e, rest);
      assert paired == rest + {(x, e)};
    }
  }

  lemma SubsetSize<T>(a: set<T>, b: set<T>)
    requires a <= b
    ensures |a| <= |b|
    ensures |a| == |b| ==> a == b
  {
    assert b == a + (b - a);
  }

  /** A set that differs from another at most in whether it holds s. */
  lemma ReplacedSize<T>(h: set<T>, s: T, stays: bool, h': set<T>)
    requires forall x :: x in h' <==> (x != s && x in h) || (x == s && stays)
    ensures |h'| == |h| + (if stays then 1 else 0) - (if s in h then 1 else 0)
  {
    var rest := h - {s};
    assert |rest| == |h| - if s in h then 1 else 0;
    if stays {
      assert h' == rest + {s};
    } else {
      assert h' == rest;
    }
  }

  lemma DistinctSize<T>(q: seq<T>, S: set<T>)
    requires Distinct(q) && S == set x | x in q
    ensures |S| == |q|
  {
    if q == [] {
      assert S == {};
    } else {
      var init := q[..|q| - 1];
      var last := q[|q| - 1];
      DistinctSize(init, set x | x in init);
      assert q == init + [last];
      assert last !in init;
      assert S == (set x | x in init) + {last};
    }
  }
}
