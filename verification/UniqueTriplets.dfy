/** The reference solution of "Three Sum (Count Unique Triplets)": sort, fix the least value,
    and close in on the other two from both ends while skipping repeated values. */
module UniqueTriplets {
  import opened Collections

  type Triple = (int, int, int)

  /** The problem statement: value triples a <= b <= c that sum to zero and whose three values
      are found at three different positions of arr (see ToPositions and FromPositions). */
  ghost predicate IsTriplet(arr: seq<int>, t: Triple) {
    t.0 <= t.1 <= t.2 && t.0 + t.1 + t.2 == 0 && multiset{t.0, t.1, t.2} <= multiset(arr)
  }

  ghost function Triplets(arr: seq<int>): set<Triple> {
    set a, b, c {:trigger IsTriplet(arr, (a, b, c))} |
      a in arr && b in arr && c in arr && IsTriplet(arr, (a, b, c)) :: (a, b, c)
  }

  // ----- sorting -----

  ghost predicate IsSorted(s: seq<int>) {
    forall i, j :: 0 <= i < j < |s| ==> s[i] <= s[j]
  }

  function Insert(s: seq<int>, x: int): seq<int> {
    if s == [] || x <= s[0] then [x] + s else [s[0]] + Insert(s[1..], x)
  }

  /** Python's built-in sorted. */
  function Sorted(arr: seq<int>): seq<int> {
    if arr == [] then [] else Insert(Sorted(arr[1..]), arr[0])
  }

  lemma {:induction false} InsertMultiset(s: seq<int>, x: int)
    ensures multiset(Insert(s, x)) == multiset(s) + multiset{x}
  {
    if s != [] && x > s[0] {
      InsertMultiset(s[1..], x);
      assert s == [s[0]] + s[1..];
    }
  }

  lemma {:induction false} InsertMembers(s: seq<int>, x: int)
    ensures forall v :: v in Insert(s, x) ==> v == x || v in s
  {
    if s != [] && x > s[0] {
      InsertMembers(s[1..], x);
    }
  }

  lemma {:induction false} InsertSorted(s: seq<int>, x: int)
    requires IsSorted(s)
    ensures IsSorted(Insert(s, x))
  {
    if s != [] && x > s[0] {
      var rest := Insert(s[1..], x);
      InsertSorted(s[1..], x);
      InsertMembers(s[1..], x);
      forall j | 0 <= j < |rest| ensures s[0] <= rest[j] {
        assert rest[j] in rest;
      }
    }
  }

  lemma {:induction false} SortedKeeps(arr: seq<int>)
    ensures IsSorted(Sorted(arr)) && multiset(Sorted(arr)) == multiset(arr)
    ensures |Sorted(arr)| == |arr|
  {
    if arr != [] {
      SortedKeeps(arr[1..]);
      InsertSorted(Sorted(arr[1..]), arr[0]);
      InsertMultiset(Sorted(arr[1..]), arr[0]);
      assert arr == [arr[0]] + arr[1..];
    }
    assert |multiset(Sorted(arr))| == |multiset(arr)|;
  }

  lemma InOrder(s: seq<int>, i: int, j: int)
    requires IsSorted(s) && 0 <= i <= j < |s|
    ensures s[i] <= s[j]
  {
  }

  // ----- positions and multiplicity -----

  function Without<T>(s: seq<T>, p: nat): seq<T>
    requires p < |s|
  {
    s[..p] + s[p + 1..]
  }

  /** Position p of the sequence without position gap, as a position of the sequence. */
  function Shift(p: nat, gap: nat): nat {
    if p < gap then p else p + 1
  }

  lemma CancelOne<T>(a: multiset<T>, b: multiset<T>, v: T)
    requires a + multiset{v} <= b + multiset{v}
    ensures a <= b
  {
    forall x ensures a[x] <= b[x] {
      assert (a + multiset{v})[x] <= (b + multiset{v})[x];
    }
  }

  lemma Pick<T>(s: seq<T>, rest: multiset<T>, v: T) returns (p: nat)
    requires rest + multiset{v} <= multiset(s)
    ensures p < |s| && s[p] == v && rest <= multiset(Without(s, p))
  {
    assert v in rest + multiset{v};
    assert v in multiset(s);
    p :| p < |s| && s[p] == v;
    assert s == s[..p] + [v] + s[p + 1..];
    CancelOne(rest, multiset(Without(s, p)), v);
  }

  /** Three values held with multiplicity stand at three different positions. */
  lemma ToPositions<T>(s: seq<T>, a: T, b: T, c: T) returns (x: nat, y: nat, z: nat)
    requires multiset{a, b, c} <= multiset(s)
    ensures x < |s| && y < |s| && z < |s| && x != y && y != z && x != z
    ensures s[x] == a && s[y] == b && s[z] == c
  {
    assert multiset{a, b, c} == multiset{a, b} + multiset{c};
    z := Pick(s, multiset{a, b}, c);
    var y1, x1 := ToTwoPositions(Without(s, z), a, b);
    y, x := Shift(y1, z), Shift(x1, z);
  }

  lemma ToTwoPositions<T>(s: seq<T>, a: T, b: T) returns (y: nat, x: nat)
    requires multiset{a, b} <= multiset(s)
    ensures x < |s| && y < |s| && x != y && s[x] == a && s[y] == b
  {
    assert multiset{a, b} == multiset{a} + multiset{b};
    y := Pick(s, multiset{a}, b);
    assert multiset{a} == multiset{} + multiset{a};
    var x1 := Pick(Without(s, y), multiset{}, a);
    x := Shift(x1, y);
  }

  lemma FromPositions<T>(s: seq<T>, x: int, y: int, z: int)
    requires 0 <= x < y < z < |s|
    ensures multiset{s[x], s[y], s[z]} <= multiset(s)
  {
    assert s == s[..x] + [s[x]] + s[x + 1..y] + [s[y]] + s[y + 1..z] + [s[z]] + s[z + 1..];
  }

  lemma Members<T>(s: seq<T>, a: T, b: T, c: T)
    requires multiset{a, b, c} <= multiset(s)
    ensures a in s && b in s && c in s
  {
    assert a in multiset(s) && b in multiset(s) && c in multiset(s);
  }

  // ----- triples by position of a sorted sequence -----

  /** The triples whose first position is below i. */
  ghost function From(s: seq<int>, i: int): set<Triple> {
    set x, y, z | 0 <= x < y < z < |s| && x < i && s[x] + s[y] + s[z] == 0 :: (s[x], s[y], s[z])
  }

  /** Value pairs between positions l and r, both included, that sum to target. */
  ghost function Pairs(s: seq<int>, target: int, l: int, r: int): set<(int, int)> {
    set y, z | 0 <= l <= y < z <= r < |s| && s[y] + s[z] == target :: (s[y], s[z])
  }

  lemma FromSpot(s: seq<int>, i: int, t: Triple) returns (x: int, y: int, z: int)
    requires t in From(s, i)
    ensures 0 <= x < y < z < |s| && x < i && t == (s[x], s[y], s[z]) && s[x] + s[y] + s[z] == 0
  {
    x, y, z :| 0 <= x < y < z < |s| && x < i && s[x] + s[y] + s[z] == 0 && t == (s[x], s[y], s[z]);
  }

  lemma InFrom(s: seq<int>, i: int, x: int, y: int, z: int)
    requires 0 <= x < y < z < |s| && x < i && s[x] + s[y] + s[z] == 0
    ensures (s[x], s[y], s[z]) in From(s, i)
  {
  }

  lemma PairSpot(s: seq<int>, target: int, l: int, r: int, p: (int, int)) returns (y: int, z: int)
    requires p in Pairs(s, target, l, r)
    ensures 0 <= l <= y < z <= r < |s| && p == (s[y], s[z]) && s[y] + s[z] == target
  {
    y, z :| 0 <= l <= y < z <= r < |s| && s[y] + s[z] == target && p == (s[y], s[z]);
  }

  lemma InPairs(s: seq<int>, target: int, l: int, r: int, y: int, z: int)
    requires 0 <= l <= y < z <= r < |s| && s[y] + s[z] == target
    ensures (s[y], s[z]) in Pairs(s, target, l, r)
  {
  }

  lemma NoTriples(s: seq<int>, i: int)
    requires i <= 0 || |s| <= 2
    ensures From(s, i) == {}
  {
  }

  lemma NoPairs(s: seq<int>, target: int, l: int, r: int)
    requires l >= r
    ensures Pairs(s, target, l, r) == {}
  {
  }

  /** Three distinct positions holding ascending values can be put in ascending order. */
  lemma Ordered(s: seq<int>, p: nat, q: nat, r: nat) returns (x: int, y: int, z: int)
    requires IsSorted(s) && p < |s| && q < |s| && r < |s| && p != q && q != r && p != r
    requires s[p] <= s[q] <= s[r]
    ensures 0 <= x < y < z < |s| && s[x] == s[p] && s[y] == s[q] && s[z] == s[r]
  {
    x := if p < q then (if p < r then p else r) else (if q < r then q else r);
    z := if p > q then (if p > r then p else r) else (if q > r then q else r);
    y := p + q + r - x - z;
  }

  /** On the sorted array the triplets are those found by position. */
  lemma TripletsByPosition(arr: seq<int>)
    ensures Triplets(arr) == From(Sorted(arr), |arr| - 2)
  {
    hide IsSorted, From, Sorted;
    var s := Sorted(arr);
    SortedKeeps(arr);
    forall t | t in Triplets(arr) ensures t in From(s, |s| - 2) {
      var p, q, r := ToPositions(s, t.0, t.1, t.2);
      var x, y, z := Ordered(s, p, q, r);
      InFrom(s, |s| - 2, x, y, z);
    }
    forall t | t in From(s, |s| - 2) ensures t in Triplets(arr) {
      FromIsTriplet(arr, t);
    }
  }

  lemma FromIsTriplet(arr: seq<int>, t: Triple)
    requires t in From(Sorted(arr), |arr| - 2)
    ensures t in Triplets(arr)
  {
    hide IsSorted, From, Sorted;
    var s := Sorted(arr);
    SortedKeeps(arr);
    var x, y, z := FromSpot(s, |arr| - 2, t);
    FromPositions(s, x, y, z);
    InOrder(s, x, y);
    InOrder(s, y, z);
    Members(arr, t.0, t.1, t.2);
    assert IsTriplet(arr, (t.0, t.1, t.2));
  }

  /** A first value seen before adds no triple. */
  lemma FromRepeated(s: seq<int>, i: nat)
    requires 0 < i < |s| && s[i] == s[i - 1]
    ensures From(s, i + 1) == From(s, i)
  {
    hide From;
    forall t | t in From(s, i + 1) ensures t in From(s, i) {
      var x, y, z := FromSpot(s, i + 1, t);
      InFrom(s, i, if x == i then i - 1 else x, y, z);
    }
    forall t | t in From(s, i) ensures t in From(s, i + 1) {
      var x, y, z := FromSpot(s, i, t);
      InFrom(s, i + 1, x, y, z);
    }
  }

  /** The triples that start with s[i]. */
  ghost function Starting(s: seq<int>, i: nat): set<Triple>
    requires i < |s|
  {
    set p | p in Pairs(s, -s[i], i + 1, |s| - 1) :: (s[i], p.0, p.1)
  }

  lemma FromSplits(s: seq<int>, i: nat)
    requires i < |s|
    ensures From(s, i + 1) == From(s, i) + Starting(s, i)
  {
    hide From, Pairs;
    forall t | t in Starting(s, i) ensures t in From(s, i + 1) {
      var y, z := PairSpot(s, -s[i], i + 1, |s| - 1, (t.1, t.2));
      InFrom(s, i + 1, i, y, z);
    }
    forall t | t in From(s, i + 1) ensures t in From(s, i) + Starting(s, i) {
      var x, y, z := FromSpot(s, i + 1, t);
      if x == i {
        InPairs(s, -s[i], i + 1, |s| - 1, y, z);
      } else {
        InFrom(s, i, x, y, z);
      }
    }
    forall t | t in From(s, i) ensures t in From(s, i + 1) {
      var x, y, z := FromSpot(s, i, t);
      InFrom(s, i + 1, x, y, z);
    }
  }

  /** A new first value adds one triple per value pair. */
  lemma FromNew(s: seq<int>, i: nat)
    requires IsSorted(s) && i < |s| && (i > 0 ==> s[i] != s[i - 1])
    ensures |From(s, i + 1)| == |From(s, i)| + |Pairs(s, -s[i], i + 1, |s| - 1)|
  {
    hide IsSorted, From, Pairs;
    FromSplits(s, i);
    PrefixedSize(Pairs(s, -s[i], i + 1, |s| - 1), s[i], Starting(s, i));
    forall t | t in From(s, i) ensures t !in Starting(s, i) {
      var x, y, z := FromSpot(s, i, t);
      InOrder(s, x, i - 1);
      InOrder(s, i - 1, i);
    }
  }

  lemma {:induction false} PrefixedSize(pairs: set<(int, int)>, v: int, triples: set<Triple>)
    requires triples == set p | p in pairs :: (v, p.0, p.1)
    ensures |triples| == |pairs|
    decreases pairs
  {
    if pairs == {} {
      assert triples == {};
    } else {
      var q :| q in pairs;
      var rest := set p | p in pairs - {q} :: (v, p.0, p.1);
      PrefixedSize(pairs - {q}, v, rest);
      assert triples == rest + {(v, q.0, q.1)};
    }
  }

  /** A smaller window has no pair that the larger one lacks. */
  lemma Narrower(s: seq<int>, target: int, l: int, r: int, l': int, r': int)
    requires 0 <= l <= l' && r' <= r < |s|
    ensures Pairs(s, target, l', r') <= Pairs(s, target, l, r)
  {
    hide Pairs;
    forall p | p in Pairs(s, target, l', r') ensures p in Pairs(s, target, l, r) {
      var y, z := PairSpot(s, target, l', r', p);
      InPairs(s, target, l, r, y, z);
    }
  }

  /** Two ends that sum too low: no pair uses the left one. */
  lemma DropLeft(s: seq<int>, target: int, l: int, r: int)
    requires IsSorted(s) && 0 <= l < r < |s| && s[l] + s[r] < target
    ensures Pairs(s, target, l, r) == Pairs(s, target, l + 1, r)
  {
    hide IsSorted, Pairs;
    forall p | p in Pairs(s, target, l, r) ensures p in Pairs(s, target, l + 1, r) {
      var y, z := PairSpot(s, target, l, r, p);
      InOrder(s, z, r);
      InPairs(s, target, l + 1, r, y, z);
    }
    Narrower(s, target, l, r, l + 1, r);
  }

  /** Two ends that sum too high: no pair uses the right one. */
  lemma DropRight(s: seq<int>, target: int, l: int, r: int)
    requires IsSorted(s) && 0 <= l < r < |s| && s[l] + s[r] > target
    ensures Pairs(s, target, l, r) == Pairs(s, target, l, r - 1)
  {
    hide IsSorted, Pairs;
    forall p | p in Pairs(s, target, l, r) ensures p in Pairs(s, target, l, r - 1) {
      var y, z := PairSpot(s, target, l, r, p);
      InOrder(s, l, y);
      InPairs(s, target, l, r - 1, y, z);
    }
    Narrower(s, target, l, r, l, r - 1);
  }

  /** Two ends that fit are one value pair, and the skips pass over that pair only. */
  lemma CountEnds(s: seq<int>, target: int, l: int, r: int, left: int, right: int)
    requires IsSorted(s) && 0 <= l < r < |s| && s[l] + s[r] == target
    requires l < left <= right + 2 && right < r
    requires forall x :: l <= x < left ==> s[x] == s[l]
    requires forall x :: right < x <= r ==> s[x] == s[r]
    requires left < right ==> s[left] != s[l]
    ensures |Pairs(s, target, l, r)| == 1 + |Pairs(s, target, left, right)|
  {
    hide IsSorted, Pairs;
    var inner := Pairs(s, target, left, right);
    forall p | p in Pairs(s, target, l, r) ensures p in inner + {(s[l], s[r])} {
      var y, z := PairSpot(s, target, l, r, p);
      if s[y] != s[l] {
        InPairs(s, target, left, right, y, z);
      }
    }
    if (s[l], s[r]) in inner {
      var y, z := PairSpot(s, target, left, right, (s[l], s[r]));
      InOrder(s, l, left);
      InOrder(s, left, y);
      assert false;
    }
    InPairs(s, target, l, r, l, r);
    Narrower(s, target, l, r, left, right);
    assert Pairs(s, target, l, r) == inner + {(s[l], s[r])};
  }

  method CountUniqueTriplets(arr: seq<int>) returns (count: nat)
    ensures count == |Triplets(arr)|
  {
    hide IsSorted, Triplets, From, Pairs;
    var s := Sorted(arr);
    SortedKeeps(arr);
    TripletsByPosition(arr);
    var n := |s|;
    count := 0;
    NoTriples(s, 0);
    for i := 0 to if n < 2 then 0 else n - 2
      invariant count == |From(s, i)|
    {
      if i > 0 && s[i] == s[i - 1] {
        FromRepeated(s, i);
        continue;
      }
      FromNew(s, i);
      ghost var target, base := -s[i], count;
      var left, right := i + 1, n - 1;
      while left < right
        invariant i < left <= right + 2 && right < n
        invariant count + |Pairs(s, target, left, right)| == base + |Pairs(s, target, i + 1, n - 1)|
      {
        var total := s[i] + s[left] + s[right];
        ghost var l, r := left, right;
        if total == 0 {
          count := count + 1;
          left := left + 1;
          right := right - 1;
          while left < right && s[left] == s[left - 1]
            invariant l < left <= right + 2
            invariant forall x :: l <= x < left ==> s[x] == s[l]
          {
            left := left + 1;
          }
          while left < right && s[right] == s[right + 1]
            invariant right < r && left <= right + 2
            invariant forall x :: right < x <= r ==> s[x] == s[r]
          {
            right := right - 1;
          }
          CountEnds(s, target, l, r, left, right);
        } else if total < 0 {
          DropLeft(s, target, left, right);
          left := left + 1;
        } else {
          DropRight(s, target, left, right);
          right := right - 1;
        }
      }
      NoPairs(s, target, left, right);
    }
    if n < 2 {
      NoTriples(s, n - 2);
    }
  }
}
