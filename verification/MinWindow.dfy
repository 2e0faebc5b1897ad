/** The reference solution of "Minimum Window Substring": a window that grows on
    the right and, while it covers t, shrinks from the left. */
module MinWindow {
  import opened Collections

  /** The characters of s[i..j], with multiplicity, gathered one by one. */
  ghost function Window(s: string, i: int, j: int): multiset<char>
    requires 0 <= i <= j <= |s|
    decreases j
  {
    if i == j then multiset{} else Window(s, i, j - 1) + multiset{s[j - 1]}
  }

  /** The window from i to j holds every character of t at least as often as t does. */
  ghost predicate Covers(s: string, i: int, j: int, t: multiset<char>) {
    0 <= i <= j <= |s| && t <= Window(s, i, j)
  }

  /** The problem statement: s[i..j] contains t, duplicates included. */
  ghost predicate Contains(s: string, i: int, j: int, t: string) {
    0 <= i <= j <= |s| && multiset(t) <= multiset(s[i..j])
  }

  /** r is the answer the problem statement asks for. */
  ghost predicate IsAnswer(s: string, t: string, r: nat) {
    if t == "" || !exists i, j :: Contains(s, i, j, t)
    then r == 0
    else (exists i, j :: Contains(s, i, j, t) && j - i == r)
         && forall i, j :: Contains(s, i, j, t) ==> r <= j - i
  }

  lemma {:induction false} WindowIsSlice(s: string, i: int, j: int)
    requires 0 <= i <= j <= |s|
    ensures Window(s, i, j) == multiset(s[i..j])
    decreases j
  {
    if i == j {
      assert s[i..j] == [];
    } else {
      WindowIsSlice(s, i, j - 1);
      assert s[i..j] == s[i..j - 1] + [s[j - 1]];
    }
  }

  lemma {:induction false} DropFirst(s: string, i: int, j: int)
    requires 0 <= i < j <= |s|
    ensures Window(s, i, j) == Window(s, i + 1, j) + multiset{s[i]}
    decreases j
  {
    if i + 1 < j {
      DropFirst(s, i, j - 1);
    }
  }

  /** A window holds everything that a window starting later holds. */
  lemma {:induction false} StartEarlier(s: string, i: int, i': int, j: int)
    requires 0 <= i <= i' <= j <= |s|
    ensures Window(s, i', j) <= Window(s, i, j)
    decreases i' - i
  {
    if i < i' {
      DropFirst(s, i, j);
      StartEarlier(s, i + 1, i', j);
    }
  }

  /** The dictionary read with default 0, as the loops read it. */
  ghost function Read(need: map<char, int>): imap<char, int> {
    imap c: char :: GetOr(need, c, 0)
  }

  /** For every character, the count in t minus the count in w. */
  ghost function Balance(t: multiset<char>, w: multiset<char>): imap<char, int> {
    imap c: char :: t[c] as int - w[c] as int
  }

  /** The dictionary and the counter agree with a window holding w. */
  ghost predicate InStep(t: multiset<char>, w: multiset<char>, need: map<char, int>, missing: int) {
    Read(need) == Balance(t, w) && missing == |t - w|
  }

  /** One more character c in the window lowers what is missing exactly when it was needed. */
  lemma MissingAfterAdd(t: multiset<char>, w: multiset<char>, c: char)
    ensures |t - (w + multiset{c})| == |t - w| - if t[c] > w[c] then 1 else 0
  {
    if t[c] > w[c] {
      assert t - w == (t - (w + multiset{c})) + multiset{c};
    } else {
      assert t - w == t - (w + multiset{c});
    }
  }

  lemma NothingMissing(t: multiset<char>, w: multiset<char>)
    ensures |t - w| == 0 <==> t <= w
  {
    if t <= w {
      assert t - w == multiset{};
    } else {
      var c :| t[c] > w[c];
      assert c in t - w;
    }
  }

  lemma Grow(s: string, t: multiset<char>, i: nat, j: nat, need: map<char, int>, missing: int)
    requires i <= j < |s| && InStep(t, Window(s, i, j), need, missing)
    ensures InStep(t, Window(s, i, j + 1), need[s[j] := GetOr(need, s[j], 0) - 1],
                   if GetOr(need, s[j], 0) > 0 then missing - 1 else missing)
  {
    hide InStep, Window;
    DropLast(s, i, j);
    GrowBy(t, Window(s, i, j), need, missing, s[j]);
  }

  lemma DropLast(s: string, i: nat, j: nat)
    requires i <= j < |s|
    ensures Window(s, i, j + 1) == Window(s, i, j) + multiset{s[j]}
  {
    assert s[i..j + 1] == s[i..j] + [s[j]];
  }

  lemma GrowBy(t: multiset<char>, w: multiset<char>, need: map<char, int>, missing: int, c: char)
    requires InStep(t, w, need, missing)
    ensures InStep(t, w + multiset{c}, need[c := GetOr(need, c, 0) - 1],
                   if GetOr(need, c, 0) > 0 then missing - 1 else missing)
  {
    assert GetOr(need, c, 0) == Read(need)[c] == Balance(t, w)[c];
    MissingAfterAdd(t, w, c);
    assert Read(need[c := GetOr(need, c, 0) - 1]) == Read(need)[c := GetOr(need, c, 0) - 1];
    assert Balance(t, w + multiset{c}) == Balance(t, w)[c := Balance(t, w)[c] - 1];
  }

  lemma Shrink(s: string, t: multiset<char>, i: nat, j: nat, need: map<char, int>, missing: int)
    requires i < j <= |s| && InStep(t, Window(s, i, j), need, missing)
    ensures var need' := need[s[i] := GetOr(need, s[i], 0) + 1];
            InStep(t, Window(s, i + 1, j), need', if need'[s[i]] > 0 then missing + 1 else missing)
  {
    hide InStep, Window;
    DropFirst(s, i, j);
    ShrinkBy(t, Window(s, i + 1, j), need, missing, s[i]);
  }

  lemma ShrinkBy(t: multiset<char>, w: multiset<char>, need: map<char, int>, missing: int, c: char)
    requires InStep(t, w + multiset{c}, need, missing)
    ensures var need' := need[c := GetOr(need, c, 0) + 1];
            InStep(t, w, need', if need'[c] > 0 then missing + 1 else missing)
  {
    assert GetOr(need, c, 0) == Read(need)[c] == Balance(t, w + multiset{c})[c];
    MissingAfterAdd(t, w, c);
    assert Read(need[c := GetOr(need, c, 0) + 1]) == Read(need)[c := GetOr(need, c, 0) + 1];
    assert Balance(t, w + multiset{c}) == Balance(t, w)[c := Balance(t, w)[c] - 1];
    assert Balance(t, w) == Balance(t, w + multiset{c})[c := Balance(t, w + multiset{c})[c] + 1];
  }

  /** The running minimum: best is the least length of a covering window that ends at or
      before end, or |s| + 1 when there is none. */
  ghost predicate IsBest(s: string, t: multiset<char>, end: int, best: nat) {
    && 0 < best <= |s| + 1
    && (best <= |s| ==> exists i, j :: Covers(s, i, j, t) && j - i == best)
    && forall i, j :: j <= end && Covers(s, i, j, t) ==> best <= j - i
  }

  /** A window with nothing missing covers t, so it is not empty and may lower the minimum. */
  lemma Measure(s: string, t: multiset<char>, left: nat, end: nat, best: nat, need: map<char, int>)
    requires t != multiset{} && left <= end <= |s| && InStep(t, Window(s, left, end), need, 0)
    requires IsBest(s, t, end - 1, best)
    ensures left < end
    ensures IsBest(s, t, end - 1, if end - left < best then end - left else best)
  {
    NothingMissing(t, Window(s, left, end));
    assert Covers(s, left, end, t);
  }

  /** Once the window that starts at left no longer covers t, every covering window ending at
      end starts before left, and those were measured. */
  lemma BestExtended(s: string, t: multiset<char>, left: nat, end: nat, best: nat,
                     need: map<char, int>, missing: int)
    requires left <= end <= |s| && InStep(t, Window(s, left, end), need, missing) && missing != 0
    requires IsBest(s, t, end - 1, best)
    requires left > 0 ==> best <= end - (left - 1)
    ensures IsBest(s, t, end, best)
  {
    NothingMissing(t, Window(s, left, end));
    forall i, j | j <= end && Covers(s, i, j, t) ensures best <= j - i {
      if j == end && left <= i {
        StartEarlier(s, left, i, end);
      }
    }
  }

  lemma BestIsAnswer(s: string, t: string, best: nat)
    requires t != "" && IsBest(s, multiset(t), |s|, best)
    ensures IsAnswer(s, t, if best == |s| + 1 then 0 else best)
  {
    forall i, j ensures Covers(s, i, j, multiset(t)) <==> Contains(s, i, j, t) {
      if 0 <= i <= j <= |s| {
        WindowIsSlice(s, i, j);
      }
    }
    if i, j :| Contains(s, i, j, t) {
      assert best <= j - i;
    }
  }

  /** need after counting the characters of t. */
  method CountNeeds(t: string) returns (need: map<char, int>)
    ensures Read(need) == Balance(multiset(t), multiset{})
  {
    need := map[];
    for n := 0 to |t|
      invariant Read(need) == Balance(multiset(t[..n]), multiset{})
    {
      assert t[..n + 1] == t[..n] + [t[n]];
      assert GetOr(need, t[n], 0) == Read(need)[t[n]] == Balance(multiset(t[..n]), multiset{})[t[n]];
      need := need[t[n] := GetOr(need, t[n], 0) + 1];
    }
    assert t[..|t|] == t;
  }

  lemma Start(s: string, t: string, need: map<char, int>)
    requires t != "" && Read(need) == Balance(multiset(t), multiset{})
    ensures multiset(t) != multiset{}
    ensures InStep(multiset(t), Window(s, 0, 0), need, |t|)
    ensures IsBest(s, multiset(t), 0, |s| + 1)
  {
    assert multiset(t) - multiset{} == multiset(t);
    assert t[0] in multiset(t);
  }

  method MinWindowLength(s: string, t: string) returns (r: nat)
    ensures IsAnswer(s, t, r)
  {
    hide InStep, IsBest, Window;
    if |t| == 0 {
      return 0;
    }
    ghost var mt := multiset(t);
    var need := CountNeeds(t);
    var missing: int := |t|;
    var left: nat := 0;
    var best: nat := |s| + 1;
    Start(s, t, need);
    for right := 0 to |s|
      invariant left <= right && InStep(mt, Window(s, left, right), need, missing) && missing != 0
      invariant IsBest(s, mt, right, best)
      invariant left > 0 ==> best <= right - (left - 1)
    {
      var ch := s[right];
      Grow(s, mt, left, right, need, missing);
      if GetOr(need, ch, 0) > 0 {
        missing := missing - 1;
      }
      need := need[ch := GetOr(need, ch, 0) - 1];
      while missing == 0
        invariant left <= right + 1 && InStep(mt, Window(s, left, right + 1), need, missing)
        invariant IsBest(s, mt, right, best)
        invariant left > 0 ==> best <= right + 1 - (left - 1)
        decreases right + 1 - left
      {
        Measure(s, mt, left, right + 1, best, need);
        if right - left + 1 < best {
          best := right - left + 1;
        }
        Shrink(s, mt, left, right + 1, need, missing);
        need := need[s[left] := GetOr(need, s[left], 0) + 1];
        if need[s[left]] > 0 {
          missing := missing + 1;
        }
        left := left + 1;
      }
      BestExtended(s, mt, left, right + 1, best, need, missing);
    }
    BestIsAnswer(s, t, best);
    r := if best == |s| + 1 then 0 else best;
  }
}
