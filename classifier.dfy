/** The outlier classifier of run_exp: every entry that is still unclaimed
    when its turn comes reads one sample per later entry, and claims as
    siblings the unclaimed later entries whose sample is at least
    (100 + pct)% of the mean of those samples. */
module Classifier {
  import opened BankTable

  /** A candidate above the threshold that an earlier master had already
      claimed: the "Entry being mapped to multiple siblings" diagnostic. */
  datatype Conflict = Conflict(entry: nat, master: nat)

  /** The outcome of the classification loop: the sample stream ran out
      (the read assertion fails, leaving the table as the last completed
      pass left it), or the loop finished with the read cursor and the
      conflicts reported, in order. */
  datatype Run =
    | Aborted(table: seq<Entry>)
    | Finished(table: seq<Entry>, cursor: nat, conflicts: seq<Conflict>)

  /** The sum of a row, accumulated from left to right. */
  function Sum(s: seq<int>): int
  {
    if s == [] then 0 else Sum(s[..|s| - 1]) + s[|s| - 1]
  }

  /** x reaches the threshold mean * (100 + pct) / 100 of `count` samples
      summing to `sum`, compared exactly by cross-multiplication.  With no
      sample there is no mean and nothing is an outlier. */
  predicate IsOutlier(x: int, sum: int, count: nat, pct: nat)
  {
    count > 0 && x * 100 * count >= (100 + pct) * sum
  }

  /** Entry x, later than master i, has a sample at or above the threshold. */
  predicate Selected(t: seq<Entry>, i: nat, row: seq<int>, pct: nat, x: nat)
    requires i + 1 + |row| == |t|
  {
    i < x < |t| && IsOutlier(row[x - i - 1], Sum(row), |row|, pct)
  }

  /** Master i claims x: x is selected and not yet claimed by anyone. */
  predicate Claims(t: seq<Entry>, i: nat, row: seq<int>, pct: nat, x: nat)
    requires i + 1 + |row| == |t|
  {
    Selected(t, i, row, pct, x) && !t[x].associated
  }

  /** The entries master i claims among its first k later entries, in order. */
  function Candidates(t: seq<Entry>, i: nat, row: seq<int>, pct: nat, k: nat): seq<nat>
    requires i + 1 + |row| == |t| && k <= |row|
  {
    if k == 0 then []
    else Candidates(t, i, row, pct, k - 1) + (if Claims(t, i, row, pct, i + k) then [i + k] else [])
  }

  /** The conflicts master i reports among its first k later entries, in order. */
  function PassConflicts(t: seq<Entry>, i: nat, row: seq<int>, pct: nat, k: nat): seq<Conflict>
    requires i + 1 + |row| == |t| && k <= |row|
  {
    if k == 0 then [] else
    var found := Selected(t, i, row, pct, i + k) && t[i + k].associated;
    PassConflicts(t, i, row, pct, k - 1) + (if found then [Conflict(i + k, i)] else [])
  }

  /** The claimed entry: associated, back-reference in slot 0, one slot counted. */
  function Claim(e: Entry, m: nat): Entry
  {
    e.(associated := true, siblings := [m], numSibling := 1)
  }

  /** The table after master i has examined its first k later entries. */
  function PartialPass(t: seq<Entry>, i: nat, row: seq<int>, pct: nat, k: nat): (p: seq<Entry>)
    requires i + 1 + |row| == |t| && k <= |row|
    ensures |p| == |t|
  {
    seq(|t|, x requires 0 <= x < |t| =>
      if x == i then t[i].(siblings := t[i].siblings + Candidates(t, i, row, pct, k))
      else if x < i + 1 + k && Claims(t, i, row, pct, x) then Claim(t[x], i)
      else t[x])
  }

  /** The table after master i's pass: its claims made and its count set. */
  function Pass(t: seq<Entry>, i: nat, row: seq<int>, pct: nat): (p: seq<Entry>)
    requires i + 1 + |row| == |t|
    ensures |p| == |t|
  {
    var q := PartialPass(t, i, row, pct, |row|);
    q[i := q[i].(numSibling := |Candidates(t, i, row, pct, |row|)|)]
  }

  /** The classification loop from entry i on, with the read cursor. */
  function ClassifyFrom(t: seq<Entry>, samples: seq<int>, pct: nat, i: nat, cursor: nat, conflicts: seq<Conflict>): Run
    requires i <= |t| && cursor <= |samples|
    decreases |t| - i
  {
    if i == |t| then Finished(t, cursor, conflicts)
    else if t[i].associated then ClassifyFrom(t, samples, pct, i + 1, cursor, conflicts)
    else if |samples| - cursor < |t| - i - 1 then Aborted(t)
    else
      var row := samples[cursor .. cursor + (|t| - i - 1)];
      ClassifyFrom(Pass(t, i, row, pct), samples, pct, i + 1, cursor + |row|,
                   conflicts + PassConflicts(t, i, row, pct, |row|))
  }

  function Classify(t: seq<Entry>, samples: seq<int>, pct: nat): Run
  {
    ClassifyFrom(t, samples, pct, 0, 0, [])
  }

  /** Samples consumed by the masters among t[..n]: N - i - 1 each. */
  function Cost(t: seq<Entry>, n: nat): nat
    requires n <= |t|
  {
    if n == 0 then 0
    else Cost(t, n - 1) + (if t[n - 1].associated then 0 else |t| - n)
  }

  /** Samples consumed if the first n of N entries were all masters. */
  function FullCost(size: nat, n: nat): nat
    requires n <= size
  {
    if n == 0 then 0 else FullCost(size, n - 1) + (size - n)
  }

  // ---------------------------------------------------------------------
  // The threshold
  // ---------------------------------------------------------------------

  lemma ScalePositive(a: real, b: real, k: real)
    requires k > 0.0
    ensures a >= b <==> a * k >= b * k
  {
  }

  /** The integer test agrees with the source's threshold computed in exact
      real arithmetic: x >= (sum / count) * (100 + pct) / 100. */
  lemma OutlierMatchesThreshold(x: int, sum: int, count: nat, pct: nat)
    requires count > 0
    ensures IsOutlier(x, sum, count, pct) <==>
      x as real >= (sum as real / count as real) * (100 + pct) as real / 100.0
  {
    var c := count as real;
    var threshold := (sum as real / c) * (100 + pct) as real / 100.0;
    assert threshold * (100.0 * c) == (100 + pct) as real * sum as real;
    ScalePositive(x as real, threshold, 100.0 * c);
    assert (x * 100 * count) as real == x as real * (100.0 * c);
    assert ((100 + pct) * sum) as real == (100 + pct) as real * sum as real;
  }

  /** A sample exactly at the threshold qualifies. */
  lemma ThresholdInclusive(x: int, sum: int, count: nat, pct: nat)
    requires count > 0
    requires x as real == (sum as real / count as real) * (100 + pct) as real / 100.0
    ensures IsOutlier(x, sum, count, pct)
  {
    OutlierMatchesThreshold(x, sum, count, pct);
  }

  /** With non-negative samples, a larger percentage selects no more. */
  lemma OutlierMonotone(x: int, sum: int, count: nat, p1: nat, p2: nat)
    requires sum >= 0 && p1 <= p2
    requires IsOutlier(x, sum, count, p2)
    ensures IsOutlier(x, sum, count, p1)
  {
    assert (100 + p1) * sum <= (100 + p2) * sum by {
      assert (100 + p2) * sum == (100 + p1) * sum + (p2 - p1) * sum;
    }
  }

  lemma {:induction false} SumNonNegative(s: seq<int>)
    requires forall k | 0 <= k < |s| :: s[k] >= 0
    ensures Sum(s) >= 0
  {
    if s != [] {
      SumNonNegative(s[..|s| - 1]);
    }
  }

  // ---------------------------------------------------------------------
  // One master's pass
  // ---------------------------------------------------------------------

  /** Master i's list holds exactly the entries it claims, in increasing order. */
  lemma {:induction false} CandidatesMembers(t: seq<Entry>, i: nat, row: seq<int>, pct: nat, k: nat)
    requires i + 1 + |row| == |t| && k <= |row|
    ensures forall x: nat :: x in Candidates(t, i, row, pct, k) <==> x < i + 1 + k && Claims(t, i, row, pct, x)
    ensures forall a, b | 0 <= a < b < |Candidates(t, i, row, pct, k)| ::
      Candidates(t, i, row, pct, k)[a] < Candidates(t, i, row, pct, k)[b]
  {
    if k > 0 {
      CandidatesMembers(t, i, row, pct, k - 1);
      var c := Candidates(t, i, row, pct, k - 1);
      assert forall y | y in c :: y < i + k;
      var d := Candidates(t, i, row, pct, k);
      forall a, b | 0 <= a < b < |d| ensures d[a] < d[b] {
        if b < |c| {
          assert d[a] == c[a] && d[b] == c[b];
        } else {
          assert d[b] == i + k && d[a] == c[a] && c[a] in c;
        }
      }
    }
  }

  /** Master i reports a conflict for exactly the selected entries already claimed. */
  lemma {:induction false} ConflictsMembers(t: seq<Entry>, i: nat, row: seq<int>, pct: nat, k: nat)
    requires i + 1 + |row| == |t| && k <= |row|
    ensures forall c: Conflict :: c in PassConflicts(t, i, row, pct, k) <==>
      c.master == i && c.entry < i + 1 + k && Selected(t, i, row, pct, c.entry) && t[c.entry].associated
  {
    if k > 0 {
      ConflictsMembers(t, i, row, pct, k - 1);
    }
  }

  /** Before any later entry is examined the table is unchanged. */
  lemma PartialPassZero(t: seq<Entry>, i: nat, row: seq<int>, pct: nat)
    requires i + 1 + |row| == |t|
    ensures PartialPass(t, i, row, pct, 0) == t
  {
    assert t[i].siblings + [] == t[i].siblings;
  }

  /** Examining the next entry j changes at most the master and j. */
  lemma PartialPassStep(t: seq<Entry>, i: nat, row: seq<int>, pct: nat, k: nat)
    requires i + 1 + |row| == |t| && k < |row|
    ensures PartialPass(t, i, row, pct, k)[i + 1 + k] == t[i + 1 + k]
    ensures var q := PartialPass(t, i, row, pct, k);
      PartialPass(t, i, row, pct, k + 1) ==
        if Claims(t, i, row, pct, i + 1 + k)
        then q[i := q[i].(siblings := q[i].siblings + [i + 1 + k])][i + 1 + k := Claim(q[i + 1 + k], i)]
        else q
  {
    var q := PartialPass(t, i, row, pct, k);
    var q' := PartialPass(t, i, row, pct, k + 1);
    var j := i + 1 + k;
    var r := if Claims(t, i, row, pct, j)
      then q[i := q[i].(siblings := q[i].siblings + [j])][j := Claim(q[j], i)]
      else q;
    assert Candidates(t, i, row, pct, k + 1) ==
      Candidates(t, i, row, pct, k) + (if Claims(t, i, row, pct, j) then [j] else []);
    forall x | 0 <= x < |t| ensures q'[x] == r[x] {
    }
    assert q' == r;
  }

  /** What one pass does: the master lists exactly the unclaimed later entries
      at or above the threshold, in increasing order, and counts them; each
      of those becomes claimed with the master as its back-reference; an
      entry claimed earlier keeps its claim (first claim wins) and is
      reported as a conflict if selected; nothing else changes. */
  lemma PassEffect(t: seq<Entry>, i: nat, row: seq<int>, pct: nat)
    requires i + 1 + |row| == |t|
    ensures var p := Pass(t, i, row, pct);
      var c := Candidates(t, i, row, pct, |row|);
      && p[i] == t[i].(siblings := t[i].siblings + c, numSibling := |c|)
      && (forall x | 0 <= x < |t| && x != i :: p[x] == if Claims(t, i, row, pct, x) then Claim(t[x], i) else t[x])
      && (forall x: nat :: x in c <==> i < x < |t| && IsOutlier(row[x - i - 1], Sum(row), |row|, pct) && !t[x].associated)
      && (forall a, b | 0 <= a < b < |c| :: c[a] < c[b])
      && (forall x | 0 <= x < |t| && x != i && t[x].associated :: p[x] == t[x])
      && (forall cf: Conflict :: cf in PassConflicts(t, i, row, pct, |row|) <==>
            cf.master == i && Selected(t, i, row, pct, cf.entry) && t[cf.entry].associated)
  {
    CandidatesMembers(t, i, row, pct, |row|);
    ConflictsMembers(t, i, row, pct, |row|);
  }

  /** With non-negative samples, raising the percentage never lets a master
      claim an entry it would not claim otherwise, nor more entries. */
  lemma {:induction false} PassMonotone(t: seq<Entry>, i: nat, row: seq<int>, p1: nat, p2: nat, k: nat)
    requires i + 1 + |row| == |t| && k <= |row|
    requires forall x | 0 <= x < |row| :: row[x] >= 0
    requires p1 <= p2
    ensures forall x | x in Candidates(t, i, row, p2, k) :: x in Candidates(t, i, row, p1, k)
    ensures |Candidates(t, i, row, p2, k)| <= |Candidates(t, i, row, p1, k)|
  {
    if k > 0 {
      PassMonotone(t, i, row, p1, p2, k - 1);
      SumNonNegative(row);
      if Claims(t, i, row, p2, i + k) {
        OutlierMonotone(row[k - 1], Sum(row), |row|, p1, p2);
      }
    }
  }

  // ---------------------------------------------------------------------
  // The whole classification loop
  // ---------------------------------------------------------------------

  predicate SameAddress(a: Entry, b: Entry)
  {
    a.virtAddr == b.virtAddr && a.phyAddr == b.phyAddr && a.bank == b.bank
  }

  /** The state of the classification loop at entry i, started from t0. */
  predicate Progress(t0: seq<Entry>, t: seq<Entry>, i: nat)
  {
    && |t| == |t0| && i <= |t| && Linked(t)
    && (forall k | 0 <= k < |t| :: SameAddress(t0[k], t[k]))
    && (forall k | 0 <= k < |t| && (k < i || t[k].associated) :: t[k].numSibling == |t[k].siblings|)
    && (forall k | i <= k < |t| && !t[k].associated :: t[k].siblings == [] && t[k].numSibling == 0)
    && Covered(t, |t|) == |t|
  }

  /** Every conflict so far names a claimed entry whose master precedes the
      master that found it, both before the current entry i. */
  predicate ConflictsValid(t: seq<Entry>, conflicts: seq<Conflict>, i: nat)
  {
    forall c | c in conflicts ::
      c.master < i && c.master < c.entry < |t| && t[c.entry].associated &&
      |t[c.entry].siblings| > 0 && t[c.entry].siblings[0] < c.master
  }

  lemma {:induction false} PartialPassCovered(t0: seq<Entry>, t: seq<Entry>, i: nat, row: seq<int>, pct: nat, k: nat)
    requires Progress(t0, t, i) && i + 1 + |row| == |t| && !t[i].associated && k <= |row|
    ensures Covered(PartialPass(t, i, row, pct, k), |t|) == |t|
  {
    if k == 0 {
      PartialPassZero(t, i, row, pct);
    } else {
      PartialPassCovered(t0, t, i, row, pct, k - 1);
      PartialPassStep(t, i, row, pct, k - 1);
      var q := PartialPass(t, i, row, pct, k - 1);
      var j := i + k;
      if Claims(t, i, row, pct, j) {
        var q1 := q[i := q[i].(siblings := q[i].siblings + [j])];
        CoveredUpdate(q, i, q1[i], |t|);
        CoveredUpdate(q1, j, Claim(q1[j], i), |t|);
      }
    }
  }

  /** A pass, entry by entry. */
  lemma PassAt(t: seq<Entry>, i: nat, row: seq<int>, pct: nat, x: nat)
    requires i + 1 + |row| == |t| && x < |t|
    ensures var c := Candidates(t, i, row, pct, |row|);
      Pass(t, i, row, pct)[x] ==
        if x == i then t[i].(siblings := t[i].siblings + c, numSibling := |c|)
        else if Claims(t, i, row, pct, x) then Claim(t[x], i)
        else t[x]
  {
  }

  /** A pass keeps the table linked at every entry m. */
  lemma PassLinkedAt(t: seq<Entry>, i: nat, row: seq<int>, pct: nat, m: nat)
    requires Linked(t) && i + 1 + |row| == |t| && !t[i].associated && m < |t|
    requires forall k | i <= k < |t| && !t[k].associated :: t[k].siblings == []
    ensures MasterLinked(Pass(t, i, row, pct), m) && SiblingLinked(Pass(t, i, row, pct), m)
  {
    var p := Pass(t, i, row, pct);
    var c := Candidates(t, i, row, pct, |row|);
    assert MasterLinked(t, m) && SiblingLinked(t, m);
    PassAt(t, i, row, pct, m);
    PassAt(t, i, row, pct, i);
    if m == i {
      CandidatesMembers(t, i, row, pct, |row|);
      assert p[i].siblings == c;
      forall s | s in c ensures m < s < |t| && p[s].associated && p[s].siblings == [m] {
        PassAt(t, i, row, pct, s);
      }
    } else if Claims(t, i, row, pct, m) {
      CandidatesMembers(t, i, row, pct, |row|);
      assert p[m].siblings == [i] && m in c;
    } else if t[m].associated {
      var o := t[m].siblings[0];
      assert MasterLinked(t, o) && m in t[o].siblings;
      assert o < i;
      PassAt(t, i, row, pct, o);
    } else {
      assert p[m] == t[m];
      forall s | s in p[m].siblings ensures m < s < |t| && p[s].associated && p[s].siblings == [m] {
        assert t[s].associated;
        PassAt(t, i, row, pct, s);
      }
    }
  }

  lemma PassLinked(t: seq<Entry>, i: nat, row: seq<int>, pct: nat)
    requires Linked(t) && i + 1 + |row| == |t| && !t[i].associated
    requires forall k | i <= k < |t| && !t[k].associated :: t[k].siblings == []
    ensures Linked(Pass(t, i, row, pct))
  {
    forall m | 0 <= m < |t|
      ensures MasterLinked(Pass(t, i, row, pct), m) && SiblingLinked(Pass(t, i, row, pct), m)
    {
      PassLinkedAt(t, i, row, pct, m);
    }
  }

  /** One master's pass keeps the loop's invariant, one entry further on. */
  lemma PassProgress(t0: seq<Entry>, t: seq<Entry>, i: nat, row: seq<int>, pct: nat)
    requires Progress(t0, t, i) && i + 1 + |row| == |t| && !t[i].associated
    ensures Progress(t0, Pass(t, i, row, pct), i + 1)
    ensures forall x | 0 <= x <= i :: Pass(t, i, row, pct)[x].associated == t[x].associated
  {
    var p := Pass(t, i, row, pct);
    var c := Candidates(t, i, row, pct, |row|);
    PassLinked(t, i, row, pct);
    forall x | 0 <= x < |t|
      ensures SameAddress(t0[x], p[x])
      ensures (x < i + 1 || p[x].associated) ==> p[x].numSibling == |p[x].siblings|
      ensures (i + 1 <= x && !p[x].associated) ==> p[x].siblings == [] && p[x].numSibling == 0
      ensures x <= i ==> p[x].associated == t[x].associated
    {
      PassAt(t, i, row, pct, x);
    }
    // The covered count is unchanged.
    PartialPassCovered(t0, t, i, row, pct, |row|);
    var q := PartialPass(t, i, row, pct, |row|);
    CoveredUpdate(q, i, q[i].(numSibling := |c|), |t|);
  }

  lemma {:induction false} CostAgree(t: seq<Entry>, u: seq<Entry>, n: nat)
    requires |t| == |u| && n <= |t|
    requires forall k | 0 <= k < n :: t[k].associated == u[k].associated
    ensures Cost(t, n) == Cost(u, n)
  {
    if n > 0 {
      CostAgree(t, u, n - 1);
    }
  }

  lemma {:induction false} CostBound(t: seq<Entry>, n: nat)
    requires n <= |t|
    ensures Cost(t, n) <= FullCost(|t|, n)
  {
    if n > 0 {
      CostBound(t, n - 1);
    }
  }

  lemma {:induction false} FullCostGrow(size: nat, a: nat, b: nat)
    requires a <= b <= size
    ensures FullCost(size, a) <= FullCost(size, b)
    decreases b
  {
    if a < b {
      FullCostGrow(size, a, b - 1);
    }
  }

  /** The full cost of the first n of N entries, in closed form. */
  lemma {:induction false} FullCostClosed(size: nat, n: nat)
    requires n <= size
    ensures 2 * FullCost(size, n) == n * (2 * size - n - 1)
  {
    if n > 0 {
      FullCostClosed(size, n - 1);
      calc {
        2 * FullCost(size, n);
        2 * FullCost(size, n - 1) + 2 * (size - n);
        (n - 1) * (2 * size - n) + 2 * (size - n);
        n * (2 * size - n - 1);
      }
    }
  }

  /** One master's pass keeps the classification loop's invariant, its
      conflict record and its sample count. */
  lemma MasterStep(t0: seq<Entry>, t: seq<Entry>, i: nat, row: seq<int>, pct: nat, conflicts: seq<Conflict>)
    requires Progress(t0, t, i) && ConflictsValid(t, conflicts, i)
    requires i + 1 + |row| == |t| && !t[i].associated
    ensures var p := Pass(t, i, row, pct);
      && Progress(t0, p, i + 1)
      && ConflictsValid(p, conflicts + PassConflicts(t, i, row, pct, |row|), i + 1)
      && Cost(p, i + 1) == Cost(t, i) + |row|
  {
    var p := Pass(t, i, row, pct);
    var cf := conflicts + PassConflicts(t, i, row, pct, |row|);
    PassProgress(t0, t, i, row, pct);
    ConflictsMembers(t, i, row, pct, |row|);
    CostAgree(t, p, i);
    forall c | c in cf
      ensures c.master < i + 1 && c.master < c.entry < |t| && p[c.entry].associated &&
        |p[c.entry].siblings| > 0 && p[c.entry].siblings[0] < c.master
    {
      if c in conflicts {
        PassAt(t, i, row, pct, c.entry);
      } else {
        assert c in PassConflicts(t, i, row, pct, |row|);
        assert c.master == i && i < c.entry < |t| && t[c.entry].associated;
        assert SiblingLinked(t, c.entry);
        var o := t[c.entry].siblings[0];
        assert MasterLinked(t, o) && c.entry in t[o].siblings;
        assert o < i;
        PassAt(t, i, row, pct, c.entry);
      }
    }
  }

  /** Skipping a claimed entry keeps the loop's invariant. */
  lemma SkipStep(t0: seq<Entry>, t: seq<Entry>, i: nat, conflicts: seq<Conflict>)
    requires Progress(t0, t, i) && ConflictsValid(t, conflicts, i)
    requires i < |t| && t[i].associated
    ensures Progress(t0, t, i + 1) && ConflictsValid(t, conflicts, i + 1)
    ensures Cost(t, i + 1) == Cost(t, i)
  {
  }

  /** What the classification loop guarantees about its outcome. */
  predicate Sound(t0: seq<Entry>, samples: seq<int>, r: Run)
  {
    && (r.Finished? ==> Progress(t0, r.table, |t0|) && ConflictsValid(r.table, r.conflicts, |t0|)
                        && r.cursor == Cost(r.table, |t0|))
    && (r.Aborted? ==> |samples| < FullCost(|t0|, |t0|))
  }

  /** At an unclaimed entry with enough samples left, the loop makes that
      entry's pass and goes on with the next entry. */
  lemma MasterUnfold(t0: seq<Entry>, t: seq<Entry>, samples: seq<int>, pct: nat,
                     i: nat, cursor: nat, conflicts: seq<Conflict>)
    requires i < |t| && !t[i].associated && cursor <= |samples| && |samples| - cursor >= |t| - i - 1
    requires var row := samples[cursor .. cursor + (|t| - i - 1)];
      Sound(t0, samples, ClassifyFrom(Pass(t, i, row, pct), samples, pct, i + 1, cursor + |row|,
                                      conflicts + PassConflicts(t, i, row, pct, |row|)))
    ensures Sound(t0, samples, ClassifyFrom(t, samples, pct, i, cursor, conflicts))
  {
  }

  /** The classification loop skips a claimed entry. */
  lemma ClassifySkip(t: seq<Entry>, samples: seq<int>, pct: nat, i: nat, cursor: nat, conflicts: seq<Conflict>)
    requires i < |t| && cursor <= |samples| && t[i].associated
    ensures ClassifyFrom(t, samples, pct, i, cursor, conflicts) == ClassifyFrom(t, samples, pct, i + 1, cursor, conflicts)
  {
  }

  /** The classification loop stops at an unclaimed entry with fewer than
      N - i - 1 samples left. */
  lemma ClassifyAbort(t: seq<Entry>, samples: seq<int>, pct: nat, i: nat, cursor: nat, conflicts: seq<Conflict>)
    requires i < |t| && cursor <= |samples| && !t[i].associated && |samples| - cursor < |t| - i - 1
    ensures ClassifyFrom(t, samples, pct, i, cursor, conflicts) == Aborted(t)
  {
  }

  /** Otherwise an unclaimed entry makes its pass over the next N - i - 1 samples. */
  lemma ClassifyPass(t: seq<Entry>, samples: seq<int>, pct: nat, i: nat, cursor: nat, conflicts: seq<Conflict>,
                     row: seq<int>)
    requires i < |t| && !t[i].associated
    requires cursor + (|t| - i - 1) <= |samples| && row == samples[cursor .. cursor + (|t| - i - 1)]
    ensures ClassifyFrom(t, samples, pct, i, cursor, conflicts) ==
      ClassifyFrom(Pass(t, i, row, pct), samples, pct, i + 1, cursor + |row|,
                   conflicts + PassConflicts(t, i, row, pct, |row|))
  {
  }

  /** The classification loop, from any state of its invariant. */
  lemma {:induction false} ClassifyFromSound(t0: seq<Entry>, t: seq<Entry>, samples: seq<int>, pct: nat,
                                             i: nat, cursor: nat, conflicts: seq<Conflict>)
    requires Progress(t0, t, i) && ConflictsValid(t, conflicts, i)
    requires cursor <= |samples| && cursor == Cost(t, i)
    ensures Sound(t0, samples, ClassifyFrom(t, samples, pct, i, cursor, conflicts))
    decreases |t| - i
  {
    if i == |t| {
    } else if t[i].associated {
      SkipStep(t0, t, i, conflicts);
      assert ClassifyFrom(t, samples, pct, i, cursor, conflicts) == ClassifyFrom(t, samples, pct, i + 1, cursor, conflicts);
      ClassifyFromSound(t0, t, samples, pct, i + 1, cursor, conflicts);
    } else if |samples| - cursor < |t| - i - 1 {
      CostBound(t, i);
      FullCostGrow(|t|, i + 1, |t|);
    } else {
      var row := samples[cursor .. cursor + (|t| - i - 1)];
      var p := Pass(t, i, row, pct);
      var cf := conflicts + PassConflicts(t, i, row, pct, |row|);
      MasterStep(t0, t, i, row, pct, conflicts);
      ClassifyFromSound(t0, p, samples, pct, i + 1, cursor + |row|, cf);
      MasterUnfold(t0, t, samples, pct, i, cursor, conflicts);
    }
  }

  /** Classification from the table init_entries leaves: the result is a
      partition in which every claimed entry is listed by exactly the
      earlier master it points back to, every count is right, the bank
      sizes add up to N, addresses and banks are untouched, the cursor has
      advanced by N - i - 1 for each master i and never by more than
      N(N-1)/2, and each conflict names an entry an earlier master holds.
      The stream runs out only if it is shorter than N(N-1)/2. */
  lemma ClassifyPartitions(t0: seq<Entry>, samples: seq<int>, pct: nat)
    requires Unclaimed(t0)
    ensures var r := Classify(t0, samples, pct);
      && (r.Finished? ==>
            && |r.table| == |t0|
            && Partitioned(r.table)
            && BankTotal(r.table, |t0|) == |t0|
            && (forall k | 0 <= k < |t0| :: SameAddress(t0[k], r.table[k]))
            && r.cursor == Cost(r.table, |t0|)
            && 2 * r.cursor <= |t0| * (|t0| - 1)
            && (forall c | c in r.conflicts ::
                  c.master < c.entry < |t0| && r.table[c.entry].associated &&
                  Owner(r.table, c.entry) < c.master))
      && (r.Aborted? ==> 2 * |samples| < |t0| * (|t0| - 1))
  {
    UnclaimedCovered(t0, |t0|);
    assert Linked(t0) by {
      forall k | 0 <= k < |t0| ensures MasterLinked(t0, k) && SiblingLinked(t0, k) {
      }
    }
    ClassifyFromSound(t0, t0, samples, pct, 0, 0, []);
    FullCostClosed(|t0|, |t0|);
    var r := Classify(t0, samples, pct);
    if r.Finished? {
      CountedTotal(r.table, |t0|);
      CostBound(r.table, |t0|);
    }
  }

  /** A stream holding a sample for every pair i < j never runs out. */
  lemma FullStreamFinishes(t0: seq<Entry>, samples: seq<int>, pct: nat)
    requires Unclaimed(t0)
    requires 2 * |samples| >= |t0| * (|t0| - 1)
    ensures Classify(t0, samples, pct).Finished?
  {
    ClassifyPartitions(t0, samples, pct);
  }
}
