/** The bank assigner and coverage report of check_mapping: masters get
    bank ids 0, 1, 2, ... in index order, each master's siblings get its
    id, the masters are recorded in the bank table, and a report lists
    every unassigned entry and every bank with its members. */
module Assigner {
  import opened BankTable

  /** The outcome of the assignment loop: the bank table overflowed at the
      next master (the run aborts), or every master got an id.  `banks`
      lists the masters recorded, slot by slot. */
  datatype Assignment =
    | Overflow(table: seq<Entry>, banks: seq<nat>)
    | Assigned(table: seq<Entry>, banks: seq<nat>)

  /** One `Line` item of the mapping printed on standard output: a header
      item stands for the two printed lines of a bank's id and its master's
      address. */
  datatype Line = BankHeader(bank: int, address: nat) | MemberAddress(address: nat)

  /** t with the bank of every listed entry set to b, written in list order. */
  function SetBank(t: seq<Entry>, idx: seq<nat>, b: int): (r: seq<Entry>)
    requires forall a | 0 <= a < |idx| :: idx[a] < |t|
    ensures |r| == |t|
  {
    if idx == [] then t
    else
      var u := SetBank(t, idx[..|idx| - 1], b);
      u[idx[|idx| - 1] := u[idx[|idx| - 1]].(bank := b)]
  }

  /** Exactly the listed entries have bank b afterwards; nothing else changes. */
  lemma {:induction false} SetBankAt(t: seq<Entry>, idx: seq<nat>, b: int)
    requires forall a | 0 <= a < |idx| :: idx[a] < |t|
    ensures forall k | 0 <= k < |t| :: SetBank(t, idx, b)[k] == if k in idx then t[k].(bank := b) else t[k]
    decreases |idx|
  {
    if idx != [] {
      var front := idx[..|idx| - 1];
      assert forall k :: k in idx <==> k in front || k == idx[|idx| - 1];
      SetBankAt(t, front, b);
    }
  }

  /** The sibling slots that check_mapping and the report read: the first num_sibling. */
  function Members(e: Entry): seq<nat>
  {
    if e.numSibling <= |e.siblings| then e.siblings[..e.numSibling] else e.siblings
  }

  /** Master m and its siblings labelled with bank b. */
  function Label(t: seq<Entry>, m: nat, b: int): (r: seq<Entry>)
    requires Wired(t) && m < |t|
    ensures |r| == |t|
  {
    SetBank(t[m := t[m].(bank := b)], Members(t[m]), b)
  }

  /** Labelling sets the bank of the master and of its counted siblings, and
      of no other entry; the table stays wired. */
  lemma LabelAt(t: seq<Entry>, m: nat, b: int)
    requires Wired(t) && m < |t|
    ensures forall k | 0 <= k < |t| ::
      Label(t, m, b)[k] == if k == m || k in Members(t[m]) then t[k].(bank := b) else t[k]
    ensures SameButBank(t, Label(t, m, b)) && Wired(Label(t, m, b))
  {
    SetBankAt(t[m := t[m].(bank := b)], Members(t[m]), b);
    SameButBankWired(t, Label(t, m, b));
  }

  /** u differs from t at most in the bank fields. */
  predicate SameButBank(t: seq<Entry>, u: seq<Entry>)
  {
    |t| == |u| && forall k | 0 <= k < |t| :: u[k] == t[k].(bank := u[k].bank)
  }

  lemma SameButBankWired(t: seq<Entry>, u: seq<Entry>)
    requires SameButBank(t, u) && Wired(t)
    ensures Wired(u)
  {
    forall k | 0 <= k < |u|
      ensures u[k].numSibling <= |u[k].siblings| && forall a | 0 <= a < |u[k].siblings| :: u[k].siblings[a] < |u|
    {
      assert u[k].siblings == t[k].siblings && u[k].numSibling == t[k].numSibling;
    }
  }

  /** The assignment loop from entry i on, with the masters recorded so far. */
  function AssignFrom(t: seq<Entry>, maxBanks: nat, i: nat, banks: seq<nat>): Assignment
    requires Wired(t) && i <= |t|
    decreases |t| - i
  {
    if i == |t| then Assigned(t, banks)
    else if t[i].associated then AssignFrom(t, maxBanks, i + 1, banks)
    else
      var u := Label(t, i, |banks|);
      LabelAt(t, i, |banks|);
      if |banks| >= maxBanks then Overflow(u, banks)
      else AssignFrom(u, maxBanks, i + 1, banks + [i])
  }

  function Assign(t: seq<Entry>, maxBanks: nat): Assignment
    requires Wired(t)
  {
    AssignFrom(t, maxBanks, 0, [])
  }

  // ---------------------------------------------------------------------
  // What the assignment computes
  // ---------------------------------------------------------------------

  /** The bank id master m gets: the number of masters before it. */
  function Rank(t: seq<Entry>, m: nat): nat
    requires m <= |t|
  {
    |MastersBelow(t, m)|
  }

  /** The assignment loop's state at entry i, started from the partitioned t0:
      the masters before i are recorded in order, and the entries whose
      master is before i carry that master's rank. */
  predicate Labelled(t0: seq<Entry>, t: seq<Entry>, i: nat, banks: seq<nat>)
  {
    && Linked(t0) && i <= |t0| && SameButBank(t0, t) && banks == MastersBelow(t0, i)
    && forall k {:trigger Owner(t0, k)} | 0 <= k < |t0| ::
         t[k].bank == if Owner(t0, k) < i then Rank(t0, Owner(t0, k)) else t0[k].bank
  }

  lemma LabelStep(t0: seq<Entry>, t: seq<Entry>, i: nat, banks: seq<nat>)
    requires Partitioned(t0) && Labelled(t0, t, i, banks)
    requires i < |t0| && !t0[i].associated
    ensures Wired(t)
    ensures Labelled(t0, Label(t, i, |banks|), i + 1, banks + [i])
  {
    PartitionedWired(t0);
    SameButBankWired(t0, t);
    var u := Label(t, i, |banks|);
    LabelAt(t, i, |banks|);
    assert Members(t[i]) == t0[i].siblings by {
      assert t[i].siblings == t0[i].siblings && t[i].numSibling == t0[i].numSibling;
      assert t0[i].siblings[..t0[i].numSibling] == t0[i].siblings;
    }
    forall k | 0 <= k < |t0|
      ensures u[k].bank == if Owner(t0, k) < i + 1 then Rank(t0, Owner(t0, k)) else t0[k].bank
    {
      if k == i || k in t0[i].siblings {
        if k != i {
          OneMasterEach(t0, k, i);
        }
        assert Owner(t0, k) == i;
      } else {
        assert Owner(t0, k) != i;
      }
    }
  }

  /** What the assignment loop guarantees about its outcome. */
  predicate AssignSound(t0: seq<Entry>, maxBanks: nat, r: Assignment)
  {
    && (r.Assigned? ==> Labelled(t0, r.table, |t0|, r.banks) && |Masters(t0)| <= maxBanks)
    && (r.Overflow? ==> |Masters(t0)| > maxBanks && |r.banks| == maxBanks && SameButBank(t0, r.table))
  }

  /** One step of the assignment loop: a claimed entry is skipped, a master
      is labelled and then either overflows the bank table or is recorded. */
  lemma AssignUnfold(t0: seq<Entry>, t: seq<Entry>, maxBanks: nat, i: nat, banks: seq<nat>)
    requires Wired(t) && i < |t|
    requires t[i].associated ==> AssignSound(t0, maxBanks, AssignFrom(t, maxBanks, i + 1, banks))
    requires !t[i].associated && |banks| >= maxBanks ==>
      AssignSound(t0, maxBanks, Overflow(Label(t, i, |banks|), banks))
    requires !t[i].associated && |banks| < maxBanks ==>
      Wired(Label(t, i, |banks|)) &&
      AssignSound(t0, maxBanks, AssignFrom(Label(t, i, |banks|), maxBanks, i + 1, banks + [i]))
    ensures AssignSound(t0, maxBanks, AssignFrom(t, maxBanks, i, banks))
  {
  }

  lemma LabelledWired(t0: seq<Entry>, t: seq<Entry>, i: nat, banks: seq<nat>)
    requires Partitioned(t0) && Labelled(t0, t, i, banks)
    ensures Wired(t)
  {
    PartitionedWired(t0);
    SameButBankWired(t0, t);
  }

  /** At the end of the table every master is recorded and labelled. */
  lemma AssignDone(t0: seq<Entry>, t: seq<Entry>, maxBanks: nat, banks: seq<nat>)
    requires Partitioned(t0) && Labelled(t0, t, |t0|, banks) && |banks| <= maxBanks
    ensures Wired(t)
    ensures AssignSound(t0, maxBanks, AssignFrom(t, maxBanks, |t0|, banks))
  {
    LabelledWired(t0, t, |t0|, banks);
  }

  /** A claimed entry's master comes before it, so skipping it keeps the state. */
  lemma SkipLabelled(t0: seq<Entry>, t: seq<Entry>, i: nat, banks: seq<nat>)
    requires Labelled(t0, t, i, banks)
    requires i < |t0| && t[i].associated
    ensures Labelled(t0, t, i + 1, banks)
  {
    forall k | 0 <= k < |t0| ensures Owner(t0, k) != i {
    }
  }

  /** A master met with the bank table full: there are more than maxBanks masters. */
  lemma OverflowSound(t0: seq<Entry>, t: seq<Entry>, maxBanks: nat, i: nat, banks: seq<nat>)
    requires Partitioned(t0) && Labelled(t0, t, i, banks) && |banks| == maxBanks
    requires i < |t0| && !t[i].associated
    ensures Wired(t)
    ensures AssignSound(t0, maxBanks, Overflow(Label(t, i, |banks|), banks))
  {
    LabelStep(t0, t, i, banks);
    MastersBelowGrow(t0, i + 1, |t0|);
    LabelAt(t, i, |banks|);
  }

  lemma {:induction false} AssignFromSound(t0: seq<Entry>, t: seq<Entry>, maxBanks: nat, i: nat, banks: seq<nat>)
    requires Partitioned(t0) && Labelled(t0, t, i, banks) && |banks| <= maxBanks
    ensures Wired(t)
    ensures AssignSound(t0, maxBanks, AssignFrom(t, maxBanks, i, banks))
    decreases |t0| - i, 1
  {
    LabelledWired(t0, t, i, banks);
    if i == |t0| {
      AssignDone(t0, t, maxBanks, banks);
    } else if t[i].associated {
      SkipSound(t0, t, maxBanks, i, banks);
    } else {
      MasterSound(t0, t, maxBanks, i, banks);
    }
  }

  lemma {:induction false} SkipSound(t0: seq<Entry>, t: seq<Entry>, maxBanks: nat, i: nat, banks: seq<nat>)
    requires Partitioned(t0) && Labelled(t0, t, i, banks) && |banks| <= maxBanks
    requires i < |t0| && t[i].associated
    ensures Wired(t)
    ensures AssignSound(t0, maxBanks, AssignFrom(t, maxBanks, i, banks))
    decreases |t0| - i, 0
  {
    LabelledWired(t0, t, i, banks);
    SkipLabelled(t0, t, i, banks);
    AssignFromSound(t0, t, maxBanks, i + 1, banks);
    AssignUnfold(t0, t, maxBanks, i, banks);
  }

  lemma {:induction false} MasterSound(t0: seq<Entry>, t: seq<Entry>, maxBanks: nat, i: nat, banks: seq<nat>)
    requires Partitioned(t0) && Labelled(t0, t, i, banks) && |banks| <= maxBanks
    requires i < |t0| && !t[i].associated
    ensures Wired(t)
    ensures AssignSound(t0, maxBanks, AssignFrom(t, maxBanks, i, banks))
    decreases |t0| - i, 0
  {
    LabelStep(t0, t, i, banks);
    LabelAt(t, i, |banks|);
    if |banks| >= maxBanks {
      OverflowSound(t0, t, maxBanks, i, banks);
    } else {
      AssignFromSound(t0, Label(t, i, |banks|), maxBanks, i + 1, banks + [i]);
    }
    AssignUnfold(t0, t, maxBanks, i, banks);
  }

  /** The final state of the assignment loop, read entry by entry. */
  lemma LabelledComplete(t: seq<Entry>, u: seq<Entry>, banks: seq<nat>)
    requires Partitioned(t) && Labelled(t, u, |t|, banks)
    ensures banks == Masters(t)
    ensures forall a | 0 <= a < |banks| :: u[banks[a]].bank == a
    ensures forall k | 0 <= k < |t| :: u[k].bank == u[Owner(t, k)].bank
    ensures forall k | 0 <= k < |t| :: 0 <= u[k].bank < |banks|
  {
    MastersBelowSorted(t, |t|);
    forall a | 0 <= a < |banks| ensures u[banks[a]].bank == a {
      MastersBelowRank(t, |t|, a);
      assert Owner(t, banks[a]) == banks[a];
    }
    forall k | 0 <= k < |t| ensures u[k].bank == u[Owner(t, k)].bank && 0 <= u[k].bank < |banks| {
      var m := Owner(t, k);
      assert Owner(t, m) == m;
      MastersBelowGrow(t, m + 1, |t|);
    }
  }

  /** Bank assignment on a partitioned table: it completes exactly when
      there are at most maxBanks masters; then bank slot a holds the a-th
      master, masters get ids 0, 1, 2, ... in index order, every entry gets
      the id of its master, every id is a recorded slot, and nothing but the
      bank fields changes.  On overflow the first maxBanks slots are full. */
  lemma AssignCorrect(t: seq<Entry>, maxBanks: nat)
    requires Partitioned(t)
    ensures Wired(t)
    ensures var r := Assign(t, maxBanks);
      && (r.Assigned? <==> |Masters(t)| <= maxBanks)
      && (r.Overflow? ==> |r.banks| == maxBanks && SameButBank(t, r.table))
      && (r.Assigned? ==>
            && r.banks == Masters(t)
            && SameButBank(t, r.table)
            && (forall a | 0 <= a < |r.banks| :: r.table[r.banks[a]].bank == a)
            && (forall k | 0 <= k < |t| :: r.table[k].bank == r.table[Owner(t, k)].bank)
            && (forall k | 0 <= k < |t| :: 0 <= r.table[k].bank < |r.banks|))
  {
    PartitionedWired(t);
    assert Labelled(t, t, 0, []) by {
      forall k | 0 <= k < |t| ensures Owner(t, k) >= 0 {
      }
    }
    AssignFromSound(t, t, maxBanks, 0, []);
    var r := Assign(t, maxBanks);
    if r.Assigned? {
      LabelledComplete(t, r.table, r.banks);
    }
  }

  // ---------------------------------------------------------------------
  // The coverage report
  // ---------------------------------------------------------------------

  /** The addresses of the entries among t[..n] that have no bank, in order. */
  function Warnings(t: seq<Entry>, n: nat): seq<nat>
    requires n <= |t|
  {
    if n == 0 then []
    else if t[n - 1].bank < 0 then Warnings(t, n - 1) + [t[n - 1].phyAddr]
    else Warnings(t, n - 1)
  }

  /** One member `Line` item per listed entry. */
  function MemberLines(t: seq<Entry>, idx: seq<nat>): seq<Line>
    requires forall a | 0 <= a < |idx| :: idx[a] < |t|
  {
    seq(|idx|, a requires 0 <= a < |idx| => MemberAddress(t[idx[a]].phyAddr))
  }

  /** Listing one more entry adds its address line at the end. */
  lemma MemberLinesStep(t: seq<Entry>, idx: seq<nat>, j: nat)
    requires forall a | 0 <= a < |idx| :: idx[a] < |t|
    requires j < |idx|
    ensures MemberLines(t, idx[..j + 1]) == MemberLines(t, idx[..j]) + [MemberAddress(t[idx[j]].phyAddr)]
  {
  }

  /** A master's block: its bank and address, then its siblings' addresses. */
  function Block(t: seq<Entry>, m: nat): seq<Line>
    requires Wired(t) && m < |t|
  {
    [BankHeader(t[m].bank, t[m].phyAddr)] + MemberLines(t, Members(t[m]))
  }

  /** The lines printed for the masters among t[..n], in index order. */
  function Lines(t: seq<Entry>, n: nat): seq<Line>
    requires Wired(t) && n <= |t|
  {
    if n == 0 then []
    else if t[n - 1].associated then Lines(t, n - 1)
    else Lines(t, n - 1) + Block(t, n - 1)
  }

  /** The bank ids of the headers among the lines, in order. */
  function BankIds(lines: seq<Line>): seq<int>
  {
    if lines == [] then []
    else if lines[|lines| - 1].BankHeader? then BankIds(lines[..|lines| - 1]) + [lines[|lines| - 1].bank]
    else BankIds(lines[..|lines| - 1])
  }

  /** The warning list is empty exactly when every entry has a bank. */
  lemma {:induction false} WarningsEmpty(t: seq<Entry>, n: nat)
    requires n <= |t|
    ensures Warnings(t, n) == [] <==> forall k | 0 <= k < n :: t[k].bank >= 0
  {
    if n > 0 {
      WarningsEmpty(t, n - 1);
    }
  }

  /** The report holds one `Line` item per master and one per counted sibling. */
  lemma {:induction false} LinesCount(t: seq<Entry>, n: nat)
    requires Wired(t) && n <= |t|
    ensures |Lines(t, n)| == BankTotal(t, n)
  {
    if n > 0 {
      LinesCount(t, n - 1);
    }
  }

  lemma {:induction false} BankIdsAppend(a: seq<Line>, b: seq<Line>)
    ensures BankIds(a + b) == BankIds(a) + BankIds(b)
    decreases |b|
  {
    if b == [] {
      assert a + b == a;
    } else {
      assert (a + b)[..|a + b| - 1] == a + b[..|b| - 1];
      BankIdsAppend(a, b[..|b| - 1]);
    }
  }

  lemma {:induction false} MemberLinesNoHeader(t: seq<Entry>, idx: seq<nat>)
    requires forall a | 0 <= a < |idx| :: idx[a] < |t|
    ensures BankIds(MemberLines(t, idx)) == []
    decreases |idx|
  {
    if idx != [] {
      var front := idx[..|idx| - 1];
      assert MemberLines(t, idx)[..|idx| - 1] == MemberLines(t, front);
      MemberLinesNoHeader(t, front);
    }
  }

  /** A block holds one header, its master's. */
  lemma BlockIds(t: seq<Entry>, m: nat)
    requires Wired(t) && m < |t|
    ensures BankIds(Block(t, m)) == [t[m].bank]
  {
    var h := BankHeader(t[m].bank, t[m].phyAddr);
    MemberLinesNoHeader(t, Members(t[m]));
    BankIdsAppend([h], MemberLines(t, Members(t[m])));
    assert BankIds([h]) == BankIds([]) + [t[m].bank];
  }

  /** The report's headers are the masters' banks, in index order. */
  lemma {:induction false} HeadersInOrder(t: seq<Entry>, n: nat)
    requires Wired(t) && n <= |t|
    ensures |BankIds(Lines(t, n))| == |MastersBelow(t, n)|
    ensures forall a | 0 <= a < |MastersBelow(t, n)| :: BankIds(Lines(t, n))[a] == t[MastersBelow(t, n)[a]].bank
  {
    if n > 0 {
      HeadersInOrder(t, n - 1);
      var m := n - 1;
      var p := MastersBelow(t, m);
      if !t[m].associated {
        var ids := BankIds(Lines(t, m));
        BlockIds(t, m);
        BankIdsAppend(Lines(t, m), Block(t, m));
        assert BankIds(Lines(t, n)) == ids + [t[m].bank];
        assert MastersBelow(t, n) == p + [m];
        forall a | 0 <= a < |p| + 1 ensures (ids + [t[m].bank])[a] == t[(p + [m])[a]].bank {
          if a < |p| {
            assert (ids + [t[m].bank])[a] == ids[a];
            assert (p + [m])[a] == p[a];
          }
        }
      }
    }
  }

  /** After a completed assignment of a partitioned table, no entry is
      reported unassigned, the headers are banks 0, 1, 2, ... in order, and
      the report holds one `Line` item per entry of a bank. */
  lemma ReportComplete(t: seq<Entry>, maxBanks: nat)
    requires Partitioned(t)
    requires Wired(t) && Assign(t, maxBanks).Assigned?
    ensures var u := Assign(t, maxBanks).table;
      && Wired(u)
      && Warnings(u, |u|) == []
      && BankIds(Lines(u, |u|)) == seq(|Masters(t)|, a => a)
      && |Lines(u, |u|)| == BankTotal(t, |t|)
  {
    AssignCorrect(t, maxBanks);
    var r := Assign(t, maxBanks);
    var u := r.table;
    SameButBankWired(t, u);
    WarningsEmpty(u, |u|);
    HeadersInOrder(u, |u|);
    MastersSameButBank(t, u, |t|);
    LinesCount(u, |u|);
    BankTotalSameButBank(t, u, |t|);
  }

  /** The blocks of the listed masters, concatenated in list order. */
  function BankBlocks(t: seq<Entry>, ms: seq<nat>): seq<Line>
    requires Wired(t) && forall a | 0 <= a < |ms| :: ms[a] < |t|
  {
    if ms == [] then [] else BankBlocks(t, ms[..|ms| - 1]) + Block(t, ms[|ms| - 1])
  }

  /** The report is the masters' blocks in index order. */
  lemma {:induction false} LinesBlocks(t: seq<Entry>, n: nat)
    requires Wired(t) && n <= |t|
    ensures Lines(t, n) == BankBlocks(t, MastersBelow(t, n))
  {
    if n > 0 {
      LinesBlocks(t, n - 1);
      var p := MastersBelow(t, n - 1);
      if t[n - 1].associated {
        assert MastersBelow(t, n) == p;
        assert Lines(t, n) == Lines(t, n - 1);
      } else {
        var q := MastersBelow(t, n);
        assert q == p + [n - 1];
        assert q[..|q| - 1] == p && q[|q| - 1] == n - 1;
        assert BankBlocks(t, q) == BankBlocks(t, p) + Block(t, n - 1);
        assert Lines(t, n) == Lines(t, n - 1) + Block(t, n - 1);
      }
    }
  }

  /** In a partitioned table the counted slots of master m are exactly the
      other entries whose master is m, in increasing order, so each once. */
  lemma BankMembers(t: seq<Entry>, m: nat)
    requires Partitioned(t) && m < |t| && !t[m].associated
    ensures Members(t[m]) == t[m].siblings
    ensures forall k | 0 <= k < |t| :: k in Members(t[m]) <==> k != m && Owner(t, k) == m
    ensures forall a, b | 0 <= a < b < |Members(t[m])| :: Members(t[m])[a] < Members(t[m])[b]
  {
    assert MasterLinked(t, m);
    forall k | 0 <= k < |t| && k in t[m].siblings ensures k != m && Owner(t, k) == m {
      OneMasterEach(t, k, m);
    }
  }

  /** A master's block in a relabelled table: its new bank, its address and
      its siblings' addresses, which relabelling leaves alone. */
  lemma BlockSameButBank(t: seq<Entry>, u: seq<Entry>, m: nat)
    requires SameButBank(t, u) && Wired(t) && Wired(u) && m < |t|
    ensures Block(u, m) == [BankHeader(u[m].bank, t[m].phyAddr)] + MemberLines(t, Members(t[m]))
  {
    assert u[m] == t[m].(bank := u[m].bank);
    var idx := Members(t[m]);
    assert forall a | 0 <= a < |idx| :: u[idx[a]] == t[idx[a]].(bank := u[idx[a]].bank);
    assert MemberLines(u, idx) == MemberLines(t, idx);
  }

  /** An entry whose bank is its master's, when the a-th master has bank a,
      has the bank of the block it is listed in. */
  lemma BankNamesOwner(t: seq<Entry>, u: seq<Entry>, k: nat)
    requires Partitioned(t) && |u| == |t| && k < |t|
    requires forall a | 0 <= a < |Masters(t)| :: u[Masters(t)[a]].bank == a
    requires u[k].bank == u[Owner(t, k)].bank
    ensures 0 <= u[k].bank < |Masters(t)| && Masters(t)[u[k].bank] == Owner(t, k)
  {
    var ms := Masters(t);
    MastersBelowSorted(t, |t|);
    MastersBelowComplete(t, |t|);
    var o := Owner(t, k);
    assert o in ms;
    var a :| 0 <= a < |ms| && ms[a] == o;
    assert u[ms[a]].bank == a;
  }

  /** After a completed assignment of a partitioned table, the report is, in
      index order, one block per master: bank b's block is the header with
      bank id b and the b-th master's address, followed by the addresses of
      exactly the other entries whose master that is, in increasing order.
      Every entry's bank names the block it is listed in. */
  lemma ReportByBank(t: seq<Entry>, maxBanks: nat)
    requires Partitioned(t) && Wired(t) && Assign(t, maxBanks).Assigned?
    ensures var u := Assign(t, maxBanks).table; var ms := Masters(t);
      && |u| == |t|
      && Wired(u)
      && (forall a | 0 <= a < |ms| :: ms[a] < |t|)
      && Lines(u, |u|) == BankBlocks(u, ms)
      && (forall b | 0 <= b < |ms| ::
            Block(u, ms[b]) == [BankHeader(b, t[ms[b]].phyAddr)] + MemberLines(t, Members(t[ms[b]])))
      && (forall b, k | 0 <= b < |ms| && 0 <= k < |t| ::
            k in Members(t[ms[b]]) <==> k != ms[b] && Owner(t, k) == ms[b])
      && (forall k | 0 <= k < |t| :: 0 <= u[k].bank < |ms| && ms[u[k].bank] == Owner(t, k))
  {
    AssignCorrect(t, maxBanks);
    var u := Assign(t, maxBanks).table;
    var ms := Masters(t);
    SameButBankWired(t, u);
    MastersSameButBank(t, u, |t|);
    LinesBlocks(u, |u|);
    forall b | 0 <= b < |ms|
      ensures Block(u, ms[b]) == [BankHeader(b, t[ms[b]].phyAddr)] + MemberLines(t, Members(t[ms[b]]))
    {
      BlockSameButBank(t, u, ms[b]);
    }
    forall b, k | 0 <= b < |ms| && 0 <= k < |t|
      ensures k in Members(t[ms[b]]) <==> k != ms[b] && Owner(t, k) == ms[b]
    {
      MastersBelowSorted(t, |t|);
      BankMembers(t, ms[b]);
    }
    forall k | 0 <= k < |t| ensures 0 <= u[k].bank < |ms| && ms[u[k].bank] == Owner(t, k) {
      BankNamesOwner(t, u, k);
    }
  }

  lemma {:induction false} MastersSameButBank(t: seq<Entry>, u: seq<Entry>, n: nat)
    requires SameButBank(t, u) && n <= |t|
    ensures MastersBelow(u, n) == MastersBelow(t, n)
  {
    if n > 0 {
      MastersSameButBank(t, u, n - 1);
      assert u[n - 1].associated == t[n - 1].associated;
    }
  }

  lemma {:induction false} BankTotalSameButBank(t: seq<Entry>, u: seq<Entry>, n: nat)
    requires SameButBank(t, u) && n <= |t|
    ensures BankTotal(u, n) == BankTotal(t, n)
  {
    if n > 0 {
      BankTotalSameButBank(t, u, n - 1);
      assert u[n - 1].associated == t[n - 1].associated && u[n - 1].numSibling == t[n - 1].numSibling;
    }
  }

  // ---------------------------------------------------------------------
  // The bank table write as the source orders it
  // ---------------------------------------------------------------------

  /** The banks[] slots check_mapping writes when, as in the source, each
      master's slot is written first and the bound asserted after the
      increment: the loop stops right after writing a slot past the last. */
  function AsWrittenBankSlots(t: seq<Entry>, maxBanks: nat, i: nat, next: nat): seq<nat>
    requires i <= |t|
    decreases |t| - i
  {
    if i == |t| then []
    else if t[i].associated then AsWrittenBankSlots(t, maxBanks, i + 1, next)
    else [next] + (if next + 1 > maxBanks then [] else AsWrittenBankSlots(t, maxBanks, i + 1, next + 1))
  }

  lemma {:induction false} AsWrittenReaches(t: seq<Entry>, maxBanks: nat, i: nat, next: nat)
    requires i <= |t| && next <= maxBanks
    requires |Masters(t)| - |MastersBelow(t, i)| > maxBanks - next
    ensures maxBanks in AsWrittenBankSlots(t, maxBanks, i, next)
    decreases |t| - i
  {
    MastersBelowGrow(t, i, |t|);
    if i == |t| {
    } else {
      assert |MastersBelow(t, i + 1)| == |MastersBelow(t, i)| + (if t[i].associated then 0 else 1);
      if t[i].associated {
        AsWrittenReaches(t, maxBanks, i + 1, next);
      } else if next < maxBanks {
        AsWrittenReaches(t, maxBanks, i + 1, next + 1);
      }
    }
  }

  /** With more masters than bank slots, the source stores into slot
      banks[maxBanks], one past the end, before its assertion stops it. */
  lemma AsWrittenOverrun(t: seq<Entry>, maxBanks: nat)
    requires |Masters(t)| > maxBanks
    ensures maxBanks in AsWrittenBankSlots(t, maxBanks, 0, 0)
  {
    AsWrittenReaches(t, maxBanks, 0, 0);
  }
}
