/** The entry table that the bank inference engine works on: one entry per
    candidate address, spaced MinBankSize bytes apart, with the fields the
    classifier and the bank assigner update.  Sibling relations are kept
    as entry indices. */
module BankTable {

  /** PAGE_SIZE / 2: the stride between two candidate addresses. */
  const MinBankSize: nat := 2048
  /** Default percentage by which a sample must exceed the mean. */
  const OutlierPercentage: nat := 30
  /** Default capacity of the bank table. */
  const MaxBanks: nat := 128
  /** Default table size: 8 MB of memory divided by MinBankSize. */
  const NumEntries: nat := 4096
  /** 2^64: addresses are uint64_t / uintptr_t values. */
  const Word: nat := 0x1_0000_0000_0000_0000

  /** One candidate address.  `siblings` holds the sibling slots that have
      been written: for a master the entries it claimed, in claim order,
      for a claimed entry the one back-reference to its master.
      `numSibling` is the count the source keeps beside the slots. */
  datatype Entry = Entry(
    virtAddr: nat,
    phyAddr: nat,
    bank: int,
    siblings: seq<nat>,
    numSibling: nat,
    associated: bool)

  /** A zeroed entry, as static storage starts out. */
  const Blank: Entry := Entry(0, 0, 0, [], 0, false)

  /** The entry that init_entries writes at index i (uint64 arithmetic wraps). */
  function InitialEntry(virtStart: nat, phyStart: nat, i: nat): Entry
  {
    Entry((virtStart + i * MinBankSize) % Word, (phyStart + i * MinBankSize) % Word, -1, [], 0, false)
  }

  function InitialTable(n: nat, virtStart: nat, phyStart: nat): (t: seq<Entry>)
    ensures |t| == n
  {
    seq(n, i requires 0 <= i < n => InitialEntry(virtStart, phyStart, i))
  }

  /** No entry is claimed and no sibling slot has been written. */
  predicate Unclaimed(t: seq<Entry>)
  {
    forall k | 0 <= k < |t| :: !t[k].associated && t[k].siblings == [] && t[k].numSibling == 0
  }

  /** Every slot that the assigner and the report read lies in the table. */
  predicate Wired(t: seq<Entry>)
  {
    forall k | 0 <= k < |t| ::
      t[k].numSibling <= |t[k].siblings| && forall a | 0 <= a < |t[k].siblings| :: t[k].siblings[a] < |t|
  }

  /** A master lists distinct later entries, in increasing order, each of
      which is claimed and points back to it. */
  predicate MasterLinked(t: seq<Entry>, m: nat)
    requires m < |t|
  {
    !t[m].associated ==>
      (forall a, b | 0 <= a < b < |t[m].siblings| :: t[m].siblings[a] < t[m].siblings[b]) &&
      (forall s | s in t[m].siblings :: m < s < |t| && t[s].associated && t[s].siblings == [m])
  }

  /** A claimed entry has one back-reference, to an earlier master that lists it. */
  predicate SiblingLinked(t: seq<Entry>, j: nat)
    requires j < |t|
  {
    t[j].associated ==>
      |t[j].siblings| == 1 && t[j].siblings[0] < j &&
      !t[t[j].siblings[0]].associated && j in t[t[j].siblings[0]].siblings
  }

  predicate Linked(t: seq<Entry>)
  {
    forall k | 0 <= k < |t| :: MasterLinked(t, k) && SiblingLinked(t, k)
  }

  /** Every count agrees with the slots written. */
  predicate Counted(t: seq<Entry>)
  {
    forall k | 0 <= k < |t| :: t[k].numSibling == |t[k].siblings|
  }

  /** The table splits into masters, each owning the claimed entries it lists. */
  predicate Partitioned(t: seq<Entry>)
  {
    Linked(t) && Counted(t)
  }

  /** The master an entry belongs to: itself, or the master that claimed it. */
  function Owner(t: seq<Entry>, k: nat): (m: nat)
    requires Linked(t) && k < |t|
    ensures m <= k && !t[m].associated
    ensures m == k <==> !t[k].associated
    ensures m != k ==> k in t[m].siblings
  {
    assert SiblingLinked(t, k);
    if t[k].associated then t[k].siblings[0] else k
  }

  /** The masters among t[..n], in index order; its length is the bank id the next master gets. */
  function MastersBelow(t: seq<Entry>, n: nat): (r: seq<nat>)
    requires n <= |t|
    ensures forall a | 0 <= a < |r| :: r[a] < n
  {
    if n == 0 then []
    else if t[n - 1].associated then MastersBelow(t, n - 1)
    else MastersBelow(t, n - 1) + [n - 1]
  }

  function Masters(t: seq<Entry>): seq<nat>
  {
    MastersBelow(t, |t|)
  }

  /** Entries covered by the masters' slot lists: each master and the slots it wrote. */
  function Covered(t: seq<Entry>, n: nat): nat
    requires n <= |t|
  {
    if n == 0 then 0
    else Covered(t, n - 1) + (if t[n - 1].associated then 0 else 1 + |t[n - 1].siblings|)
  }

  /** The sum over masters of 1 + num_sibling. */
  function BankTotal(t: seq<Entry>, n: nat): nat
    requires n <= |t|
  {
    if n == 0 then 0
    else BankTotal(t, n - 1) + (if t[n - 1].associated then 0 else 1 + t[n - 1].numSibling)
  }

  // ---------------------------------------------------------------------
  // Lemmas about the table
  // ---------------------------------------------------------------------

  /** The table init_entries builds is unclaimed, unassigned and strided. */
  lemma InitialTableShape(n: nat, virtStart: nat, phyStart: nat)
    ensures Unclaimed(InitialTable(n, virtStart, phyStart))
    ensures forall i | 0 <= i < n ::
      InitialTable(n, virtStart, phyStart)[i].bank == -1 &&
      InitialTable(n, virtStart, phyStart)[i].phyAddr == (phyStart + i * MinBankSize) % Word
  {
  }

  /** When the region fits in the address space, the n addresses are distinct. */
  lemma InitialAddressesDistinct(n: nat, virtStart: nat, phyStart: nat, i: nat, j: nat)
    requires n * MinBankSize <= Word
    requires i < j < n
    ensures InitialEntry(virtStart, phyStart, i).phyAddr != InitialEntry(virtStart, phyStart, j).phyAddr
  {
    var a := phyStart + i * MinBankSize;
    var d := (j - i) * MinBankSize;
    assert 0 < d < Word by {
      assert j - i <= n;
      assert d <= n * MinBankSize;
    }
    assert phyStart + j * MinBankSize == a + d;
    ModAddDistinct(a, d);
  }

  lemma ModAddDistinct(a: nat, d: nat)
    requires 0 < d < Word
    ensures a % Word != (a + d) % Word
  {
    var q, r := a / Word, a % Word;
    assert a == q * Word + r;
    if r + d < Word {
      assert a + d == q * Word + (r + d);
      assert (a + d) % Word == r + d;
    } else {
      assert a + d == (q + 1) * Word + (r + d - Word);
      assert (a + d) % Word == r + d - Word;
    }
  }

  /** In an unclaimed table every entry is a master with an empty list. */
  lemma {:induction false} UnclaimedCovered(t: seq<Entry>, n: nat)
    requires Unclaimed(t) && n <= |t|
    ensures Covered(t, n) == n
  {
    if n > 0 {
      UnclaimedCovered(t, n - 1);
    }
  }

  /** Once every count agrees with its slots, both sums agree. */
  lemma {:induction false} CountedTotal(t: seq<Entry>, n: nat)
    requires Counted(t) && n <= |t|
    ensures BankTotal(t, n) == Covered(t, n)
  {
    if n > 0 {
      CountedTotal(t, n - 1);
    }
  }

  /** Replacing one entry changes the covered count by the change at that entry. */
  lemma {:induction false} CoveredUpdate(t: seq<Entry>, p: nat, e: Entry, n: nat)
    requires p < |t| && n <= |t|
    ensures Covered(t[p := e], n) ==
      Covered(t, n)
      - (if p < n && !t[p].associated then 1 + |t[p].siblings| else 0)
      + (if p < n && !e.associated then 1 + |e.siblings| else 0)
  {
    if n > 0 {
      CoveredUpdate(t, p, e, n - 1);
    }
  }

  /** A table that is partitioned is wired. */
  lemma PartitionedWired(t: seq<Entry>)
    requires Partitioned(t)
    ensures Wired(t)
  {
    forall k | 0 <= k < |t|
      ensures t[k].numSibling <= |t[k].siblings| && forall a | 0 <= a < |t[k].siblings| :: t[k].siblings[a] < |t|
    {
      assert MasterLinked(t, k) && SiblingLinked(t, k);
      assert forall a | 0 <= a < |t[k].siblings| :: t[k].siblings[a] in t[k].siblings;
    }
  }

  /** No claimed entry appears in two masters' lists: its master is its back-reference. */
  lemma OneMasterEach(t: seq<Entry>, j: nat, m: nat)
    requires Linked(t) && j < |t| && m < |t|
    requires !t[m].associated && j in t[m].siblings
    ensures t[j].associated && Owner(t, j) == m && m < j
  {
    assert MasterLinked(t, m);
  }

  /** The masters below n are masters below n, listed in increasing order. */
  lemma {:induction false} MastersBelowSorted(t: seq<Entry>, n: nat)
    requires n <= |t|
    ensures forall a | 0 <= a < |MastersBelow(t, n)| ::
      MastersBelow(t, n)[a] < n && !t[MastersBelow(t, n)[a]].associated
    ensures forall a, b | 0 <= a < b < |MastersBelow(t, n)| :: MastersBelow(t, n)[a] < MastersBelow(t, n)[b]
  {
    if n > 0 {
      MastersBelowSorted(t, n - 1);
      var p := MastersBelow(t, n - 1);
      var q := MastersBelow(t, n);
      forall a | 0 <= a < |q| ensures q[a] < n && !t[q[a]].associated {
        if a < |p| { assert q[a] == p[a]; }
      }
      forall a, b | 0 <= a < b < |q| ensures q[a] < q[b] {
        if b < |p| { assert q[a] == p[a] && q[b] == p[b]; }
      }
    }
  }

  /** Every master below n is listed. */
  lemma {:induction false} MastersBelowComplete(t: seq<Entry>, n: nat)
    requires n <= |t|
    ensures forall m | 0 <= m < n && !t[m].associated :: m in MastersBelow(t, n)
  {
    if n > 0 {
      MastersBelowComplete(t, n - 1);
      var p := MastersBelow(t, n - 1);
      assert forall m | m in p :: m in MastersBelow(t, n);
    }
  }

  /** The a-th master listed has exactly a masters below it. */
  lemma {:induction false} MastersBelowRank(t: seq<Entry>, n: nat, a: nat)
    requires n <= |t| && a < |MastersBelow(t, n)|
    ensures MastersBelow(t, n)[a] < n
    ensures |MastersBelow(t, MastersBelow(t, n)[a])| == a
  {
    var p := MastersBelow(t, n - 1);
    if a < |p| {
      MastersBelowRank(t, n - 1, a);
      assert MastersBelow(t, n)[a] == p[a];
    }
  }

  /** The number of masters below n never decreases with n. */
  lemma {:induction false} MastersBelowGrow(t: seq<Entry>, a: nat, b: nat)
    requires a <= b <= |t|
    ensures |MastersBelow(t, a)| <= |MastersBelow(t, b)|
    ensures MastersBelow(t, b)[..|MastersBelow(t, a)|] == MastersBelow(t, a)
    decreases b
  {
    if a < b {
      MastersBelowGrow(t, a, b - 1);
    }
  }
}
