/** The bank inference run: the entry table and the bank table as arrays
    updated in place, with the steps main takes on them (init_banks,
    init_entries, run_exp, check_mapping).  InitBanks empties every bank
    slot, InitEntries builds BankTable.InitialTable, RunExp computes
    Classifier.Classify and CheckMapping computes Assigner.Assign and the
    report. */
module BankMapper {
  import opened BankTable
  import opened Classifier
  import opened Assigner

  /** From the table init_entries builds, a finished classification followed
      by a completed assignment leaves every entry in a bank (the "not
      assigned any bank" warning is never printed), the report lists banks
      0, 1, 2, ... in order with one `Line` item per entry, and every sibling shares
      its master's bank.  Assignment completes exactly when there are at most
      maxBanks masters. */
  lemma MappingComplete(t0: seq<Entry>, samples: seq<int>, pct: nat, maxBanks: nat)
    requires Unclaimed(t0) && Classify(t0, samples, pct).Finished?
    ensures var t := Classify(t0, samples, pct).table;
      && |t| == |t0| && Partitioned(t) && Wired(t)
      && (Assign(t, maxBanks).Assigned? <==> |Masters(t)| <= maxBanks)
      && (Assign(t, maxBanks).Assigned? ==>
            var u := Assign(t, maxBanks).table;
            && |u| == |t0|
            && Wired(u)
            && Warnings(u, |u|) == []
            && |Lines(u, |u|)| == |t0|
            && BankIds(Lines(u, |u|)) == seq(|Masters(t)|, a => a)
            && (forall k | 0 <= k < |t| :: u[k].bank == u[Owner(t, k)].bank))
  {
    ClassifyPartitions(t0, samples, pct);
    var t := Classify(t0, samples, pct).table;
    PartitionedWired(t);
    AssignCorrect(t, maxBanks);
    if Assign(t, maxBanks).Assigned? {
      ReportComplete(t, maxBanks);
    }
  }

  class Mapper {
    /** entries[NUM_ENTRIES]: one entry per candidate address. */
    const entries: array<Entry>
    /** banks[MAX_BANKS]: the index of each bank's master entry, -1 for NULL. */
    const banks: array<int>

    /** The tables as static storage starts them: entries zeroed, no masters. */
    constructor (n: nat, maxBanks: nat)
      ensures entries.Length == n && banks.Length == maxBanks
      ensures forall k | 0 <= k < n :: entries[k] == Blank
      ensures forall k | 0 <= k < maxBanks :: banks[k] == -1
      ensures fresh(entries) && fresh(banks)
    {
      entries := new Entry[n](_ => Blank);
      banks := new int[maxBanks](_ => -1);
    }

    /** init_banks: every bank slot empty. */
    method InitBanks()
      modifies banks
      ensures forall k | 0 <= k < banks.Length :: banks[k] == -1
    {
      for i := 0 to banks.Length
        invariant forall k | 0 <= k < i :: banks[k] == -1
      {
        banks[i] := -1;
      }
    }

    /** init_entries: entry i at virtStart + i * MinBankSize and phyStart +
        i * MinBankSize, no bank, no siblings, unclaimed. */
    method InitEntries(virtStart: nat, phyStart: nat)
      modifies entries
      ensures entries[..] == InitialTable(entries.Length, virtStart, phyStart)
    {
      for i := 0 to entries.Length
        invariant forall k | 0 <= k < i :: entries[k] == InitialEntry(virtStart, phyStart, k)
      {
        entries[i] := Blank;
        entries[i] := entries[i].(virtAddr := (virtStart + i * MinBankSize) % Word);
        entries[i] := entries[i].(phyAddr := (phyStart + i * MinBankSize) % Word);
        entries[i] := entries[i].(bank := -1);
        entries[i] := entries[i].(numSibling := 0);
        entries[i] := entries[i].(associated := false);
      }
    }

    /** run_exp: each unclaimed entry i reads N - i - 1 samples into avgs,
        sums them, and claims the unclaimed later entries at or above
        (100 + pct)% of their mean; a selected entry claimed earlier is
        reported as a conflict.  ok is false when the samples run out. */
    method RunExp(samples: seq<int>, pct: nat) returns (ok: bool, cursor: nat, conflicts: seq<Conflict>)
      modifies entries
      ensures var r := Classify(old(entries[..]), samples, pct);
        && entries[..] == r.table
        && (ok <==> r.Finished?)
        && (ok ==> cursor == r.cursor && conflicts == r.conflicts)
    {
      var n := entries.Length;
      var avgs := new int[n];
      cursor := 0;
      conflicts := [];
      var i := 0;
      while i < n
        invariant i <= n && cursor <= |samples|
        invariant ClassifyFrom(entries[..], samples, pct, i, cursor, conflicts) == Classify(old(entries[..]), samples, pct)
      {
        if entries[i].associated {
          ClassifySkip(entries[..], samples, pct, i, cursor, conflicts);
          i := i + 1;
          continue;
        }
        ghost var start := cursor;
        var read, sum;
        read, cursor, sum := ReadRow(samples, cursor, i, avgs);
        if !read {
          ClassifyAbort(entries[..], samples, pct, i, start, conflicts);
          ok := false;
          return;
        }
        ghost var row := samples[start .. cursor];
        ghost var t := entries[..];
        var found := ClaimRow(i, pct, avgs, sum, row);
        ClassifyPass(t, samples, pct, i, start, conflicts, row);
        conflicts := conflicts + found;
        i := i + 1;
      }
      ok := true;
    }

    /** The read loop of run_exp for master i: one sample per later entry j,
        stored in avgs[j] and summed; it fails when the samples run out. */
    method ReadRow(samples: seq<int>, cursor: nat, i: nat, avgs: array<int>) returns (ok: bool, next: nat, sum: int)
      requires avgs.Length == entries.Length && i < entries.Length && cursor <= |samples|
      modifies avgs
      ensures ok <==> |samples| - cursor >= entries.Length - i - 1
      ensures ok ==> next == cursor + (entries.Length - i - 1) && sum == Sum(samples[cursor .. next])
      ensures ok ==> forall x | i < x < entries.Length :: avgs[x] == samples[cursor + (x - i - 1)]
    {
      var n := entries.Length;
      next := cursor;
      sum := 0;
      var j := i + 1;
      while j < n
        invariant i + 1 <= j <= n
        invariant next == cursor + (j - i - 1) <= |samples|
        invariant forall x | i < x < j :: avgs[x] == samples[cursor + (x - i - 1)]
        invariant sum == Sum(samples[cursor .. next])
      {
        if next == |samples| {
          return false, next, sum;
        }
        avgs[j] := samples[next];
        assert samples[cursor .. next + 1][.. next - cursor] == samples[cursor .. next];
        next := next + 1;
        sum := sum + avgs[j];
        j := j + 1;
      }
      ok := true;
    }

    /** The claim loop of run_exp for master i: entry j is selected when its
        sample avgs[j] reaches the threshold; an unclaimed selected entry is
        appended to the master's slots, marked associated and pointed back to
        the master, a claimed one is reported; then the master's count is set. */
    method ClaimRow(i: nat, pct: nat, avgs: array<int>, sum: int, ghost row: seq<int>) returns (found: seq<Conflict>)
      requires avgs.Length == entries.Length && i + 1 + |row| == entries.Length
      requires !entries[i].associated
      requires sum == Sum(row) && forall x | i < x < entries.Length :: avgs[x] == row[x - i - 1]
      modifies entries
      ensures entries[..] == Pass(old(entries[..]), i, row, pct)
      ensures found == PassConflicts(old(entries[..]), i, row, pct, |row|)
    {
      var n := entries.Length;
      var subEntries := n - (i + 1);
      ghost var t := entries[..];
      entries[i] := entries[i].(associated := false);
      assert entries[..] == t;
      PartialPassZero(t, i, row, pct);
      found := [];
      var j := i + 1;
      var numOutlier := 0;
      while j < n
        invariant i + 1 <= j <= n
        invariant entries[..] == PartialPass(t, i, row, pct, j - i - 1)
        invariant numOutlier == |Candidates(t, i, row, pct, j - i - 1)|
        invariant found == PassConflicts(t, i, row, pct, j - i - 1)
      {
        PartialPassStep(t, i, row, pct, j - i - 1);
        if IsOutlier(avgs[j], sum, subEntries, pct) {
          if entries[j].associated {
            found := found + [Conflict(j, i)];
          } else {
            entries[i] := entries[i].(siblings := entries[i].siblings + [j]);
            numOutlier := numOutlier + 1;
            entries[j] := entries[j].(associated := true);
            entries[j] := entries[j].(siblings := [i]);
            entries[j] := entries[j].(numSibling := 1);
          }
        }
        j := j + 1;
      }
      if !entries[i].associated {
        entries[i] := entries[i].(numSibling := numOutlier);
      }
    }

    /** check_mapping: masters get bank ids 0, 1, 2, ... in index order and
        pass them to their siblings, each master is recorded in its bank
        slot after the bound is checked (ok is false when the bank table is
        full), then every entry without a bank is reported and every master
        is printed with its siblings. */
    method CheckMapping() returns (ok: bool, warnings: seq<nat>, lines: seq<Line>)
      requires Wired(entries[..])
      modifies entries, banks
      ensures var r := Assign(old(entries[..]), banks.Length);
        && entries[..] == r.table
        && (ok <==> r.Assigned?)
        && (forall k | 0 <= k < banks.Length :: banks[k] == if k < |r.banks| then r.banks[k] else old(banks[k]))
        && (ok ==> Wired(r.table) && warnings == Warnings(r.table, |r.table|) && lines == Lines(r.table, |r.table|))
        && (!ok ==> warnings == [] && lines == [])
    {
      var n := entries.Length;
      var mainBank := 0;
      ghost var recorded: seq<nat> := [];
      var i := 0;
      while i < n
        invariant i <= n && Wired(entries[..])
        invariant mainBank == |recorded| <= banks.Length
        invariant AssignFrom(entries[..], banks.Length, i, recorded) == Assign(old(entries[..]), banks.Length)
        invariant forall k | 0 <= k < banks.Length :: banks[k] == if k < mainBank then recorded[k] else old(banks[k])
      {
        if entries[i].associated {
          i := i + 1;
          continue;
        }
        ghost var t := entries[..];
        LabelMaster(i, mainBank);
        LabelAt(t, i, mainBank);
        if mainBank >= banks.Length {
          assert AssignFrom(t, banks.Length, i, recorded) == Overflow(entries[..], recorded);
          ok, warnings, lines := false, [], [];
          return;
        }
        assert AssignFrom(t, banks.Length, i, recorded) == AssignFrom(entries[..], banks.Length, i + 1, recorded + [i]);
        banks[mainBank] := i;
        recorded := recorded + [i];
        mainBank := mainBank + 1;
        i := i + 1;
      }
      ok := true;
      warnings, lines := Report();
    }

    /** The labelling step of check_mapping: master m and its first
        num_sibling siblings get bank b. */
    method LabelMaster(m: nat, b: int)
      requires Wired(entries[..]) && m < entries.Length
      modifies entries
      ensures entries[..] == Label(old(entries[..]), m, b)
    {
      ghost var t := entries[..];
      entries[m] := entries[m].(bank := b);
      ghost var t1 := entries[..];
      var j := 0;
      while j < entries[m].numSibling
        invariant 0 <= j <= t[m].numSibling
        invariant entries[..] == SetBank(t1, t[m].siblings[..j], b)
        invariant entries[m].numSibling == t[m].numSibling && entries[m].siblings == t[m].siblings
      {
        var sibling := entries[m].siblings[j];
        entries[sibling] := entries[sibling].(bank := b);
        assert t[m].siblings[..j + 1][..j] == t[m].siblings[..j];
        SetBankAt(t1, t[m].siblings[..j + 1], b);
        j := j + 1;
      }
    }

    /** The report of check_mapping: the address of every entry without a
        bank, and each master's bank and address followed by its siblings'
        addresses. */
    method Report() returns (warnings: seq<nat>, lines: seq<Line>)
      requires Wired(entries[..])
      ensures warnings == Warnings(entries[..], entries.Length)
      ensures lines == Lines(entries[..], entries.Length)
    {
      var n := entries.Length;
      warnings, lines := [], [];
      var i := 0;
      while i < n
        invariant i <= n
        invariant warnings == Warnings(entries[..], i) && lines == Lines(entries[..], i)
      {
        if entries[i].bank < 0 {
          warnings := warnings + [entries[i].phyAddr];
        }
        if entries[i].associated {
          i := i + 1;
          continue;
        }
        lines := lines + [BankHeader(entries[i].bank, entries[i].phyAddr)];
        var j := 0;
        while j < entries[i].numSibling
          invariant 0 <= j <= entries[i].numSibling
          invariant lines == Lines(entries[..], i) + [BankHeader(entries[i].bank, entries[i].phyAddr)] +
                             MemberLines(entries[..], entries[i].siblings[..j])
        {
          MemberLinesStep(entries[..], entries[i].siblings, j);
          lines := lines + [MemberAddress(entries[entries[i].siblings[j]].phyAddr)];
          j := j + 1;
        }
        assert entries[i].siblings[..entries[i].numSibling] == Members(entries[i]);
        i := i + 1;
      }
    }

    /** The steps of main after the input file is opened: the banks are
        emptied, the entries laid out from the base addresses, the samples
        classified and the banks assigned and reported. */
    method Infer(virtStart: nat, phyStart: nat, samples: seq<int>, pct: nat)
      returns (classified: bool, mapped: bool, warnings: seq<nat>, lines: seq<Line>)
      modifies entries, banks
      ensures var r := Classify(InitialTable(entries.Length, virtStart, phyStart), samples, pct);
        && (classified <==> r.Finished?)
        && (2 * |samples| >= entries.Length * (entries.Length - 1) ==> classified)
        && (classified ==> |r.table| == entries.Length && Partitioned(r.table))
        && (!classified ==> entries[..] == r.table)
        && (classified ==>
              && Wired(r.table)
              && entries[..] == Assign(r.table, banks.Length).table
              && (forall k | 0 <= k < banks.Length ::
                    banks[k] == if k < |Assign(r.table, banks.Length).banks| then Assign(r.table, banks.Length).banks[k] else -1))
        && (classified ==> (mapped <==> |Masters(r.table)| <= banks.Length))
        && (classified && mapped ==>
              && Wired(entries[..])
              && warnings == Warnings(entries[..], entries.Length)
              && lines == Lines(entries[..], entries.Length)
              && (forall k | 0 <= k < entries.Length :: entries[k].bank >= 0)
              && warnings == []
              && |lines| == entries.Length
              && BankIds(lines) == seq(|Masters(r.table)|, a => a)
              && (forall k | 0 <= k < entries.Length :: entries[k].bank == entries[Owner(r.table, k)].bank))
        && (!classified ==> !mapped && warnings == [] && lines == [])
    {
      InitBanks();
      InitEntries(virtStart, phyStart);
      ghost var t0 := entries[..];
      InitialTableShape(entries.Length, virtStart, phyStart);
      ClassifyPartitions(t0, samples, pct);
      var cursor, conflicts;
      classified, cursor, conflicts := RunExp(samples, pct);
      if !classified {
        mapped, warnings, lines := false, [], [];
        return;
      }
      MappingComplete(t0, samples, pct, banks.Length);
      mapped, warnings, lines := CheckMapping();
      if mapped {
        WarningsEmpty(entries[..], entries.Length);
      }
    }
  }
}
