# Bank inference engine (model)

This project models the DRAM bank inference engine of `bank_test_file.c`.
The engine starts from N candidate addresses spaced `MIN_BANK_SIZE` bytes apart.
It reads a stream of pairwise access times and uses outlier detection to decide
which addresses share a bank.

- **Classification (`run_exp`).** Each address that no earlier address has claimed
  becomes a *master*. A master reads one sample per later address and claims as
  siblings the unclaimed later addresses whose sample is at least
  `(100 + OUTLIER_PERCENTAGE)%` of the row mean.
- **Assignment and report (`check_mapping`).** Masters get bank ids 0, 1, 2, ... in
  index order. Each master passes its id to its siblings and is recorded in the
  bank table. The report then lists every address left without a bank, and every
  bank with its member addresses.
- **`print_binary`.** Prints the binary digits of a value.

The model is in five modules:

- `BankTable` (`bank_table.dfy`) holds the entry record, the constants, the table
  `init_entries` builds, and the structural invariants. `Partitioned` says that
  every claimed entry has a back-reference to the one master listing it, and that
  every count agrees with its slots.
- `Classifier` (`classifier.dfy`) defines the classification loop as functions:
  one master's pass (`Pass`), the whole loop (`Classify`), and the sample count it
  consumes (`Cost`). The proofs show the loop leaves a partitioned table whose bank
  sizes add up to N.
- `Assigner` (`assigner.dfy`) defines bank assignment (`Assign`) and the report
  (`Warnings`, `Lines`). The proofs show that each entry gets its master's bank,
  that the report is complete, and that the headers come out in order.
- `BinaryText` (`binary_text.dfy`) holds `print_binary`: a method over a
  100-character buffer, proved to produce the canonical binary digits, with a
  round trip back to the value.
- `BankMapper` (`mapper.dfy`) holds the class `Mapper`. Its fields are the arrays
  `entries[NUM_ENTRIES]` and `banks[MAX_BANKS]`, and its methods change them in
  place as the C functions do. `InitBanks` is proved to empty every bank slot and
  `InitEntries` to build `BankTable.InitialTable`. The other methods are proved to
  compute the corresponding function of `Classifier` or `Assigner`. `Infer` is the sequence `main` runs,
  and its result is `Assign` applied to `Classify` of the initial table.
  `MappingComplete` states the end-to-end result.

Modelling choices:

- **Sibling slots.** An entry's sibling slots (`struct entry *siblings[]`) are
  modelled as the sequence of slot indices written so far, in slot order.
- **Bank slots.** `banks[].main_entry` is the index of the master, or -1 for NULL.
- **Classifier input.** The timing file becomes a sequence of integer samples read
  through a cursor.
- **Mean test.** The floating-point comparison
  `avgs[j] >= (sum / sub_entries) * (100 + pct) / 100` is replaced by the exact
  cross-multiplied test `x * 100 * count >= (100 + pct) * sum`.
  `Classifier.OutlierMatchesThreshold` proves the two agree over the reals.

How many samples are read:

- A row of samples is read only for an entry that is still unclaimed when its
  turn comes (line 222 skips claimed entries before the read loop).
- That row holds N - i - 1 samples for master i. `Classifier.Cost` is the total
  over masters.
- A file of N(N-1)/2 samples therefore always suffices
  (`Classifier.FullStreamFinishes`), and at most that many are read
  (`Classifier.ClassifyPartitions`).
- Lines 229-230 take the two addresses on each sample line without comparing
  them to the pair being measured.

## Model

| member | source | states |
|---|---|---|
| BankTable.InitialTableShape | bank_test_file.c:154-167 | the table init_entries builds has every entry unclaimed, with no slots, a zero count, bank -1, and physical address phyStart + i * MIN_BANK_SIZE modulo 2^64 |
| BankTable.InitialAddressesDistinct | bank_test_file.c:161-162 | when the N strides fit in 64 bits, the N physical addresses are pairwise distinct |
| BankTable.Owner | bank_test_file.c:251-255 | an entry's master is itself when unclaimed; otherwise it is its slot-0 back-reference, an earlier unclaimed entry whose list contains it |
| BankTable.PartitionedWired | bank_test_file.c:124-125 | in a partitioned table every count is within its slots and every slot names an entry of the table, so check_mapping's dereferences stay in bounds |
| BankTable.OneMasterEach | bank_test_file.c:243-256 | an entry listed by a master is claimed, has that master as its owner, and lies after it: no entry is in two banks |
| BankTable.MastersBelowComplete | bank_test_file.c:291-296 | every unclaimed entry below n is among the masters listed below n |
| BankTable.MastersBelowRank | bank_test_file.c:289-304 | the a-th master has exactly a masters before it, so its bank id is a |
| Classifier.OutlierMatchesThreshold | bank_test_file.c:236-242 | the integer test holds exactly when the sample reaches (sum / count) * (100 + pct) / 100 computed over the reals |
| Classifier.ThresholdInclusive | bank_test_file.c:242 | a sample exactly equal to the threshold is an outlier (the comparison is >=) |
| Classifier.OutlierMonotone | bank_test_file.c:237-242 | with a non-negative sum, an outlier at a higher percentage is an outlier at any lower one |
| Classifier.CandidatesMembers | bank_test_file.c:240-256 | a master claims exactly the examined later entries that are selected and still unclaimed, in increasing index order |
| Classifier.ConflictsMembers | bank_test_file.c:242-249 | a master reports a conflict for exactly the selected later entries that an earlier master already claimed |
| Classifier.PassEffect | bank_test_file.c:239-264 | one pass appends the claimed entries to the master's slots and sets its count to their number; each claimed entry becomes associated, with the master in slot 0 and count 1; earlier claims are kept; nothing else changes |
| Classifier.PassMonotone | bank_test_file.c:236-256 | with non-negative samples, raising the percentage never adds a sibling and never increases a master's sibling count |
| Classifier.PassLinked | bank_test_file.c:250-256 | a pass over a linked table whose later masters have empty slots keeps every master and sibling link consistent |
| Classifier.PassProgress | bank_test_file.c:217-264 | a pass keeps the loop's invariant: the table stays linked; addresses and banks do not change; counts agree with slots for entries up to the master and for claimed entries; later unclaimed entries still have no slots; masters and their slots cover exactly N entries; entries up to the master keep their claimed state |
| Classifier.CostBound | bank_test_file.c:220-227 | the samples the masters consume never exceed the count when every entry is a master |
| Classifier.FullCostClosed | bank_test_file.c:216 | when every entry is a master the loop reads N(N-1)/2 samples |
| Classifier.ClassifyPartitions | bank_test_file.c:217-277 | from an unclaimed table, a finished run leaves a partitioned table of the same size; the bank sizes (1 + num_sibling per master) sum to N; addresses and banks are untouched; the cursor is the masters' sample count, at most N(N-1)/2; each conflict names an entry an earlier master owns. A run aborts only on a stream shorter than N(N-1)/2 |
| Classifier.FullStreamFinishes | bank_test_file.c:181-182 | a stream of N(N-1)/2 samples never trips the read assertion |
| Assigner.SetBankAt | bank_test_file.c:299-302 | writing a bank into a list of entries sets exactly the listed entries' bank and changes nothing else |
| Assigner.LabelAt | bank_test_file.c:298-302 | labelling a master sets the bank of the master and of its first num_sibling siblings and of no other entry, and changes no other field |
| Assigner.AssignCorrect | bank_test_file.c:286-306 | on a partitioned table, assignment completes iff there are at most MAX_BANKS masters. Then bank slot a holds the a-th master, which has bank a; every entry has its master's bank, in 0 .. #masters-1; only bank fields change. On overflow all MAX_BANKS slots are full |
| Assigner.WarningsEmpty | bank_test_file.c:308-314 | no "not assigned any bank" line is reported iff every entry has a bank >= 0 |
| Assigner.LinesCount | bank_test_file.c:316-323 | the report holds one `Line` item per master (its header) and one per counted sibling, so the sum over masters of 1 + num_sibling |
| Assigner.HeadersInOrder | bank_test_file.c:316-320 | the bank headers are the masters' banks in index order |
| Assigner.ReportComplete | bank_test_file.c:308-324 | after a completed assignment nothing is reported unassigned, the headers read 0, 1, 2, ..., and there is one `Line` item per bank member |
| Assigner.LinesBlocks | bank_test_file.c:309-324 | the report is the masters' blocks in index order: each master's header followed by its counted siblings' addresses |
| Assigner.BankMembers | bank_test_file.c:321-323 | in a partitioned table a master's counted slots are its whole slot list, and hold exactly the other entries whose master it is, in increasing order, so each once |
| Assigner.ReportByBank | bank_test_file.c:308-324 | after a completed assignment of a partitioned table, the report is one block per master in index order. Bank b's block is the header with id b and the b-th master's address, then the addresses of exactly the other entries whose master that is, in increasing order. Every entry's bank is the id of the block that lists it |
| Assigner.AsWrittenReaches | bank_test_file.c:303-305 | with the write placed before the assertion, if more masters remain than free slots, slot MAX_BANKS gets written |
| Assigner.AsWrittenOverrun | bank_test_file.c:303-305 | with more than MAX_BANKS masters, check_mapping as written stores into banks[MAX_BANKS], one past the end |
| BinaryText.BinaryCanonical | bank_test_file.c:193-200 | the digits are '0'/'1' with no leading zero, and are empty iff the value is 0 |
| BinaryText.BinaryRoundTrip | bank_test_file.c:193-200 | reading the digits back in base 2 gives the value |
| BinaryText.FromBinaryRoundTrip | bank_test_file.c:193-200 | every canonical digit string is the output for its own value |
| BinaryText.WordDigits | bank_test_file.c:187-193 | a 64-bit value has at most 64 digits, so it fits the 99 buffer positions before the terminator |
| BinaryText.PrintBinary | bank_test_file.c:187-203 | filling the buffer from index 98 downward, bit by bit, then printing from the last digit written, outputs exactly the binary digits of v (nothing for 0) |
| BankMapper.MappingComplete | bank_test_file.c:361-365 | after a finished classification, assignment completes iff there are at most MAX_BANKS masters. Then nothing is reported unassigned, the headers read 0, 1, 2, ..., there are N `Line` items (one per entry), and every sibling has its master's bank |
| BankMapper.Mapper.constructor | bank_test_file.c:133-140 | the static tables start with entries zeroed and bank slots NULL |
| BankMapper.Mapper.InitBanks | bank_test_file.c:146-152 | every bank slot becomes NULL |
| BankMapper.Mapper.InitEntries | bank_test_file.c:154-167 | the entry array becomes the initial table for the given base addresses |
| BankMapper.Mapper.ReadRow | bank_test_file.c:227-234 | the read loop succeeds iff N - i - 1 samples remain; it then stores them in avgs[i+1..N-1], advances the cursor by that many, and returns their sum |
| BankMapper.Mapper.ClaimRow | bank_test_file.c:236-273 | the claim loop leaves the table as the master's pass defines it, and returns the pass's conflicts |
| BankMapper.Mapper.RunExp | bank_test_file.c:205-281 | the entry array becomes the classified table. ok holds iff the samples sufficed; the cursor and the conflict list are then the classification's |
| BankMapper.Mapper.LabelMaster | bank_test_file.c:298-302 | the entry array becomes the table with master m and its counted siblings labelled b |
| BankMapper.Mapper.Report | bank_test_file.c:308-324 | returns the unassigned addresses and the printed lines of the entry table, changing nothing |
| BankMapper.Mapper.CheckMapping | bank_test_file.c:286-324 | the entry array becomes the assigned table; bank slots below the master count hold the masters and the rest are unchanged; ok holds iff assignment completed. If so the report is returned, otherwise nothing is printed |
| BankMapper.Mapper.Infer | bank_test_file.c:353-365 | from the initial table, classification finishes on any stream of N(N-1)/2 samples and yields a partitioned table. On abort the entry array is the aborted run's table. Otherwise the entry array is the assignment of the classified table, with bank slots the recorded masters and -1 after them. Mapping completes iff there are at most MAX_BANKS masters. Then warnings and lines are the report of the entry array, every entry has a bank >= 0, nothing is reported unassigned, headers read 0, 1, 2, ..., there are N `Line` items (one per entry), and every entry shares its master's bank |

## Left out

- `main` (lines 337-369): the argument check, the usage message, opening and
  closing the time file, `strtol` of the base address, and the parameter banner
  are I/O. `Infer` takes the base addresses and the samples as parameters.
- `find_read_time_from_file` (lines 176-185): reading and `sscanf`-parsing a line
  is I/O. It is replaced by the sample sequence, and its read assertion by the
  `Aborted` outcome. A line that fails to parse is not modelled.
- The two addresses each sample line carries, written into `virt_addr` at lines
  229-230, are not modelled. `virt_addr` is read nowhere in the core.
- `nearest_nonoutlier` and the `dprintf`/`eprint` text only feed diagnostics.
  `running_avg` and `running_threshold` are modelled through the cross-multiplied
  test (see "Mean test"). Conflicts are returned as `Conflict` values, and the report as
  `Line` values and a list of unassigned addresses.
- Floating-point arithmetic: samples are integers (the `%d` field of a line). The
  threshold test is exact, so a sample that double rounding would put on the
  other side of the threshold is not modelled.
- The report's text: `printf("Bank %d\n0x%lx\n", ...)` at lines 319-320 prints
  two lines per master, the bank id and the master's address. The model has one
  `BankHeader(bank, address)` item for both, so the program prints N + #masters
  lines where the model has N items. The hexadecimal formatting is not modelled.
- The `#if 0` blocks (lines 265-272 and 326-334) and the commented-out comparator
  are not compiled in the source, so they are not modelled.
- Process termination: when the samples run out the C program aborts. The model
  returns the table as the last completed pass left it. When the bank table
  overflows, the model stops before the report and prints nothing.
- Fixed sizes: N (`NUM_ENTRIES`), `MAX_BANKS` and the percentage are parameters
  (the array lengths and `pct`). `BankTable` gives the source's values as
  constants. `bank_test.h` is not part of this model beyond those constants.
- Classifier.Pass: the write of slot `num_outlier` is modelled as an append to the
  slots written so far. This matches the source because an entry's slots are
  still empty when it becomes a master, which `Classifier.PassProgress` keeps
  as an invariant.
- BankTable.InitialEntry: `memset` clears all 4096 sibling slots. The model starts
  with no slot written, as slots beyond `num_sibling` are never read.

## Findings

| source | as written | input that shows it | evidently intended | confidence | as-written member | corrected member |
|---|---|---|---|---|---|---|
| bank_test_file.c:303-305 | `banks[main_bank]` is written before `assert(main_bank <= MAX_BANKS)`, so the 129th master is stored at `banks[128]`, one past the end of `banks[MAX_BANKS]` | 129 entries with all samples equal and positive, so no sample reaches the threshold and every entry is a master; MAX_BANKS = 128 | check that a free bank slot exists before recording the master | not executed | Assigner.AsWrittenOverrun | Assigner.AssignCorrect |
