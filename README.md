# pyQMMM core in Dafny

A verified model of three pyQMMM tools for QM/MM charge analysis.

- **Quick CSA (charge shift analysis)** (`pyqmmm/quick_csa.py`).
  - `mask_maker` copies the `ATOM` records of the requested residues out of a PDB structure. It skips `TER` lines and stops at the first `END` line.
  - `collect_charges` sums the Mulliken charges of the mask atoms per residue. A residue opens whenever the residue index rises. Each link atom whose next residue label `res_name + str(res_index + 1)` is in the list then adds the charge of table row `k + len(mask_atoms) - 1` to the link-corrected total of that residue, where `k` is the residue's position, and the link label of that residue is marked with `*`.
  - `get_res_diff` lists the holo residues that the apo structure lacks.
  - `charge_diff` pairs every holo residue outside the difference set with apo row `line + n`. Here `line` is the holo row and `-n` the number of removed residues met so far. It takes the plain and link-corrected charge differences. It also keeps the shifts of at least 0.05.
- **Cluster frame indexer** (`pyqmmm/scripts/cluster_frame_indexer.py`).
  - `get_clusters` parses the CPPTraj `cnumvtime.dat` table, skipping its header line. It collects the frames assigned to cluster 0.
  - `condense_numbering` condenses a frame list into CPPTraj interval notation, `"1-3, 6-10"`.
- **Charge/spin extraction** (`pyqmmm/extract_charges_spins.py`).
  - The range expansion of `user_input` turns `"58-76, 80"` into atom numbers.
  - `get_charges` and `get_spins` sum column 2 (charges) or column 9 (spins) of the selected atoms' rows, for each scan step closed by an `End` row. They then reverse the records when the answer to the prompt is non-empty.

The layout of the Dafny files:

- Every Python loop of the modelled code is a Dafny `method` with a `while` loop. The one exception is the pair of label-collecting loops of `get_res_diff`, which `ChargeDelta.ResidueDiff` models as a set difference (see "## Left out").
- Each loop is proved against a specification function.
  - Specification functions are written by prefix recursion over a count `n`, meaning "after the first `n` items".
  - So the loop invariant is an equation such as `totals == Totals(atoms, charges, i)`.
- The properties are lemmas about those functions.
- Python exceptions are modelled as error values, returned in `Result`/`Option`:
  - `IndexError` on an empty list, a short row or a missing table row;
  - `ValueError` from `int()`/`float()`;
  - `StopIteration` on an empty file.
- Each error value names the first line or row that fails, in the order the code evaluates it.
- The files are read by the Python code; here their lines are inputs. Outputs that would be written to files are the method's results.

Modules:

- `Wrappers`: `Option`/`Result`.
- `Text`: decimal numerals, `split`/`join`, whitespace tokens, slicing and `strip`.
- `Ranges`: Python `range`.
- `MaskBuilder`, `ChargeAggregator`, `ChargeDelta`: `quick_csa.py`.
- `ClusterFrames`: `cluster_frame_indexer.py`.
- `ChargesSpins`: `extract_charges_spins.py`.
- `SelectionRoundTrip`: the `condense_numbering` output read back by the `user_input` expansion.

## Code versus documentation

Where the code and its documentation disagree, the model follows the code.

- `charge_diff` keeps a shift when `diff >= 0.05` (`pyqmmm/quick_csa.py:261`, `:263`). That is signed: a large negative shift is not kept. The code's comment at `pyqmmm/quick_csa.py:251` says only "differences > 0.05".
- The `condense_numbering` docstring shows `[1-3,6-10]`. The code joins the pieces with `", "` and returns the string `1-3, 6-10`, which `CondenseExample` proves.
- `collect_charges` reads a link atom's charge from row `k + len(mask_atoms) - 1`, where `k` is the position of the residue it corrects. It does not use the link atom's own position. So every link atom aimed at residue `k` adds the same row (`LinkShareIsHitsTimesRow`).

## Model

| member | source | states |
|---|---|---|
| MaskBuilder.MakeMask | pyqmmm/quick_csa.py:82-97 | the mask holds, in file order, exactly the `ATOM` lines of requested residues before the first `END`; it has no `TER`/`END` line; `res_type_array` has the residue field of each kept line, all requested; the reported count is the number of distinct residues |
| MaskBuilder.Kept | pyqmmm/quick_csa.py:82-89 | the lines written to the mask, never more than the lines read |
| MaskBuilder.ResidueField | pyqmmm/quick_csa.py:84 | `line[22:28].strip()` has at most six characters, with no whitespace at either end |
| MaskBuilder.IsAtomRecord | pyqmmm/quick_csa.py:85-86 | an `ATOM` line is neither a `TER` nor an `END` line |
| MaskBuilder.IsChainBreak | pyqmmm/quick_csa.py:91 | a `TER` line is neither an `ATOM` nor an `END` line |
| MaskBuilder.IsEndRecord | pyqmmm/quick_csa.py:94 | an `END` line is neither an `ATOM` nor a `TER` line |
| MaskBuilder.ScanLine | pyqmmm/quick_csa.py:84-95 | one line: it stops iff the line is the first `END` line, and otherwise the mask and `res_type_array` become those after that line |
| MaskBuilder.FirstEnd | pyqmmm/quick_csa.py:94-95 | the scan stops at the first line starting with `END` and at no earlier line |
| MaskBuilder.KeptMembership | pyqmmm/quick_csa.py:84-89 | a line is in the mask iff it is in the scanned lines, is an `ATOM` record and its residue field is requested |
| MaskBuilder.KeptAppend | pyqmmm/quick_csa.py:82-89 | filtering is line by line: the mask of two concatenated pieces is the concatenation of their masks |
| MaskBuilder.KeptAreAtoms | pyqmmm/quick_csa.py:86-95 | no kept line is a chain break or an `END` line |
| ChargeAggregator.Label | pyqmmm/quick_csa.py:133 | `res_name + str(res_index)` starts with the residue name and is longer than it |
| ChargeAggregator.MainPassError | pyqmmm/quick_csa.py:126-143 | no error iff the charge table covers every atom and the first atom opens a residue; otherwise a missing row 0 comes first, then `tot_charge[-1]` with no open residue at atom 0, then the first missing row `len(mull_charges)` |
| ChargeAggregator.Peak | pyqmmm/quick_csa.py:118-138 | `prev_res_index` starts at 0, moves to an opening atom's index, and is never negative |
| ChargeAggregator.Opens | pyqmmm/quick_csa.py:132 | an atom opens a residue when its index exceeds `prev_res_index` |
| ChargeAggregator.Opened | pyqmmm/quick_csa.py:132-138 | at most one residue per atom |
| ChargeAggregator.Openings | pyqmmm/quick_csa.py:132-138 | the opening atoms, one per residue |
| ChargeAggregator.LabelsOfOpenings | pyqmmm/quick_csa.py:133-134 | label `k` is `res_name + str(res_index)` of the `k`-th opening atom |
| ChargeAggregator.OpeningsIncrease | pyqmmm/quick_csa.py:132-138 | opening atoms are mask atoms with positive indices up to `prev_res_index`, strictly rising |
| ChargeAggregator.LabelsDistinct | pyqmmm/quick_csa.py:131-138 | with digit-free residue names, `res_list` never repeats a label |
| ChargeAggregator.Labels | pyqmmm/quick_csa.py:132-135 | one label per residue opened, in opening order |
| ChargeAggregator.Totals | pyqmmm/quick_csa.py:136-143 | one total per residue opened; non-empty once a first atom with positive index has opened a residue |
| ChargeAggregator.OpenBucket | pyqmmm/quick_csa.py:132-138 | one atom opens a bucket (label and 0.0 in both plain and link lists, `prev_res_index` raised) exactly when its index exceeds the previous peak |
| ChargeAggregator.AddCharge | pyqmmm/quick_csa.py:141-143 | adding the atom's charge to the last bucket of both lists yields the totals after that atom |
| ChargeAggregator.MainPass | pyqmmm/quick_csa.py:118-143 | fails exactly when there are atoms and the charge table is shorter, or the first index is not positive, naming the first failing atom; otherwise returns the labels and totals of all atoms, the link lists equal to the plain ones |
| ChargeAggregator.TotalsConserveCharge | pyqmmm/quick_csa.py:140-143 | the residue totals add up to the sum of the charges of the atoms seen |
| ChargeAggregator.TotalsAreOwnedCharges | pyqmmm/quick_csa.py:132-143 | each residue total is the sum of the charges of exactly the atoms whose bucket it is |
| ChargeAggregator.PeakIsLastIndex | pyqmmm/quick_csa.py:132-138 | with non-decreasing positive indices `prev_res_index` is the last atom's index |
| ChargeAggregator.OneResiduePerRun | pyqmmm/quick_csa.py:132-138 | with non-decreasing positive indices the number of residues is one plus the number of index changes |
| ChargeAggregator.IndexOf | pyqmmm/quick_csa.py:153-154 | a found position holds the label searched for |
| ChargeAggregator.IndexOfIsFirst | pyqmmm/quick_csa.py:153-154 | `in` fails iff the label is absent, and `index` gives the first position holding it |
| ChargeAggregator.Target | pyqmmm/quick_csa.py:150-154 | the corrected residue is a position of the residue list |
| ChargeAggregator.Targets | pyqmmm/quick_csa.py:146-154 | one target per link atom |
| ChargeAggregator.TargetsIndex | pyqmmm/quick_csa.py:146-154 | the target of link atom `j` is the lookup of its own next-residue label |
| ChargeAggregator.NextLabel | pyqmmm/quick_csa.py:150 | `res_name + str(res_index + 1)` starts with the link atom's residue name and is longer than it |
| ChargeAggregator.LookUpTarget | pyqmmm/quick_csa.py:147-154 | building `res_name + str(res_index + 1)` and looking it up gives link atom `j`'s target |
| ChargeAggregator.LinkTotalsAfter | pyqmmm/quick_csa.py:146-157 | `tot_charge_link` after the first `n` link atoms, as long as the residue list |
| ChargeAggregator.LinkLabelsAfter | pyqmmm/quick_csa.py:146-158 | `res_list_link` after the first `n` link atoms, as long as the residue list |
| ChargeAggregator.LinkTotalsAfterHit | pyqmmm/quick_csa.py:155-157 | a link atom aimed at residue `k` adds row `k + len(mask_atoms) - 1` to that residue's link total only |
| ChargeAggregator.LinkTotalsAfterAddsShare | pyqmmm/quick_csa.py:146-157 | each link total is its plain total plus the link charges aimed at that residue |
| ChargeAggregator.LinkLabelsAfterMarksHits | pyqmmm/quick_csa.py:153-158 | a residue's link label is its label with `*` iff some link atom is aimed at it, else unchanged |
| ChargeAggregator.LinkShareIsHitsTimesRow | pyqmmm/quick_csa.py:155-157 | the link share of residue `k` is (number of link atoms aimed at it) times the charge of row `k + len(mask_atoms) - 1` |
| ChargeAggregator.LinkPass | pyqmmm/quick_csa.py:146-158 | fails iff some link atom's charge row lies past the table, naming the first such link atom and row; otherwise plain lists unchanged and link lists as specified |
| ChargeAggregator.CollectCharges | pyqmmm/quick_csa.py:111-158 | main-pass errors come first; on success the lists are parallel, labels and totals are those specified, charge is conserved, and each link total and label is the plain one plus its link share and `*` mark |
| ChargeDelta.ResidueDiff | pyqmmm/quick_csa.py:200-204 | a label is removed iff it is a holo residue and not an apo residue |
| ChargeDelta.NothingRemovedIffContained | pyqmmm/quick_csa.py:200-204 | the difference is empty iff every holo residue occurs in the apo list |
| ChargeDelta.KeptRows | pyqmmm/quick_csa.py:232-236 | the compared holo rows are rows of the list, at most as many as the rows seen |
| ChargeDelta.KeptRowsIncrease | pyqmmm/quick_csa.py:232-236 | the compared holo rows come in increasing order |
| ChargeDelta.KeptRowsAreTheUnremoved | pyqmmm/quick_csa.py:235-237 | a row is compared iff its label is not removed |
| ChargeDelta.KeptRowsKeepAll | pyqmmm/quick_csa.py:232-238 | with nothing removed every row is compared, row `j` as the `j`-th |
| ChargeDelta.IdenticalPairsEachRowWithItself | pyqmmm/quick_csa.py:200-238 | a structure compared with itself removes nothing and pairs each row with the same row |
| ChargeDelta.DiffOfIdentical | pyqmmm/quick_csa.py:215-264 | `charge_diff` of a structure with itself succeeds; every residue keeps its label with plain and link shifts of 0.0, and both cutoff lists are empty |
| ChargeDelta.DiffExample | pyqmmm/quick_csa.py:229-264 | holo `WAT1 LIG2 ALA3` against apo `WAT1 ALA3`: `LIG2` is skipped, the shifts are `WAT1 0.40-0.38` and `ALA3 0.10-0.01` (link `0.45-0.38`, `0.10-0.01`), and only shifts of at least 0.05 reach each cutoff list |
| ChargeDelta.DocumentedExample | pyqmmm/quick_csa.py:229-264 | holo `WAT1 0.40, LIG2 -0.30, ALA3 0.10` against apo `WAT1 0.38, ALA3 0.11`: `LIG2` is skipped, the shifts are `WAT1 0.40-0.38` and `ALA3 0.10-0.11`, and neither reaches the 0.05 cutoff, the negative one included |
| ChargeDelta.KeptRowsFollowSubsequence | pyqmmm/quick_csa.py:232-238 | for distinct labels and an apo list obtained by deletions, the kept holo rows carry the apo labels in order |
| ChargeDelta.AlignmentPairsSameResidue | pyqmmm/quick_csa.py:215-238 | with distinct holo labels (which `LabelsDistinct` gives for digit-free residue names) and apo = holo with deletions, there are as many kept rows as apo rows, and the `j`-th kept row has apo row `j`'s label |
| ChargeDelta.KeptRowsPast | pyqmmm/quick_csa.py:235-238 | the rows kept later extend the rows kept so far, a kept row at its own position `line + n` |
| ChargeDelta.PairRow | pyqmmm/quick_csa.py:238-245 | one kept row appends its plain and link shifts against apo row `line + n` |
| ChargeDelta.AlignCharges | pyqmmm/quick_csa.py:229-245 | succeeds iff the kept holo rows are no more than the apo rows; otherwise fails at the first kept row past the apo list; the `j`-th shifts are kept row `j` minus apo row `j`, plain and link |
| ChargeDelta.Above | pyqmmm/quick_csa.py:260-264 | the cutoff list is no longer than the shifts it selects from |
| ChargeDelta.AboveMembership | pyqmmm/quick_csa.py:260-264 | a shift is in the cutoff list iff it is one of the shifts and is at least `Cutoff`, 0.05 |
| ChargeDelta.NoShiftNothingAbove | pyqmmm/quick_csa.py:260-264 | zero shifts leave the cutoff list empty |
| ChargeDelta.ChargeDiff | pyqmmm/quick_csa.py:215-264 | succeeds iff the kept holo rows are exactly as many as the apo rows; otherwise fails at the missing apo row or at the missing shift row; outputs are all shifts and those at or above the cutoff |
| ClusterFrames.ParseAssignment | pyqmmm/scripts/cluster_frame_indexer.py:33-34 | an unparsable data line is reported with its own row, never as an empty file |
| ClusterFrames.MainCluster | pyqmmm/scripts/cluster_frame_indexer.py:32-37 | the frames collected are fewer than the lines read |
| ClusterFrames.MainClusterMembership | pyqmmm/scripts/cluster_frame_indexer.py:32-37 | a frame is collected iff some data line assigns it to cluster 0 |
| ClusterFrames.GetClusters | pyqmmm/scripts/cluster_frame_indexer.py:28-38 | an empty file fails on the header; otherwise succeeds iff every data line parses, fails at the first bad line and column, and returns the cluster-0 frames in file order |
| ClusterFrames.Grow | pyqmmm/scripts/cluster_frame_indexer.py:71-81 | after one frame the last run ends at that frame |
| ClusterFrames.Runs | pyqmmm/scripts/cluster_frame_indexer.py:70-81 | at most one run per frame; the last run ends at the last frame seen and is non-empty |
| ClusterFrames.RunsExpandStep | pyqmmm/scripts/cluster_frame_indexer.py:71-81 | one more frame extends the expansion of the runs by that frame |
| ClusterFrames.RunsExpandToFrames | pyqmmm/scripts/cluster_frame_indexer.py:70-87 | expanding the runs gives back the frame list exactly |
| ClusterFrames.RunsAreMaximal | pyqmmm/scripts/cluster_frame_indexer.py:71-81 | consecutive runs never touch: a run is closed only where the next frame is not `last + 1` |
| ClusterFrames.RunCount | pyqmmm/scripts/cluster_frame_indexer.py:71-81 | the number of runs is one plus the number of breaks in the list |
| ClusterFrames.ExampleRuns | pyqmmm/scripts/cluster_frame_indexer.py:61-62 | the docstring frames form the runs 1..3 and 6..10 |
| ClusterFrames.CondenseExample | pyqmmm/scripts/cluster_frame_indexer.py:61-62 | the docstring frames condense to `1-3, 6-10` |
| ClusterFrames.Piece | pyqmmm/scripts/cluster_frame_indexer.py:75-78 | the text of one run, `first-last` or `first`, is non-empty and holds no comma |
| ClusterFrames.Pieces | pyqmmm/scripts/cluster_frame_indexer.py:75-78 | one text piece per run |
| ClusterFrames.RunText | pyqmmm/scripts/cluster_frame_indexer.py:75-78 | the text of the current run is `first-last`, or `first` for a single frame |
| ClusterFrames.CondensingStart | pyqmmm/scripts/cluster_frame_indexer.py:71-73 | the first frame opens the current run |
| ClusterFrames.CondensingExtend | pyqmmm/scripts/cluster_frame_indexer.py:71-73 | a frame `last + 1` extends the current run |
| ClusterFrames.CondensingBreak | pyqmmm/scripts/cluster_frame_indexer.py:74-81 | any other frame closes the current run's text into `final` and opens a new run |
| ClusterFrames.CondensingClose | pyqmmm/scripts/cluster_frame_indexer.py:83-87 | at the last frame, appending the current run's text gives the text of all runs |
| ClusterFrames.Advance | pyqmmm/scripts/cluster_frame_indexer.py:71-81 | one iteration keeps the loop state equal to the state after `index + 1` frames |
| ClusterFrames.CondenseNumbering | pyqmmm/scripts/cluster_frame_indexer.py:66-90 | the result is the texts of the maximal runs joined by `", "` |
| SelectionRoundTrip.RunsOrdered | pyqmmm/scripts/cluster_frame_indexer.py:70-81 | for non-negative frames every run is non-empty and non-negative |
| SelectionRoundTrip.ExpandPiece | pyqmmm/extract_charges_spins.py:56-57 | the piece of a run expands back into that run's range and has no comma |
| SelectionRoundTrip.ExpandPieces | pyqmmm/extract_charges_spins.py:56-57 | the pieces of ordered runs expand into the concatenated ranges |
| SelectionRoundTrip.RoundTrip | pyqmmm/scripts/cluster_frame_indexer.py:70-90 | reading a condensed non-empty list of non-negative frames with the selection expansion gives back the frames, as decimal strings |
| SelectionRoundTrip.EmptyRoundTrip | pyqmmm/scripts/cluster_frame_indexer.py:89-90 | an empty frame list condenses to `""`, which the expansion rejects (`int('')`) |
| ChargesSpins.ExpandElement | pyqmmm/extract_charges_spins.py:56-57 | fails iff some `-`-separated part is not an integer; otherwise `last - first + 1` numbers (none when backwards), from the first number to the last |
| ChargesSpins.ExpandElements | pyqmmm/extract_charges_spins.py:56-58 | succeeds iff every element expands |
| ChargesSpins.ExpandSelection | pyqmmm/extract_charges_spins.py:56-58 | `user_input`'s expansion fails iff some `, `-separated element does not expand |
| ChargesSpins.ParseAll | pyqmmm/extract_charges_spins.py:57 | a successful parse gives one number per part |
| ChargesSpins.ParseNumeral | pyqmmm/extract_charges_spins.py:57 | `int` reads back a decimal numeral |
| ChargesSpins.ExpandRun | pyqmmm/extract_charges_spins.py:56-57 | `"a-b"` expands into `range(a, b + 1)` |
| ChargesSpins.ExpandSingle | pyqmmm/extract_charges_spins.py:56-57 | `"a"` expands into `[a]` |
| ChargesSpins.ExpandBackwards | pyqmmm/extract_charges_spins.py:56-57 | `"a-b"` with `b < a` expands into nothing |
| ChargesSpins.ExpandEmptyElement | pyqmmm/extract_charges_spins.py:56-57 | an empty element is rejected |
| ChargesSpins.ExpandJoined | pyqmmm/extract_charges_spins.py:56-58 | comma-free elements joined by `", "` expand element by element |
| ChargesSpins.Decimals | pyqmmm/extract_charges_spins.py:58 | one string per atom number |
| ChargesSpins.SplitLines | pyqmmm/extract_charges_spins.py:79 | one token list per line |
| ChargesSpins.LineError | pyqmmm/extract_charges_spins.py:79-81 | a line's error carries that line's row |
| ChargesSpins.EndRows | pyqmmm/extract_charges_spins.py:83 | the `End` rows lie among the lines seen |
| ChargesSpins.Scanned | pyqmmm/extract_charges_spins.py:78-86 | the loop state of `get_spins`/`get_charges` (records and running sum) after `n` lines, at most one record per line |
| ChargesSpins.ScannedOpenStep | pyqmmm/extract_charges_spins.py:78-86 | one record per `End` line so far, and the running sum adds the selected values since the last `End` |
| ChargesSpins.Blocks | pyqmmm/extract_charges_spins.py:83-86 | one record per `End` row |
| ChargesSpins.BlocksIndex | pyqmmm/extract_charges_spins.py:83-86 | record `k` is step `k + 1` with the sum of the block ending at the `k`-th `End` |
| ChargesSpins.BlockStartPrefix | pyqmmm/extract_charges_spins.py:83-86 | a block starts where it did whatever `End` rows follow |
| ChargesSpins.BlocksAppend | pyqmmm/extract_charges_spins.py:83-86 | a new `End` row appends one record and keeps the earlier ones |
| ChargesSpins.ScannedRecords | pyqmmm/extract_charges_spins.py:78-86 | the records are exactly one per block, summing that block's selected values, numbered from 1 |
| ChargesSpins.TrailingLinesDropped | pyqmmm/extract_charges_spins.py:78-86 | lines after the last `End` add no record |
| ChargesSpins.Reversed | pyqmmm/extract_charges_spins.py:88-90 | reversal keeps the length |
| ChargesSpins.ReversedIndex | pyqmmm/extract_charges_spins.py:88-90 | position `k` of the reversal holds position `len - 1 - k` |
| ChargesSpins.ReversedTwice | pyqmmm/extract_charges_spins.py:88-90 | reversing twice restores the records |
| ChargesSpins.Reverse | pyqmmm/extract_charges_spins.py:90 | the in-place swap loop leaves the array reversed |
| ChargesSpins.ReverseOnRequest | pyqmmm/extract_charges_spins.py:121-123 | a non-empty answer reverses the records, an empty one keeps them |
| ChargesSpins.SumBlocks | pyqmmm/extract_charges_spins.py:104-125 | succeeds iff no line raises; otherwise fails at the first line raising, with its error; the result is the per-step records, reversed on a non-empty answer |
| ChargesSpins.GetCharges | pyqmmm/extract_charges_spins.py:104-125 | `SumBlocks` on column 2 |
| ChargesSpins.GetSpins | pyqmmm/extract_charges_spins.py:72-92 | `SumBlocks` on column 9 |
| Ranges.Range | pyqmmm/extract_charges_spins.py:56 | `range(lo, hi)` has `hi - lo` elements, or none |
| Ranges.RangeIndex | pyqmmm/extract_charges_spins.py:56 | element `k` of `range(lo, hi)` is `lo + k` |
| Text.ParseIntToString | pyqmmm/extract_charges_spins.py:57-58 | `int(str(i)) == i` |
| Text.ParseNatToString | pyqmmm/extract_charges_spins.py:57 | a natural numeral parses back to its value |
| Text.NatToStringInjective | pyqmmm/quick_csa.py:133 | distinct natural indices give distinct numerals (used by `NameNumeralInjective`) |
| Text.NameNumeralInjective | pyqmmm/quick_csa.py:133 | a digit-free residue name followed by the numeral of its index determines both name and index |
| Text.IntToStringDigits | pyqmmm/scripts/cluster_frame_indexer.py:76 | `str(i)` is all digits iff `i` is not negative |
| Text.IntToStringLacks | pyqmmm/scripts/cluster_frame_indexer.py:76 | `str(i)` holds only digits and `-`, so no comma |
| Text.Split | pyqmmm/extract_charges_spins.py:57 | `str.split(sep)` always gives at least one piece |
| Text.JoinSplit | pyqmmm/extract_charges_spins.py:57 | joining the pieces of `s.split(sep)` with `sep` restores `s` |
| Text.ParseInt | pyqmmm/scripts/cluster_frame_indexer.py:33-34 | `int()` succeeds iff the text is an optional sign followed by at least one digit; a negative value has a leading `-` |
| Text.NatToString | pyqmmm/quick_csa.py:133 | `str(n)` of a natural is non-empty, starts with a digit, and has no leading zero unless `n` is 0 |
| Text.IntToString | pyqmmm/scripts/cluster_frame_indexer.py:76 | `str(i)` is non-empty and starts with `-` iff `i` is negative |
| Text.Join | pyqmmm/scripts/cluster_frame_indexer.py:89 | `", ".join` puts the first piece first, followed by the separator when more pieces follow |
| Text.NatToStringLacks | pyqmmm/scripts/cluster_frame_indexer.py:76 | a numeral holds no non-digit character |
| Text.SplitJoin | pyqmmm/extract_charges_spins.py:57 | splitting a join of separator-free parts returns the parts |
| Text.Tokens | pyqmmm/extract_charges_spins.py:79 | `split()` tokens are non-empty and hold no whitespace |
| Text.TokensJoin | pyqmmm/extract_charges_spins.py:79 | `split()` of whitespace-free words joined by spaces returns the words |
| Text.Strip | pyqmmm/quick_csa.py:84 | `strip()` leaves no whitespace at either end and never lengthens |
| Text.Slice | pyqmmm/quick_csa.py:84 | `line[22:28]` is the slice when the line is long enough, and shorter or empty otherwise |

## Left out

- File I/O is not modelled. Files become their lines as inputs, and written files become method results.
  - This covers the reads and writes in `quick_csa.py`, `cluster_frame_indexer.py` and `extract_charges_spins.py`, and `write_data`.
  - A run that fails after writing some lines is modelled as failing outright. The partial output files are not modelled.
- `input()` prompts are not modelled. The reverse prompt becomes `answer`, and the selection prompt's text becomes the argument of `ExpandSelection`.
- The unused `selection` parameter of `get_charges`/`get_spins` is dropped.
- The driver functions are not modelled: `get_mask_res`, `get_pdb_name`, the script body of `quick_csa.py`, `cluster_frame_indexer`, `extract_charges_spins` and `get_files`.
  - They only prompt the user, print, and pass file names around.
- The second empty link-atom file of `mask_maker` is not modelled. It is an empty side effect, and `CollectCharges` takes any link atom list.
- Floating point is modelled as `real`.
  - `float()` of a charge or spin column is the parameter `toFloat` in `ChargesSpins`.
  - The charge tables enter `ChargeAggregator` already converted to `seq<real>`.
  - Rounding, the binary value of `0.05`, and the `'{} {}'.format` text of the written numbers are not modelled. That includes the `0` against `0.0` printed for an empty step.
- `ChargeAggregator.CollectCharges` and `ChargeDelta.ChargeDiff` do not model how a line is split into fields.
  - They take the residue names, indices and charges already extracted from lines 127-129, 141, 147-149, 156 and 233-239 of `pyqmmm/quick_csa.py`.
  - The `IndexError`/`ValueError` a malformed line would raise there is not modelled.
- `Text.ParseInt` accepts an optional sign, `-` or `+`, followed by ASCII digits only. Python's `int()` also accepts surrounding whitespace, `_` separators and non-ASCII digits.
- `Text.Tokens` and `Text.Strip` (`line.split()` and `line[22:28].strip()`) treat as whitespace only the ASCII characters Python counts as whitespace: tab to carriage return, the separators 0x1C-0x1F, and space. Python's `split()` and `strip()` also treat other Unicode whitespace, such as U+00A0 and U+2028, as whitespace.
- ChargeDelta.ResidueDiff: the two loops of `get_res_diff` (`pyqmmm/quick_csa.py:190-198`) are modelled as the labels they collect, not as loops. The residue lists enter as the labels of the `ResidueCharges` the aggregator produced, so the model does not capture reading the `.mullres` files, nor taking `line.strip('\n').split()[0]` of each line (lines 191 and 197) and the `IndexError` of an empty line there.
- ChargeAggregator.LabelsDistinct: proved only for residue names without digits. With digits in names, labels can coincide: `A1` with index 2 and `A` with index 12 both give `A12`. `ChargeDelta.AlignmentPairsSameResidue` keeps distinct labels as its hypothesis.
- Negative list indices are not modelled. The charge rows used are always non-negative: `line + n` is the number of kept rows so far, and `k + len(mask_atoms) - 1` is non-negative whenever a residue exists.
- Not part of this model: `MolTraj.py`, `analysis_plotv1.2.py` and `ppm2png.py` (plotting and image conversion), and the rest of the repository.
