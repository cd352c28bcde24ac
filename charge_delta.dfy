/**
 The charge shift comparison of pyqmmm/quick_csa.py: `get_res_diff` finds the
 residues present in the holo structure only, and `charge_diff` pairs every
 holo residue outside the difference set with an apo row, takes the
 difference of the residue charges (plain and link-corrected), and keeps the
 shifts of at least the cutoff in separate lists.

 The residue lists enter as the `ResidueCharges` the aggregator produced for
 the holo and the apo structure; the `.mullres`/`.linkres` files between the
 two steps hold exactly those lists.
 */
module ChargeDelta {
  import opened Wrappers
  import opened ChargeAggregator

  /** The shifts written to the cutoff files are those of at least 0.05. */
  const Cutoff: real := 0.05

  /** One line of a `.diffmullres` file: a residue label and its charge shift. */
  datatype ChargeShift = ChargeShift(residue: string, delta: real)

  /** The residue pairing: plain shifts and link-corrected shifts, in holo order. */
  datatype Aligned = Aligned(mull: seq<ChargeShift>, link: seq<ChargeShift>)

  /** The four output files: all shifts and the shifts at or above the cutoff. */
  datatype DiffReport = DiffReport(
    all: seq<ChargeShift>, allLink: seq<ChargeShift>, cutoff: seq<ChargeShift>, cutoffLink: seq<ChargeShift>)

  /** The ways `charge_diff` raises an IndexError. */
  datatype DiffError =
    | ApoRowMissing(holoRow: nat, apoRow: nat)  // `apo_mull[line + n]` past the apo list
    | ShiftRowMissing(row: nat)                 // `res_list[res]` for a row no holo residue filled

  /** `get_res_diff`: the residue labels of the holo structure that the apo structure lacks. */
  function ResidueDiff(holo: seq<string>, apo: seq<string>): (removed: set<string>)
    ensures forall x :: x in removed <==> x in holo && x !in apo
  {
    (set x | x in holo) - (set x | x in apo)
  }

  /** Nothing is removed exactly when every holo residue also occurs in the apo structure. */
  lemma NothingRemovedIffContained(holo: seq<string>, apo: seq<string>)
    ensures ResidueDiff(holo, apo) == {} <==> forall x :: x in holo ==> x in apo
  {
    if ResidueDiff(holo, apo) == {} {
      forall x | x in holo
        ensures x in apo
      {
        assert x !in ResidueDiff(holo, apo);
      }
    }
  }

  /** The holo rows, among the first `n`, whose residue is not removed: the rows `charge_diff` compares. */
  function KeptRows(labels: seq<string>, removed: set<string>, n: nat): (rows: seq<nat>)
    requires n <= |labels|
    ensures |rows| <= n
    ensures forall j :: 0 <= j < |rows| ==> rows[j] < n
  {
    if n == 0 then []
    else KeptRows(labels, removed, n - 1) + (if labels[n - 1] in removed then [] else [n - 1])
  }

  /** The kept rows are in increasing order. */
  lemma {:induction false} KeptRowsIncrease(labels: seq<string>, removed: set<string>, n: nat)
    requires n <= |labels|
    ensures forall j, k :: 0 <= j < k < |KeptRows(labels, removed, n)| ==>
      KeptRows(labels, removed, n)[j] < KeptRows(labels, removed, n)[k]
  {
    if n > 0 {
      KeptRowsIncrease(labels, removed, n - 1);
      var prev := KeptRows(labels, removed, n - 1);
      if labels[n - 1] in removed {
        assert KeptRows(labels, removed, n) == prev;
      } else {
        var rows := prev + [n - 1];
        assert KeptRows(labels, removed, n) == rows;
        forall j, k | 0 <= j < k < |rows|
          ensures rows[j] < rows[k]
        {
          assert rows[j] == prev[j];
          if k < |prev| {
            assert rows[k] == prev[k];
          }
        }
      }
    }
  }

  /** The kept rows are exactly the rows whose label is not removed. */
  lemma {:induction false} KeptRowsAreTheUnremoved(labels: seq<string>, removed: set<string>, n: nat)
    requires n <= |labels|
    ensures forall i: nat :: i in KeptRows(labels, removed, n) <==> i < n && labels[i] !in removed
  {
    if n > 0 {
      KeptRowsAreTheUnremoved(labels, removed, n - 1);
      var prev := KeptRows(labels, removed, n - 1);
      assert KeptRows(labels, removed, n) == prev + (if labels[n - 1] in removed then [] else [n - 1]);
    }
  }

  /** When no label is removed every row is kept, in order. */
  lemma {:induction false} KeptRowsKeepAll(labels: seq<string>, removed: set<string>, n: nat)
    requires n <= |labels| && forall i :: 0 <= i < n ==> labels[i] !in removed
    ensures |KeptRows(labels, removed, n)| == n
    ensures forall j :: 0 <= j < n ==> KeptRows(labels, removed, n)[j] == j
  {
    if n > 0 {
      KeptRowsKeepAll(labels, removed, n - 1);
    }
  }

  /** Comparing a structure with itself removes nothing and pairs every row with itself. */
  lemma IdenticalPairsEachRowWithItself(labels: seq<string>)
    ensures ResidueDiff(labels, labels) == {}
    ensures |KeptRows(labels, ResidueDiff(labels, labels), |labels|)| == |labels|
    ensures forall j :: 0 <= j < |labels| ==> KeptRows(labels, ResidueDiff(labels, labels), |labels|)[j] == j
  {
    KeptRowsKeepAll(labels, ResidueDiff(labels, labels), |labels|);
  }

  /** `a[..m]` is obtained from `h[..n]` by deleting entries (matched from the end). */
  predicate SubPrefix(a: seq<string>, m: nat, h: seq<string>, n: nat)
    requires m <= |a| && n <= |h|
  {
    if m == 0 then true
    else if n == 0 then false
    else if a[m - 1] == h[n - 1] then SubPrefix(a, m - 1, h, n - 1)
    else SubPrefix(a, m, h, n - 1)
  }

  /** The apo residue list is the holo residue list with some residues deleted. */
  predicate SubsequenceOf(a: seq<string>, h: seq<string>) {
    SubPrefix(a, |a|, h, |h|)
  }

  lemma {:induction false} SubPrefixElements(a: seq<string>, m: nat, h: seq<string>, n: nat)
    requires m <= |a| && n <= |h| && SubPrefix(a, m, h, n)
    ensures forall j :: 0 <= j < m ==> a[j] in h[..n]
  {
    if m > 0 {
      if a[m - 1] == h[n - 1] {
        SubPrefixElements(a, m - 1, h, n - 1);
        assert h[..n] == h[..n - 1] + [h[n - 1]];
      } else {
        SubPrefixElements(a, m, h, n - 1);
        assert h[..n] == h[..n - 1] + [h[n - 1]];
      }
    }
  }

  /** On the first `n` holo rows, `removed` holds exactly the labels missing from `a[..m]`. */
  predicate RemovedAgree(h: seq<string>, a: seq<string>, removed: set<string>, m: nat, n: nat)
    requires m <= |a| && n <= |h|
  {
    forall i :: 0 <= i < n ==> (h[i] in removed <==> h[i] !in a[..m])
  }

  /** The rows kept among the first `n` carry the labels `a[..m]`, in order. */
  predicate KeptMatch(h: seq<string>, a: seq<string>, removed: set<string>, m: nat, n: nat)
    requires m <= |a| && n <= |h|
  {
    var rows := KeptRows(h, removed, n);
    |rows| == m && forall j :: 0 <= j < m ==> h[rows[j]] == a[j]
  }

  lemma KeptMatchStep(h: seq<string>, a: seq<string>, removed: set<string>, m: nat, n: nat)
    requires 0 < m <= |a| && 0 < n <= |h| && a[m - 1] == h[n - 1] && h[n - 1] !in removed
    requires KeptMatch(h, a, removed, m - 1, n - 1)
    ensures KeptMatch(h, a, removed, m, n)
  {
    var prev := KeptRows(h, removed, n - 1);
    assert KeptRows(h, removed, n) == prev + [n - 1];
  }

  lemma KeptSkipStep(h: seq<string>, a: seq<string>, removed: set<string>, m: nat, n: nat)
    requires m <= |a| && 0 < n <= |h| && h[n - 1] in removed
    requires KeptMatch(h, a, removed, m, n - 1)
    ensures KeptMatch(h, a, removed, m, n)
  {
    assert KeptRows(h, removed, n) == KeptRows(h, removed, n - 1);
  }

  lemma AgreeMatchStep(h: seq<string>, a: seq<string>, removed: set<string>, m: nat, n: nat)
    requires 0 < m <= |a| && 0 < n <= |h| && a[m - 1] == h[n - 1] && Distinct(h)
    requires RemovedAgree(h, a, removed, m, n)
    ensures h[n - 1] !in removed && RemovedAgree(h, a, removed, m - 1, n - 1)
  {
    assert a[..m] == a[..m - 1] + [a[m - 1]];
    forall i | 0 <= i < n - 1
      ensures h[i] in removed <==> h[i] !in a[..m - 1]
    {
      assert h[i] != h[n - 1];
    }
  }

  lemma AgreeSkipStep(h: seq<string>, a: seq<string>, removed: set<string>, m: nat, n: nat)
    requires m <= |a| && 0 < n <= |h| && Distinct(h) && SubPrefix(a, m, h, n - 1)
    requires RemovedAgree(h, a, removed, m, n)
    ensures h[n - 1] in removed && RemovedAgree(h, a, removed, m, n - 1)
  {
    SubPrefixElements(a, m, h, n - 1);
  }

  lemma {:induction false} KeptRowsFollowSubsequence(h: seq<string>, a: seq<string>, removed: set<string>, m: nat, n: nat)
    requires m <= |a| && n <= |h| && Distinct(h) && SubPrefix(a, m, h, n)
    requires RemovedAgree(h, a, removed, m, n)
    ensures KeptMatch(h, a, removed, m, n)
  {
    if n > 0 {
      if m > 0 && a[m - 1] == h[n - 1] {
        AgreeMatchStep(h, a, removed, m, n);
        KeptRowsFollowSubsequence(h, a, removed, m - 1, n - 1);
        KeptMatchStep(h, a, removed, m, n);
      } else {
        AgreeSkipStep(h, a, removed, m, n);
        KeptRowsFollowSubsequence(h, a, removed, m, n - 1);
        KeptSkipStep(h, a, removed, m, n);
      }
    }
  }

  /**
   When the apo residues are the holo residues with some deleted and no label
   repeats, the removed set is exactly the deleted residues: the kept holo
   rows are as many as the apo rows and the `j`-th of them carries the label
   of apo row `j`, so every shift compares a residue with itself.
   */
  lemma AlignmentPairsSameResidue(holo: seq<string>, apo: seq<string>)
    requires Distinct(holo) && SubsequenceOf(apo, holo)
    ensures |KeptRows(holo, ResidueDiff(holo, apo), |holo|)| == |apo|
    ensures forall j :: 0 <= j < |apo| ==> holo[KeptRows(holo, ResidueDiff(holo, apo), |holo|)[j]] == apo[j]
  {
    assert apo[..|apo|] == apo;
    KeptRowsFollowSubsequence(holo, apo, ResidueDiff(holo, apo), |apo|, |holo|);
    assert KeptMatch(holo, apo, ResidueDiff(holo, apo), |apo|, |holo|);
  }

  /** The plain and link shift of kept row `j`: holo row `rows[j]` against apo row `j`. */
  predicate ShiftsAt(holo: ResidueCharges, apo: ResidueCharges, rows: seq<nat>, a: Aligned, j: nat)
    requires holo.Parallel() && apo.Parallel()
    requires j < |rows| && j < |a.mull| && j < |a.link| && rows[j] < |holo.labels| && j < |apo.labels|
  {
    a.mull[j] == ChargeShift(holo.labels[rows[j]], holo.totals[rows[j]] - apo.totals[j]) &&
    a.link[j] == ChargeShift(holo.linkLabels[rows[j]], holo.linkTotals[rows[j]] - apo.linkTotals[j])
  }

  /** One kept holo row: its plain and link shifts against apo row `row` join the results. */
  method PairRow(holo: ResidueCharges, apo: ResidueCharges, removed: set<string>, line: nat, row: nat,
                 mull: seq<ChargeShift>, link: seq<ChargeShift>)
    returns (mull': seq<ChargeShift>, link': seq<ChargeShift>)
    requires holo.Parallel() && apo.Parallel()
    requires line < |holo.labels| && holo.labels[line] !in removed
    requires row == |KeptRows(holo.labels, removed, line)| && row < |apo.labels|
    requires |mull| == |link| == row
    requires forall j :: 0 <= j < row ==> ShiftsAt(holo, apo, KeptRows(holo.labels, removed, line), Aligned(mull, link), j)
    ensures |mull'| == |link'| == row + 1
    ensures KeptRows(holo.labels, removed, line + 1) == KeptRows(holo.labels, removed, line) + [line]
    ensures forall j :: 0 <= j < row + 1 ==> ShiftsAt(holo, apo, KeptRows(holo.labels, removed, line) + [line], Aligned(mull', link'), j)
  {
    ghost var rows := KeptRows(holo.labels, removed, line);
    var delta := holo.totals[line] - apo.totals[row];
    var deltaLink := holo.linkTotals[line] - apo.linkTotals[row];
    mull' := mull + [ChargeShift(holo.labels[line], delta)];
    link' := link + [ChargeShift(holo.linkLabels[line], deltaLink)];
    ghost var next := KeptRows(holo.labels, removed, line + 1);
    assert next == rows + [line];
    forall j | 0 <= j < |next|
      ensures ShiftsAt(holo, apo, next, Aligned(mull', link'), j)
    {
      if j < |rows| {
        assert ShiftsAt(holo, apo, rows, Aligned(mull, link), j);
      }
    }
  }

  /**
   The pairing loop of `charge_diff`: a removed holo residue moves every later
   holo row one apo row closer; the `j`-th kept holo row meets apo row `j`, and
   the loop fails when it asks for an apo row past the end.
   */
  method AlignCharges(holo: ResidueCharges, apo: ResidueCharges, removed: set<string>)
    returns (r: Result<Aligned, DiffError>)
    requires holo.Parallel() && apo.Parallel()
    ensures var rows := KeptRows(holo.labels, removed, |holo.labels|);
      r.Ok? <==> |rows| <= |apo.labels|
    ensures var rows := KeptRows(holo.labels, removed, |holo.labels|);
      r.Err? ==> |rows| > |apo.labels| && r.error == ApoRowMissing(rows[|apo.labels|], |apo.labels|)
    ensures var rows := KeptRows(holo.labels, removed, |holo.labels|);
      r.Ok? ==> (|r.value.mull| == |r.value.link| == |rows| &&
        forall j :: 0 <= j < |rows| ==> ShiftsAt(holo, apo, rows, r.value, j))
  {
    var mull, link := [], [];
    var n := 0;
    var line := 0;
    while line < |holo.labels|
      invariant line <= |holo.labels|
      invariant var rows := KeptRows(holo.labels, removed, line);
        line + n == |rows| <= |apo.labels| && |mull| == |link| == |rows|
      invariant var rows := KeptRows(holo.labels, removed, line);
        forall j :: 0 <= j < |rows| ==> ShiftsAt(holo, apo, rows, Aligned(mull, link), j)
    {
      ghost var rows := KeptRows(holo.labels, removed, line);
      var holoLabel := holo.labels[line];
      if holoLabel in removed {
        n := n - 1;
        assert KeptRows(holo.labels, removed, line + 1) == rows;
      } else {
        var row := line + n;
        if row >= |apo.labels| {
          KeptRowsPast(holo.labels, removed, line, |holo.labels|);
          return Err(ApoRowMissing(line, row));
        }
        mull, link := PairRow(holo, apo, removed, line, row, mull, link);
      }
      line := line + 1;
    }
    r := Ok(Aligned(mull, link));
  }

  /** Rows kept later extend the rows kept so far. */
  lemma {:induction false} KeptRowsPast(labels: seq<string>, removed: set<string>, m: nat, n: nat)
    requires m < n <= |labels| && labels[m] !in removed
    ensures var early := KeptRows(labels, removed, m);
      var late := KeptRows(labels, removed, n);
      |early| < |late| && late[..|early|] == early && late[|early|] == m
  {
    if n == m + 1 {
    } else {
      KeptRowsPast(labels, removed, m, n - 1);
      var prev := KeptRows(labels, removed, n - 1);
      var late := KeptRows(labels, removed, n);
      assert late[..|prev|] == prev;
    }
  }

  /** The shifts, among the first `n`, of at least the cutoff, in their original order. */
  function Above(s: seq<ChargeShift>, n: nat): (kept: seq<ChargeShift>)
    requires n <= |s|
    ensures |kept| <= n
  {
    if n == 0 then []
    else Above(s, n - 1) + (if s[n - 1].delta >= Cutoff then [s[n - 1]] else [])
  }

  /** A shift is listed above the cutoff exactly when it is one of the shifts and reaches the cutoff. */
  lemma {:induction false} AboveMembership(s: seq<ChargeShift>, n: nat)
    requires n <= |s|
    ensures forall x :: x in Above(s, n) <==> x in s[..n] && x.delta >= Cutoff
  {
    if n > 0 {
      AboveMembership(s, n - 1);
      assert s[..n] == s[..n - 1] + [s[n - 1]];
    }
  }

  /** Shifts of zero, as for a structure compared with itself, never reach the cutoff. */
  lemma {:induction false} NoShiftNothingAbove(s: seq<ChargeShift>, n: nat)
    requires n <= |s| && forall j :: 0 <= j < n ==> s[j].delta == 0.0
    ensures Above(s, n) == []
  {
    if n > 0 {
      NoShiftNothingAbove(s, n - 1);
    }
  }

  /**
   `charge_diff` without its files: every holo residue not removed is paired
   with an apo row; the all-residue lists take one line per apo row and the
   cutoff lists the shifts of at least `Cutoff`.
   */
  method ChargeDiff(holo: ResidueCharges, apo: ResidueCharges) returns (r: Result<DiffReport, DiffError>)
    requires holo.Parallel() && apo.Parallel()
    ensures var rows := KeptRows(holo.labels, ResidueDiff(holo.labels, apo.labels), |holo.labels|);
      r.Ok? <==> |rows| == |apo.labels|
    ensures var rows := KeptRows(holo.labels, ResidueDiff(holo.labels, apo.labels), |holo.labels|);
      r.Err? ==> if |rows| > |apo.labels|
        then r.error == ApoRowMissing(rows[|apo.labels|], |apo.labels|)
        else r.error == ShiftRowMissing(|rows|)
    ensures var rows := KeptRows(holo.labels, ResidueDiff(holo.labels, apo.labels), |holo.labels|);
      r.Ok? ==> (|r.value.all| == |r.value.allLink| == |rows| &&
        (forall j :: 0 <= j < |rows| ==> ShiftsAt(holo, apo, rows, Aligned(r.value.all, r.value.allLink), j)) &&
        r.value.cutoff == Above(r.value.all, |rows|) && r.value.cutoffLink == Above(r.value.allLink, |rows|))
  {
    var removed := ResidueDiff(holo.labels, apo.labels);
    var aligned := AlignCharges(holo, apo, removed);
    if aligned.Err? {
      return Err(aligned.error);
    }
    var mull, link := aligned.value.mull, aligned.value.link;
    var all, allLink := [], [];
    var res := 0;
    while res < |apo.labels|
      invariant res <= |apo.labels| && res <= |mull|
      invariant all == mull[..res] && allLink == link[..res]
    {
      if res >= |mull| {
        return Err(ShiftRowMissing(res));
      }
      all, allLink := all + [mull[res]], allLink + [link[res]];
      res := res + 1;
    }
    assert all == mull && allLink == link;
    var cutoff, cutoffLink := [], [];
    res := 0;
    while res < |apo.labels|
      invariant res <= |apo.labels|
      invariant cutoff == Above(all, res) && cutoffLink == Above(allLink, res)
    {
      if all[res].delta >= Cutoff {
        cutoff := cutoff + [all[res]];
      }
      if allLink[res].delta >= Cutoff {
        cutoffLink := cutoffLink + [allLink[res]];
      }
      res := res + 1;
    }
    r := Ok(DiffReport(all, allLink, cutoff, cutoffLink));
  }

  /**
   A structure compared with itself: the comparison succeeds, every residue
   keeps its label with a plain and a link shift of zero, and nothing reaches
   the cutoff.
   */
  method DiffOfIdentical(h: ResidueCharges) returns (r: Result<DiffReport, DiffError>)
    requires h.Parallel()
    ensures r.Ok?
    ensures |r.value.all| == |r.value.allLink| == |h.labels|
    ensures forall j :: 0 <= j < |h.labels| ==>
      r.value.all[j] == ChargeShift(h.labels[j], 0.0) && r.value.allLink[j] == ChargeShift(h.linkLabels[j], 0.0)
    ensures r.value.cutoff == [] && r.value.cutoffLink == []
  {
    IdenticalPairsEachRowWithItself(h.labels);
    r := ChargeDiff(h, h);
    ghost var rows := KeptRows(h.labels, ResidueDiff(h.labels, h.labels), |h.labels|);
    forall j | 0 <= j < |h.labels|
      ensures r.value.all[j] == ChargeShift(h.labels[j], 0.0) && r.value.allLink[j] == ChargeShift(h.linkLabels[j], 0.0)
    {
      assert rows[j] == j;
      assert ShiftsAt(h, h, rows, Aligned(r.value.all, r.value.allLink), j);
    }
    NoShiftNothingAbove(r.value.all, |rows|);
    NoShiftNothingAbove(r.value.allLink, |rows|);
  }

  /**
   A ligand removed from the holo structure: `LIG2` is skipped, `WAT1` and
   `ALA3` meet apo rows 0 and 1, and only the shifts of at least 0.05 pass
   the cutoff, separately for the plain and the link-corrected charges.
   */
  method DiffExample() returns (r: Result<DiffReport, DiffError>)
    ensures r == Ok(DiffReport(
      [ChargeShift("WAT1", 0.40 - 0.38), ChargeShift("ALA3", 0.10 - 0.01)],
      [ChargeShift("WAT1", 0.45 - 0.38), ChargeShift("ALA3", 0.10 - 0.01)],
      [ChargeShift("ALA3", 0.10 - 0.01)],
      [ChargeShift("WAT1", 0.45 - 0.38), ChargeShift("ALA3", 0.10 - 0.01)]))
  {
    var labels := ["WAT1", "LIG2", "ALA3"];
    var holo := ResidueCharges(labels, [0.40, -0.30, 0.10], labels, [0.45, -0.30, 0.10]);
    var apo := ResidueCharges(["WAT1", "ALA3"], [0.38, 0.01], ["WAT1", "ALA3"], [0.38, 0.01]);
    assert "WAT1" != "LIG2" && "ALA3" != "LIG2";
    assert ResidueDiff(holo.labels, apo.labels) == {"LIG2"};
    assert KeptRows(labels, {"LIG2"}, 1) == [0];
    assert KeptRows(labels, {"LIG2"}, 2) == [0];
    assert KeptRows(labels, {"LIG2"}, 3) == [0, 2];
    r := ChargeDiff(holo, apo);
    assert r.Ok?;
    var all, allLink := r.value.all, r.value.allLink;
    ghost var rows := [0, 2];
    assert ShiftsAt(holo, apo, rows, Aligned(all, allLink), 0);
    assert ShiftsAt(holo, apo, rows, Aligned(all, allLink), 1);
    assert all == [ChargeShift("WAT1", 0.40 - 0.38), ChargeShift("ALA3", 0.10 - 0.01)];
    assert allLink == [ChargeShift("WAT1", 0.45 - 0.38), ChargeShift("ALA3", 0.10 - 0.01)];
    assert Above(all, 1) == [];
    assert Above(all, 2) == [all[1]];
    assert Above(allLink, 1) == [allLink[0]];
    assert Above(allLink, 2) == [allLink[0], allLink[1]];
  }

  /** The documented scenario: `LIG2` is skipped, the offset resynchronizes at
      `ALA3`, and the negative shift of `ALA3` stays below the signed cutoff. */
  method DocumentedExample() returns (r: Result<DiffReport, DiffError>)
    ensures r.Ok?
    ensures r.value.all == [ChargeShift("WAT1", 0.40 - 0.38), ChargeShift("ALA3", 0.10 - 0.11)]
    ensures r.value.allLink == r.value.all
    ensures r.value.cutoff == [] && r.value.cutoffLink == []
  {
    var labels := ["WAT1", "LIG2", "ALA3"];
    var totals := [0.40, -0.30, 0.10];
    var holo := ResidueCharges(labels, totals, labels, totals);
    var apo := ResidueCharges(["WAT1", "ALA3"], [0.38, 0.11], ["WAT1", "ALA3"], [0.38, 0.11]);
    assert "WAT1" != "LIG2" && "ALA3" != "LIG2";
    assert ResidueDiff(holo.labels, apo.labels) == {"LIG2"};
    assert KeptRows(labels, {"LIG2"}, 1) == [0];
    assert KeptRows(labels, {"LIG2"}, 2) == [0];
    assert KeptRows(labels, {"LIG2"}, 3) == [0, 2];
    r := ChargeDiff(holo, apo);
    assert r.Ok?;
    var all, allLink := r.value.all, r.value.allLink;
    ghost var rows := [0, 2];
    assert ShiftsAt(holo, apo, rows, Aligned(all, allLink), 0);
    assert ShiftsAt(holo, apo, rows, Aligned(all, allLink), 1);
    assert all == [ChargeShift("WAT1", 0.40 - 0.38), ChargeShift("ALA3", 0.10 - 0.11)];
    assert allLink == all;
    assert Above(all, 1) == [];
    assert Above(all, 2) == [];
    assert Above(allLink, 2) == [];
  }
}
