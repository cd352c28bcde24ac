/**
 The residue charge aggregator of the charge shift analysis
 (`collect_charges` in pyqmmm/quick_csa.py). It walks the mask atoms, opens a
 residue bucket whenever the residue index rises above the last opened one,
 adds each atom's charge (taken by position from the charge table) to the
 plain and the link-corrected totals, and then adds a link atom's charge to
 the link-corrected total of the residue that follows it.

 The specification functions take a count `n` and describe the first `n`
 atoms (or link atoms), which is what the loops have seen after `n` steps.
 */
module ChargeAggregator {
  import opened Wrappers
  import opened Text

  /** A line of a mask or link-atom file: token 3 is the residue name, token 4 its index. */
  datatype MaskAtom = MaskAtom(resName: string, resIndex: int)

  /**
   The four parallel lists the aggregator builds: `res_list`, `tot_charge`,
   `res_list_link` and `tot_charge_link`.
   */
  datatype ResidueCharges = ResidueCharges(
    labels: seq<string>, totals: seq<real>, linkLabels: seq<string>, linkTotals: seq<real>)
  {
    predicate Parallel() {
      |labels| == |totals| == |linkLabels| == |linkTotals|
    }
  }

  /** The ways the Python code raises an IndexError. */
  datatype AggregateError =
    | ChargeRowMissing(row: nat)                 // `mull_charges[index]` past the table
    | NoOpenResidue(atom: nat)                   // `tot_charge[-1]` while no residue is open
    | LinkChargeRowMissing(link: nat, row: nat)  // `mull_charges[curr_link_index]` past the table

  /** `res_name + str(res_index)`. */
  function Label(name: string, index: int): (l: string)
    ensures name <= l && |l| > |name|
  {
    name + IntToString(index)
  }

  /** `sum` over a list of charges, added up from the left. */
  function Sum(s: seq<real>): real {
    if |s| == 0 then 0.0 else Sum(s[..|s| - 1]) + s[|s| - 1]
  }

  lemma SumAppend(s: seq<real>, x: real)
    ensures Sum(s + [x]) == Sum(s) + x
  {
    assert (s + [x])[..|s|] == s;
  }

  lemma SumBumpLast(s: seq<real>, x: real)
    requires |s| > 0
    ensures Sum(s[|s| - 1 := s[|s| - 1] + x]) == Sum(s) + x
  {
    var t := s[|s| - 1 := s[|s| - 1] + x];
    assert t[..|t| - 1] == s[..|s| - 1];
  }

  lemma SumOfPrefix(s: seq<real>, n: nat)
    requires 0 < n <= |s|
    ensures Sum(s[..n]) == Sum(s[..n - 1]) + s[n - 1]
  {
    assert s[..n][..n - 1] == s[..n - 1];
  }

  // ---------------------------------------------------------------------------
  // Main pass

  /** `prev_res_index` after `n` atoms: it starts at 0 and only ever rises. */
  function Peak(atoms: seq<MaskAtom>, n: nat): (p: int)
    requires n <= |atoms|
    ensures p >= 0
  {
    if n == 0 then 0
    else
      var p := Peak(atoms, n - 1);
      if atoms[n - 1].resIndex > p then atoms[n - 1].resIndex else p
  }

  /** Atom `i` opens a new residue: `res_index > prev_res_index`. */
  predicate Opens(atoms: seq<MaskAtom>, i: nat)
    requires i < |atoms|
  {
    atoms[i].resIndex > Peak(atoms, i)
  }

  /** The number of residues the first `n` atoms open. */
  function Opened(atoms: seq<MaskAtom>, n: nat): (count: nat)
    requires n <= |atoms|
    ensures count <= n
  {
    if n == 0 then 0 else Opened(atoms, n - 1) + (if Opens(atoms, n - 1) then 1 else 0)
  }

  /** The labels of the residues the first `n` atoms open, in the order they open. */
  function Labels(atoms: seq<MaskAtom>, n: nat): (labels: seq<string>)
    requires n <= |atoms|
    ensures |labels| == Opened(atoms, n)
  {
    if n == 0 then []
    else
      var a := atoms[n - 1];
      Labels(atoms, n - 1) + (if Opens(atoms, n - 1) then [Label(a.resName, a.resIndex)] else [])
  }

  /** The atoms that open the residues, in the order they open them. */
  function Openings(atoms: seq<MaskAtom>, n: nat): (os: seq<MaskAtom>)
    requires n <= |atoms|
    ensures |os| == Opened(atoms, n)
  {
    if n == 0 then [] else Openings(atoms, n - 1) + (if Opens(atoms, n - 1) then [atoms[n - 1]] else [])
  }

  /** Label `k` is `res_name + str(res_index)` of the `k`-th opening atom. */
  lemma {:induction false} LabelsOfOpenings(atoms: seq<MaskAtom>, n: nat, k: nat)
    requires n <= |atoms| && k < Opened(atoms, n)
    ensures Labels(atoms, n)[k] == Label(Openings(atoms, n)[k].resName, Openings(atoms, n)[k].resIndex)
  {
    if k < Opened(atoms, n - 1) {
      LabelsOfOpenings(atoms, n - 1, k);
    }
  }

  /**
   The opening atoms are atoms of the mask, with positive indices no higher
   than `prev_res_index`, strictly rising from one residue to the next.
   */
  lemma {:induction false} OpeningsIncrease(atoms: seq<MaskAtom>, n: nat)
    requires n <= |atoms|
    ensures forall k :: 0 <= k < |Openings(atoms, n)| ==>
      Openings(atoms, n)[k] in atoms && 0 < Openings(atoms, n)[k].resIndex <= Peak(atoms, n)
    ensures forall j, k :: 0 <= j < k < |Openings(atoms, n)| ==>
      Openings(atoms, n)[j].resIndex < Openings(atoms, n)[k].resIndex
  {
    if n > 0 {
      OpeningsIncrease(atoms, n - 1);
    }
  }

  /** No label occurs twice. */
  predicate Distinct(s: seq<string>) {
    forall i, j :: 0 <= i < j < |s| ==> s[i] != s[j]
  }

  /**
   When no residue name holds a digit, `res_list` never repeats a label:
   each opening raises the index, and a digit-free name and its index can be
   read back from the label.
   */
  lemma LabelsDistinct(atoms: seq<MaskAtom>)
    requires forall i :: 0 <= i < |atoms| ==> NoDigit(atoms[i].resName)
    ensures Distinct(Labels(atoms, |atoms|))
  {
    var n := |atoms|;
    var os := Openings(atoms, n);
    OpeningsIncrease(atoms, n);
    forall j, k | 0 <= j < k < |Labels(atoms, n)|
      ensures Labels(atoms, n)[j] != Labels(atoms, n)[k]
    {
      LabelsOfOpenings(atoms, n, j);
      LabelsOfOpenings(atoms, n, k);
      var a, b := os[j], os[k];
      assert Label(a.resName, a.resIndex) == a.resName + NatToString(a.resIndex);
      assert Label(b.resName, b.resIndex) == b.resName + NatToString(b.resIndex);
      NameNumeralInjective(a.resName, b.resName, a.resIndex, b.resIndex);
    }
  }

  /** The first atom opens a residue, so `tot_charge[-1]` never meets an empty list. */
  predicate Startable(atoms: seq<MaskAtom>) {
    |atoms| == 0 || atoms[0].resIndex > 0
  }

  /**
   The per-residue totals of the first `n` atoms, atom `i` carrying `charges[i]`
   (an atom that finds no bucket open is where the main pass fails).
   */
  function Totals(atoms: seq<MaskAtom>, charges: seq<real>, n: nat): (t: seq<real>)
    requires n <= |atoms| && n <= |charges|
    ensures |t| == Opened(atoms, n)
    ensures n > 0 && Startable(atoms) ==> |t| > 0
  {
    if n == 0 then []
    else
      var t0 := if Opens(atoms, n - 1) then Totals(atoms, charges, n - 1) + [0.0] else Totals(atoms, charges, n - 1);
      if |t0| == 0 then t0 else t0[|t0| - 1 := t0[|t0| - 1] + charges[n - 1]]
  }

  /** The error the main pass meets first, if any. */
  function MainPassError(atoms: seq<MaskAtom>, charges: seq<real>): (e: Option<AggregateError>)
    ensures e.None? <==> |atoms| <= |charges| && Startable(atoms)
    ensures e.Some? && e.value.ChargeRowMissing? ==> e.value.row == |charges| < |atoms|
    ensures e.Some? && e.value.NoOpenResidue? ==> e.value.atom == 0 < |charges| && !Startable(atoms)
    ensures e.Some? ==> e.value.ChargeRowMissing? || e.value.NoOpenResidue?
  {
    if |atoms| == 0 then None
    else if |charges| == 0 then Some(ChargeRowMissing(0))
    else if atoms[0].resIndex <= 0 then Some(NoOpenResidue(0))
    else if |charges| < |atoms| then Some(ChargeRowMissing(|charges|))
    else None
  }

  /** Charge conservation: the residue totals add up to the charges of the first `n` atoms. */
  lemma {:induction false} TotalsConserveCharge(atoms: seq<MaskAtom>, charges: seq<real>, n: nat)
    requires n <= |atoms| && n <= |charges| && Startable(atoms)
    ensures Sum(Totals(atoms, charges, n)) == Sum(charges[..n])
  {
    if n > 0 {
      TotalsConserveCharge(atoms, charges, n - 1);
      var tp := Totals(atoms, charges, n - 1);
      var t0 := if Opens(atoms, n - 1) then tp + [0.0] else tp;
      SumBumpLast(t0, charges[n - 1]);
      if Opens(atoms, n - 1) {
        SumAppend(tp, 0.0);
      }
      SumOfPrefix(charges, n);
    }
  }

  /** The bucket atom `i` is added to: the last residue opened so far. */
  function Owner(atoms: seq<MaskAtom>, i: nat): int
    requires i < |atoms|
  {
    Opened(atoms, i + 1) - 1
  }

  /** The sum of the charges of those of the first `n` atoms whose bucket is `b`. */
  function OwnedCharge(atoms: seq<MaskAtom>, charges: seq<real>, b: int, n: nat): real
    requires n <= |atoms| && n <= |charges|
  {
    if n == 0 then 0.0
    else OwnedCharge(atoms, charges, b, n - 1) + (if Owner(atoms, n - 1) == b then charges[n - 1] else 0.0)
  }

  lemma {:induction false} OwnedChargeBeyond(atoms: seq<MaskAtom>, charges: seq<real>, b: int, n: nat)
    requires n <= |atoms| && n <= |charges| && b >= Opened(atoms, n)
    ensures OwnedCharge(atoms, charges, b, n) == 0.0
  {
    if n > 0 {
      OwnedChargeBeyond(atoms, charges, b, n - 1);
    }
  }

  /** Each residue total is exactly the sum of the charges of the atoms in its bucket. */
  lemma {:induction false} TotalsAreOwnedCharges(atoms: seq<MaskAtom>, charges: seq<real>, b: nat, n: nat)
    requires n <= |atoms| && n <= |charges| && Startable(atoms) && b < Opened(atoms, n)
    ensures Totals(atoms, charges, n)[b] == OwnedCharge(atoms, charges, b, n)
  {
    var last := Opened(atoms, n) - 1;
    if Opens(atoms, n - 1) && b == last {
      OwnedChargeBeyond(atoms, charges, b, n - 1);
    } else {
      TotalsAreOwnedCharges(atoms, charges, b, n - 1);
    }
  }

  /** The residue indices never fall from one atom to the next. */
  predicate NonDecreasing(atoms: seq<MaskAtom>) {
    forall i, j :: 0 <= i < j < |atoms| ==> atoms[i].resIndex <= atoms[j].resIndex
  }

  /** The number of positions `i < n`, `i > 0`, where the residue index differs from the one before. */
  function IndexChanges(atoms: seq<MaskAtom>, n: nat): nat
    requires n <= |atoms|
  {
    if n <= 1 then 0
    else IndexChanges(atoms, n - 1) + (if atoms[n - 1].resIndex != atoms[n - 2].resIndex then 1 else 0)
  }

  lemma {:induction false} PeakIsLastIndex(atoms: seq<MaskAtom>, n: nat)
    requires 0 < n <= |atoms| && Startable(atoms) && NonDecreasing(atoms)
    ensures Peak(atoms, n) == atoms[n - 1].resIndex
  {
    if n > 1 {
      PeakIsLastIndex(atoms, n - 1);
    }
  }

  /**
   For non-decreasing positive indices there is one residue per run of equal
   indices: one for the first atom and one more at every change of index.
   */
  lemma {:induction false} OneResiduePerRun(atoms: seq<MaskAtom>, n: nat)
    requires 0 < n <= |atoms| && Startable(atoms) && NonDecreasing(atoms)
    ensures |Labels(atoms, n)| == 1 + IndexChanges(atoms, n)
  {
    if n > 1 {
      OneResiduePerRun(atoms, n - 1);
      PeakIsLastIndex(atoms, n - 1);
    }
  }

  /**
   The first half of the main loop's body: atom `i` opens a bucket, in the
   plain and in the link-corrected lists, when its residue index rises above
   `prev_res_index`.
   */
  method OpenBucket(atoms: seq<MaskAtom>, i: nat, prev: int, labels: seq<string>, totals: seq<real>,
                    linkLabels: seq<string>, linkTotals: seq<real>)
    returns (prev': int, labels': seq<string>, totals': seq<real>, linkLabels': seq<string>, linkTotals': seq<real>)
    requires i < |atoms| && prev == Peak(atoms, i) && labels == Labels(atoms, i)
    ensures prev' == Peak(atoms, i + 1) && labels' == Labels(atoms, i + 1)
    ensures totals' == if Opens(atoms, i) then totals + [0.0] else totals
    ensures linkLabels' == if Opens(atoms, i) then linkLabels + [labels'[|labels'| - 1]] else linkLabels
    ensures linkTotals' == if Opens(atoms, i) then linkTotals + [0.0] else linkTotals
  {
    prev', labels', totals', linkLabels', linkTotals' := prev, labels, totals, linkLabels, linkTotals;
    var atom := atoms[i];
    if atom.resIndex > prev {
      var resLabel := Label(atom.resName, atom.resIndex);
      labels', linkLabels' := labels + [resLabel], linkLabels + [resLabel];
      totals', linkTotals' := totals + [0.0], linkTotals + [0.0];
      prev' := atom.resIndex;
    } else {
      assert Labels(atoms, i + 1) == Labels(atoms, i);
    }
  }

  /** The second half of one main-pass step: atom `i`'s charge goes to the last open bucket. */
  method AddCharge(atoms: seq<MaskAtom>, charges: seq<real>, i: nat, ghost before: seq<real>, totals: seq<real>, linkTotals: seq<real>)
    returns (totals': seq<real>, linkTotals': seq<real>)
    requires i < |atoms| && i < |charges| && before == Totals(atoms, charges, i)
    requires totals == (if Opens(atoms, i) then before + [0.0] else before)
    requires |totals| > 0 && linkTotals == totals
    ensures totals' == Totals(atoms, charges, i + 1) && linkTotals' == totals'
  {
    var charge := charges[i];
    var last := |totals| - 1;
    totals' := totals[last := totals[last] + charge];
    linkTotals' := linkTotals[last := linkTotals[last] + charge];
  }

  /**
   The main pass of `collect_charges`: one bucket per rise of the residue
   index, each atom's charge added to its bucket in both totals.
   */
  method MainPass(atoms: seq<MaskAtom>, charges: seq<real>) returns (r: Result<ResidueCharges, AggregateError>)
    ensures r.Err? <==> MainPassError(atoms, charges).Some?
    ensures r.Err? ==> r.error == MainPassError(atoms, charges).value
    ensures r.Ok? ==> (Startable(atoms) && |atoms| <= |charges| &&
      var n := |atoms|;
      r.value == ResidueCharges(Labels(atoms, n), Totals(atoms, charges, n), Labels(atoms, n), Totals(atoms, charges, n)))
  {
    var prev := 0;
    var labels, totals, linkLabels, linkTotals := [], [], [], [];
    var i := 0;
    while i < |atoms|
      invariant i <= |atoms| && i <= |charges|
      invariant i > 0 ==> Startable(atoms)
      invariant prev == Peak(atoms, i)
      invariant labels == Labels(atoms, i) && linkLabels == labels
      invariant totals == Totals(atoms, charges, i)
      invariant linkTotals == totals
    {
      ghost var before := totals;
      prev, labels, totals, linkLabels, linkTotals := OpenBucket(atoms, i, prev, labels, totals, linkLabels, linkTotals);
      if i >= |charges| {
        return Err(ChargeRowMissing(i));
      }
      if |totals| == 0 {
        return Err(NoOpenResidue(i));
      }
      assert Startable(atoms);
      totals, linkTotals := AddCharge(atoms, charges, i, before, totals, linkTotals);
      i := i + 1;
    }
    r := Ok(ResidueCharges(labels, totals, linkLabels, linkTotals));
  }

  // ---------------------------------------------------------------------------
  // Link pass

  /** The label of the residue after a link atom's own: `res_name + str(res_index + 1)`. */
  function NextLabel(link: MaskAtom): (l: string)
    ensures link.resName <= l && |l| > |link.resName|
  {
    Label(link.resName, link.resIndex + 1)
  }

  /**
   `x in labels` followed by `labels.index(x)`: the first position holding
   `x`, or `None` when `x` is absent.
   */
  function IndexOf(labels: seq<string>, x: string): (r: Option<nat>)
    ensures r.Some? ==> r.value < |labels| && labels[r.value] == x
  {
    if |labels| == 0 then None
    else if labels[0] == x then Some(0)
    else
      var rest := IndexOf(labels[1..], x);
      if rest.Some? then Some(rest.value + 1) else None
  }

  /** The position is found exactly when `x` occurs, and no earlier position holds `x`. */
  lemma {:induction false} IndexOfIsFirst(labels: seq<string>, x: string)
    ensures IndexOf(labels, x).None? <==> x !in labels
    ensures IndexOf(labels, x).Some? ==> forall j :: 0 <= j < IndexOf(labels, x).value ==> labels[j] != x
  {
    if |labels| > 0 && labels[0] != x {
      IndexOfIsFirst(labels[1..], x);
      assert labels == [labels[0]] + labels[1..];
    }
  }

  /** The residue a link atom corrects, if its next-residue label is present. */
  function Target(labels: seq<string>, link: MaskAtom): (t: Option<nat>)
    ensures t.Some? ==> t.value < |labels|
  {
    IndexOf(labels, NextLabel(link))
  }

  /** The residue each link atom corrects, in link-file order. */
  function Targets(labels: seq<string>, links: seq<MaskAtom>): (ts: seq<Option<nat>>)
    ensures |ts| == |links|
  {
    if |links| == 0 then [] else Targets(labels, links[..|links| - 1]) + [Target(labels, links[|links| - 1])]
  }

  lemma {:induction false} TargetsIndex(labels: seq<string>, links: seq<MaskAtom>, j: nat)
    requires j < |links|
    ensures Targets(labels, links)[j] == Target(labels, links[j])
  {
    if j < |links| - 1 {
      TargetsIndex(labels, links[..|links| - 1], j);
    }
  }

  /** One step of the link pass: build the next-residue label of link atom `j` and look it up. */
  method LookUpTarget(labels: seq<string>, links: seq<MaskAtom>, j: nat) returns (t: Option<nat>)
    requires j < |links|
    ensures t == Targets(labels, links)[j]
    ensures t.Some? ==> t.value < |labels|
  {
    var combo := NextLabel(links[j]);
    t := IndexOf(labels, combo);
    IndexOfIsFirst(labels, combo);
    TargetsIndex(labels, links, j);
  }

  /**
   The charge row of a link atom that corrects residue `k`,
   `k + len(mask_atoms) - 1`, is a row of the table.
   */
  predicate RowPresent(t: Option<nat>, atomCount: nat, charges: seq<real>) {
    t.Some? ==> t.value < atomCount && t.value + atomCount - 1 < |charges|
  }

  /** The first `n` link atoms all find their charge row. */
  predicate RowsPresent(ts: seq<Option<nat>>, atomCount: nat, charges: seq<real>, n: nat)
    requires n <= |ts|
  {
    forall j :: 0 <= j < n ==> RowPresent(ts[j], atomCount, charges)
  }

  /** The number of the first `n` link atoms that correct residue `k`. */
  function Hits(ts: seq<Option<nat>>, k: nat, n: nat): nat
    requires n <= |ts|
  {
    if n == 0 then 0 else Hits(ts, k, n - 1) + (if ts[n - 1] == Some(k) then 1 else 0)
  }

  /** The link charges the first `n` link atoms add to residue `k`, one table row each. */
  function LinkShare(ts: seq<Option<nat>>, atomCount: nat, charges: seq<real>, k: nat, n: nat): real
    requires n <= |ts| && RowsPresent(ts, atomCount, charges, n)
  {
    if n == 0 then 0.0
    else LinkShare(ts, atomCount, charges, k, n - 1) + (if ts[n - 1] == Some(k) then charges[k + atomCount - 1] else 0.0)
  }

  /** `n` copies of `c` added up. */
  function Repeat(n: nat, c: real): real {
    if n == 0 then 0.0 else Repeat(n - 1, c) + c
  }

  lemma {:induction false} RepeatIsProduct(n: nat, c: real)
    ensures Repeat(n, c) == (n as real) * c
  {
    if n > 0 {
      RepeatIsProduct(n - 1, c);
      assert (n as real) * c == ((n - 1) as real) * c + c;
    }
  }

  lemma {:induction false} ZeroHitsNoShare(ts: seq<Option<nat>>, atomCount: nat, charges: seq<real>, k: nat, n: nat)
    requires n <= |ts| && RowsPresent(ts, atomCount, charges, n) && Hits(ts, k, n) == 0
    ensures LinkShare(ts, atomCount, charges, k, n) == 0.0
  {
    if n > 0 {
      ZeroHitsNoShare(ts, atomCount, charges, k, n - 1);
    }
  }

  lemma {:induction false} LinkShareRepeatsRow(ts: seq<Option<nat>>, atomCount: nat, charges: seq<real>, k: nat, n: nat)
    requires n <= |ts| && RowsPresent(ts, atomCount, charges, n) && Hits(ts, k, n) > 0
    ensures k < atomCount && k + atomCount - 1 < |charges|
    ensures LinkShare(ts, atomCount, charges, k, n) == Repeat(Hits(ts, k, n), charges[k + atomCount - 1])
  {
    assert RowPresent(ts[n - 1], atomCount, charges);
    if Hits(ts, k, n - 1) == 0 {
      ZeroHitsNoShare(ts, atomCount, charges, k, n - 1);
    } else {
      LinkShareRepeatsRow(ts, atomCount, charges, k, n - 1);
    }
  }

  /**
   Every link atom that corrects residue `k` adds the same row, so the share
   is that row's charge times the number of such link atoms.
   */
  lemma LinkShareIsHitsTimesRow(ts: seq<Option<nat>>, atomCount: nat, charges: seq<real>, k: nat)
    requires RowsPresent(ts, atomCount, charges, |ts|) && Hits(ts, k, |ts|) > 0
    ensures k < atomCount && k + atomCount - 1 < |charges|
    ensures LinkShare(ts, atomCount, charges, k, |ts|) == (Hits(ts, k, |ts|) as real) * charges[k + atomCount - 1]
  {
    LinkShareRepeatsRow(ts, atomCount, charges, k, |ts|);
    RepeatIsProduct(Hits(ts, k, |ts|), charges[k + atomCount - 1]);
  }

  /** `tot_charge_link` after the first `n` link atoms, starting from `base`. */
  function LinkTotalsAfter(ts: seq<Option<nat>>, atomCount: nat, charges: seq<real>, base: seq<real>, n: nat): (lt: seq<real>)
    requires n <= |ts| && RowsPresent(ts, atomCount, charges, n)
    ensures |lt| == |base|
  {
    if n == 0 then base
    else
      var prev := LinkTotalsAfter(ts, atomCount, charges, base, n - 1);
      var t := ts[n - 1];
      assert RowPresent(t, atomCount, charges);
      if t.Some? && t.value < |prev| then prev[t.value := prev[t.value] + charges[t.value + atomCount - 1]] else prev
  }

  /** `res_list_link` after the first `n` link atoms, starting from `base`. */
  function LinkLabelsAfter(ts: seq<Option<nat>>, labels: seq<string>, base: seq<string>, n: nat): (ll: seq<string>)
    requires n <= |ts| && |base| == |labels|
    ensures |ll| == |base|
  {
    if n == 0 then base
    else
      var prev := LinkLabelsAfter(ts, labels, base, n - 1);
      var t := ts[n - 1];
      if t.Some? && t.value < |prev| then prev[t.value := labels[t.value] + "*"] else prev
  }

  lemma LinkTotalsAfterHit(ts: seq<Option<nat>>, atomCount: nat, charges: seq<real>, base: seq<real>, n: nat, k: nat)
    requires n < |ts| && RowsPresent(ts, atomCount, charges, n + 1) && ts[n] == Some(k) && k < |base|
    ensures RowsPresent(ts, atomCount, charges, n) && k + atomCount - 1 < |charges|
    ensures var prev := LinkTotalsAfter(ts, atomCount, charges, base, n);
      LinkTotalsAfter(ts, atomCount, charges, base, n + 1) == prev[k := prev[k] + charges[k + atomCount - 1]]
  {
    assert RowPresent(ts[n], atomCount, charges);
    assert RowsPresent(ts, atomCount, charges, n);
  }

  /** Each residue's link total is its plain start plus the link charges aimed at it. */
  lemma {:induction false} LinkTotalsAfterAddsShare(ts: seq<Option<nat>>, atomCount: nat, charges: seq<real>, base: seq<real>, n: nat, k: nat)
    requires n <= |ts| && RowsPresent(ts, atomCount, charges, n) && k < |base|
    ensures LinkTotalsAfter(ts, atomCount, charges, base, n)[k] == base[k] + LinkShare(ts, atomCount, charges, k, n)
  {
    if n > 0 {
      LinkTotalsAfterAddsShare(ts, atomCount, charges, base, n - 1, k);
    }
  }

  /** A residue's link label is starred exactly when some link atom is aimed at it. */
  lemma {:induction false} LinkLabelsAfterMarksHits(ts: seq<Option<nat>>, labels: seq<string>, base: seq<string>, n: nat, k: nat)
    requires n <= |ts| && |base| == |labels| && k < |base|
    ensures LinkLabelsAfter(ts, labels, base, n)[k] == if Hits(ts, k, n) > 0 then labels[k] + "*" else base[k]
  {
    if n > 0 {
      LinkLabelsAfterMarksHits(ts, labels, base, n - 1, k);
    }
  }

  /**
   The link pass of `collect_charges`: each link atom whose next-residue label
   is present adds its row's charge to that residue's link-corrected total and
   marks its link label with `*`; `res_list` and `tot_charge` stay as they were.
   */
  method LinkPass(base: ResidueCharges, links: seq<MaskAtom>, atomCount: nat, charges: seq<real>)
    returns (r: Result<ResidueCharges, AggregateError>)
    requires base.Parallel() && |base.labels| <= atomCount
    ensures var ts := Targets(base.labels, links);
      r.Ok? <==> RowsPresent(ts, atomCount, charges, |ts|)
    ensures r.Err? ==> (var ts := Targets(base.labels, links);
      r.error.LinkChargeRowMissing? && r.error.link < |links| &&
      RowsPresent(ts, atomCount, charges, r.error.link) &&
      !RowPresent(ts[r.error.link], atomCount, charges) &&
      r.error.row == ts[r.error.link].value + atomCount - 1)
    ensures r.Ok? ==> var ts := Targets(base.labels, links);
      r.value == ResidueCharges(base.labels, base.totals,
        LinkLabelsAfter(ts, base.labels, base.linkLabels, |ts|),
        LinkTotalsAfter(ts, atomCount, charges, base.linkTotals, |ts|))
  {
    var linkLabels, linkTotals := base.linkLabels, base.linkTotals;
    ghost var ts := Targets(base.labels, links);
    var j := 0;
    while j < |links|
      invariant j <= |links|
      invariant RowsPresent(ts, atomCount, charges, j)
      invariant linkTotals == LinkTotalsAfter(ts, atomCount, charges, base.linkTotals, j)
      invariant linkLabels == LinkLabelsAfter(ts, base.labels, base.linkLabels, j)
    {
      var target := LookUpTarget(base.labels, links, j);
      if target.Some? {
        var k := target.value;
        var row := k + atomCount - 1;
        if row >= |charges| {
          assert !RowPresent(ts[j], atomCount, charges);
          return Err(LinkChargeRowMissing(j, row));
        }
        assert RowsPresent(ts, atomCount, charges, j + 1);
        LinkTotalsAfterHit(ts, atomCount, charges, base.linkTotals, j, k);
        linkTotals := linkTotals[k := linkTotals[k] + charges[row]];
        linkLabels := linkLabels[k := base.labels[k] + "*"];
      } else {
        assert RowsPresent(ts, atomCount, charges, j + 1);
      }
      j := j + 1;
    }
    assert j == |ts|;
    r := Ok(ResidueCharges(base.labels, base.totals, linkLabels, linkTotals));
  }

  /**
   `collect_charges` without its files: the mask atoms, the link atoms and the
   charge column of the charge table come in; the four lists come out.
   */
  method CollectCharges(atoms: seq<MaskAtom>, links: seq<MaskAtom>, charges: seq<real>)
    returns (r: Result<ResidueCharges, AggregateError>)
    ensures MainPassError(atoms, charges).Some? ==> r == Err(MainPassError(atoms, charges).value)
    ensures MainPassError(atoms, charges).None? ==>
      var ts := Targets(Labels(atoms, |atoms|), links);
      (r.Ok? <==> RowsPresent(ts, |atoms|, charges, |ts|))
    ensures r.Ok? ==> Startable(atoms) && |atoms| <= |charges|
    ensures r.Ok? ==> (r.value.Parallel() &&
      r.value.labels == Labels(atoms, |atoms|) && r.value.totals == Totals(atoms, charges, |atoms|))
    ensures r.Ok? ==> Sum(r.value.totals) == Sum(charges[..|atoms|])
    ensures r.Ok? ==> var ts := Targets(r.value.labels, links);
      forall k :: 0 <= k < |r.value.labels| ==>
        r.value.linkTotals[k] == r.value.totals[k] + LinkShare(ts, |atoms|, charges, k, |ts|) &&
        r.value.linkLabels[k] == if Hits(ts, k, |ts|) > 0 then r.value.labels[k] + "*" else r.value.labels[k]
  {
    var main := MainPass(atoms, charges);
    if main.Err? {
      return main;
    }
    TotalsConserveCharge(atoms, charges, |atoms|);
    r := LinkPass(main.value, links, |atoms|, charges);
    if r.Ok? {
      var ts := Targets(r.value.labels, links);
      forall k | 0 <= k < |r.value.labels|
        ensures r.value.linkTotals[k] == r.value.totals[k] + LinkShare(ts, |atoms|, charges, k, |ts|)
        ensures r.value.linkLabels[k] == if Hits(ts, k, |ts|) > 0 then r.value.labels[k] + "*" else r.value.labels[k]
      {
        LinkTotalsAfterAddsShare(ts, |atoms|, charges, main.value.linkTotals, |ts|, k);
        LinkLabelsAfterMarksHits(ts, main.value.labels, main.value.linkLabels, |ts|, k);
      }
    }
  }
}
