/**
 The mask builder of the charge shift analysis (`mask_maker` in
 pyqmmm/quick_csa.py): it copies the structure (PDB) lines that are `ATOM`
 records of a requested residue, skipping `TER` lines and stopping at the
 first line that starts with `END`.
 */
module MaskBuilder {
  import opened Text

  /** The residue index column of a structure line: `line[22:28].strip()`. */
  function ResidueField(line: string): (f: string)
    ensures |f| <= 6
    ensures |f| > 0 ==> !IsSpace(f[0]) && !IsSpace(f[|f| - 1])
  {
    Strip(Slice(line, 22, 28))
  }

  /** `line[:4] == 'ATOM'`. */
  predicate IsAtomRecord(line: string): (b: bool)
    ensures b ==> !("TER" <= line) && !("END" <= line)
  {
    var b := "ATOM" <= line;
    assert b ==> line[0] == 'A';
    b
  }

  /** `line[:3] == 'TER'`, a chain break. */
  predicate IsChainBreak(line: string): (b: bool)
    ensures b ==> !("ATOM" <= line) && !("END" <= line)
  {
    var b := "TER" <= line;
    assert b ==> line[0] == 'T';
    b
  }

  /** `line[:3] == 'END'`, which also matches `ENDMDL`. */
  predicate IsEndRecord(line: string): (b: bool)
    ensures b ==> !("ATOM" <= line) && !("TER" <= line)
  {
    var b := "END" <= line;
    assert b ==> line[0] == 'E';
    b
  }

  /** A line the mask keeps: an `ATOM` record whose residue index was requested. */
  predicate InMask(line: string, mask: seq<string>) {
    IsAtomRecord(line) && ResidueField(line) in mask
  }

  /** The position of the first `END` line, or the number of lines when there is none. */
  function FirstEnd(lines: seq<string>): (k: nat)
    ensures k <= |lines|
    ensures forall i :: 0 <= i < k ==> !IsEndRecord(lines[i])
    ensures k < |lines| ==> IsEndRecord(lines[k])
  {
    if |lines| == 0 then 0
    else if IsEndRecord(lines[0]) then 0
    else 1 + FirstEnd(lines[1..])
  }

  /** The lines of `lines` that the mask keeps, in file order. */
  function Kept(mask: seq<string>, lines: seq<string>): (kept: seq<string>)
    ensures |kept| <= |lines|
  {
    if |lines| == 0 then []
    else
      var last := lines[|lines| - 1];
      Kept(mask, lines[..|lines| - 1]) + (if InMask(last, mask) then [last] else [])
  }

  /** Scanning one more line keeps it or not. */
  lemma KeptStep(mask: seq<string>, lines: seq<string>, i: nat)
    requires i < |lines|
    ensures Kept(mask, lines[..i + 1]) ==
            Kept(mask, lines[..i]) + (if InMask(lines[i], mask) then [lines[i]] else [])
  {
    assert lines[..i + 1][..i] == lines[..i];
  }

  /** A line is kept exactly when it is present and in the mask. */
  lemma {:induction false} KeptMembership(mask: seq<string>, lines: seq<string>, line: string)
    ensures line in Kept(mask, lines) <==> line in lines && InMask(line, mask)
  {
    if |lines| > 0 {
      var p := lines[..|lines| - 1];
      KeptMembership(mask, p, line);
      assert lines == p + [lines[|lines| - 1]];
    }
  }

  /** Filtering follows file order: a split file is filtered piece by piece. */
  lemma {:induction false} KeptAppend(mask: seq<string>, a: seq<string>, b: seq<string>)
    ensures Kept(mask, a + b) == Kept(mask, a) + Kept(mask, b)
    decreases |b|
  {
    if |b| == 0 {
      assert a + b == a;
    } else {
      var b' := b[..|b| - 1];
      assert (a + b)[..|a + b| - 1] == a + b';
      assert (a + b)[|a + b| - 1] == b[|b| - 1];
      KeptAppend(mask, a, b');
    }
  }

  /** The mask never holds a chain break or an `END` line. */
  lemma KeptAreAtoms(mask: seq<string>, lines: seq<string>)
    ensures forall line :: line in Kept(mask, lines) ==>
              InMask(line, mask) && !IsChainBreak(line) && !IsEndRecord(line)
  {
    forall line | line in Kept(mask, lines)
      ensures InMask(line, mask) && !IsChainBreak(line) && !IsEndRecord(line)
    {
      KeptMembership(mask, lines, line);
      assert line[0] == 'A';
    }
  }

  /** What a finished mask scan knows about its two lists. */
  lemma MaskFacts(mask: seq<string>, scanned: seq<string>, kept: seq<string>, residues: seq<string>)
    requires kept == Kept(mask, scanned)
    requires |residues| == |kept|
    requires forall k :: 0 <= k < |kept| ==> residues[k] == ResidueField(kept[k])
    ensures forall line :: line in kept <==> line in scanned && InMask(line, mask)
    ensures forall k :: 0 <= k < |kept| ==> !IsChainBreak(kept[k]) && !IsEndRecord(kept[k])
    ensures forall k :: 0 <= k < |kept| ==> residues[k] in mask
  {
    KeptAreAtoms(mask, scanned);
    forall line ensures line in kept <==> line in scanned && InMask(line, mask) {
      KeptMembership(mask, scanned, line);
    }
  }

  /**
   One iteration of the `mask_maker` loop on line `i`: an `ATOM` line of a
   requested residue is written and its residue recorded, a `TER` line is
   passed over, and an `END` line stops the scan.
   */
  method ScanLine(mask: seq<string>, pdb: seq<string>, i: nat, kept: seq<string>, residues: seq<string>)
    returns (stop: bool, kept': seq<string>, residues': seq<string>)
    requires i < |pdb| && i <= FirstEnd(pdb)
    requires kept == Kept(mask, pdb[..i]) && |residues| == |kept|
    requires forall k :: 0 <= k < |kept| ==> residues[k] == ResidueField(kept[k])
    ensures stop <==> i == FirstEnd(pdb)
    ensures stop ==> kept' == kept && residues' == residues
    ensures !stop ==> kept' == Kept(mask, pdb[..i + 1])
    ensures |residues'| == |kept'|
    ensures forall k :: 0 <= k < |kept'| ==> residues'[k] == ResidueField(kept'[k])
  {
    stop, kept', residues' := false, kept, residues;
    var line := pdb[i];
    var resIndex := ResidueField(line);
    KeptStep(mask, pdb, i);
    if IsAtomRecord(line) && resIndex in mask {
      assert line[0] == 'A';
      kept' := kept + [line];
      residues' := residues + [resIndex];
      return;
    }
    if IsChainBreak(line) {
      assert line[0] == 'T';
      return;
    }
    if IsEndRecord(line) {
      stop := true;
    }
  }

  /**
   `mask_maker` without its files: `kept` is what it writes to the mask file,
   `residues` is `res_type_array`, and `count` the number of residues it reports.
   */
  method MakeMask(mask: seq<string>, pdb: seq<string>)
    returns (kept: seq<string>, residues: seq<string>, count: nat)
    ensures kept == Kept(mask, pdb[..FirstEnd(pdb)])
    ensures forall line :: line in kept <==> line in pdb[..FirstEnd(pdb)] && InMask(line, mask)
    ensures forall k :: 0 <= k < |kept| ==> !IsChainBreak(kept[k]) && !IsEndRecord(kept[k])
    ensures |residues| == |kept|
    ensures forall k :: 0 <= k < |kept| ==> residues[k] == ResidueField(kept[k]) && residues[k] in mask
    ensures count == |set r | r in residues|
  {
    kept, residues := [], [];
    var i := 0;
    while i < |pdb|
      invariant i <= FirstEnd(pdb)
      invariant kept == Kept(mask, pdb[..i])
      invariant |residues| == |kept|
      invariant forall k :: 0 <= k < |kept| ==> residues[k] == ResidueField(kept[k])
    {
      var stop;
      stop, kept, residues := ScanLine(mask, pdb, i, kept, residues);
      if stop {
        break;
      }
      i := i + 1;
    }
    assert i == FirstEnd(pdb);
    count := |set r | r in residues|;
    MaskFacts(mask, pdb[..i], kept, residues);
  }
}
