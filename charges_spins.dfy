/**
 The atom selection and the per-step sums of pyqmmm/extract_charges_spins.py:
 a selection such as `"58-76, 80"` expands into the atom numbers it names,
 and the TeraChem Mulliken tables of a scan, one block of atom rows per scan
 step closed by an `End` row, are summed over the selected atoms block by block.
 */
module ChargesSpins {
  import opened Wrappers
  import opened Text
  import opened Ranges

  // ---------------------------------------------------------------------------
  // The atom selection of `user_input`

  /** `list(map(int, parts))`: `None` when some part is not an integer. */
  function ParseAll(parts: seq<string>): (r: Option<seq<int>>)
    ensures r.Some? ==> |r.value| == |parts|
  {
    if |parts| == 0 then Some([])
    else
      var init := ParseAll(parts[..|parts| - 1]);
      var last := ParseInt(parts[|parts| - 1]);
      if init.None? || last.None? then None else Some(init.value + [last.value])
  }

  /**
   One element of the selection: its `-`-separated numbers, of which the first
   and the last bound the range `range(first, last + 1)`.
   */
  function ExpandElement(element: string): (r: Option<seq<int>>)
    ensures r.None? <==> ParseAll(Split(element, "-")).None?
    ensures r.Some? ==> var ns := ParseAll(Split(element, "-")).value;
      var first, last := ns[0], ns[|ns| - 1];
      |r.value| == (if last < first then 0 else last - first + 1) &&
      (first <= last ==> r.value[0] == first && r.value[|r.value| - 1] == last)
  {
    var numbers := ParseAll(Split(element, "-"));
    if numbers.None? then None
    else
      var first, last := numbers.value[0], numbers.value[|numbers.value| - 1];
      if first <= last then
        RangeIndex(first, last + 1, 0);
        RangeIndex(first, last + 1, last - first);
        Some(Range(first, last + 1))
      else Some(Range(first, last + 1))
  }

  /** The ranges of the elements, concatenated in order; `None` if any element fails. */
  function ExpandElements(elements: seq<string>): (r: Option<seq<int>>)
    ensures r.Some? <==> forall k :: 0 <= k < |elements| ==> ExpandElement(elements[k]).Some?
  {
    if |elements| == 0 then Some([])
    else
      var init := ExpandElements(elements[..|elements| - 1]);
      var last := ExpandElement(elements[|elements| - 1]);
      if init.None? || last.None? then None else Some(init.value + last.value)
  }

  /** `[str(b) for b in xs]`. */
  function Decimals(xs: seq<int>): (ds: seq<string>)
    ensures |ds| == |xs|
  {
    if |xs| == 0 then [] else Decimals(xs[..|xs| - 1]) + [IntToString(xs[|xs| - 1])]
  }

  /** `my_atoms.split(', ')` separates the elements of a selection. */
  const ElementSeparator: string := ", "

  /** The range expansion of `user_input`: the atom numbers, as strings, that the text names. */
  function ExpandSelection(text: string): (r: Option<seq<string>>)
    ensures r.None? <==> exists k :: 0 <= k < |Split(text, ElementSeparator)| && ExpandElement(Split(text, ElementSeparator)[k]).None?
  {
    var atoms := ExpandElements(Split(text, ElementSeparator));
    if atoms.None? then
      assert exists k :: 0 <= k < |Split(text, ElementSeparator)| && ExpandElement(Split(text, ElementSeparator)[k]).None?;
      None
    else Some(Decimals(atoms.value))
  }

  lemma ParseNumeral(a: nat)
    ensures ParseInt(NatToString(a)) == Some(a as int)
  {
    ParseIntToString(a);
    assert IntToString(a) == NatToString(a);
  }

  lemma ParseAllOne(part: string, a: int)
    requires ParseInt(part) == Some(a)
    ensures ParseAll([part]) == Some([a])
  {
    assert [part][..0] == [];
    assert ParseAll([]) == Some([]);
    assert [] + [a] == [a];
  }

  /** `"a-b"` names the atoms `a` to `b`, both included. */
  lemma ExpandRun(a: nat, b: nat)
    ensures ExpandElement(NatToString(a) + "-" + NatToString(b)) == Some(Range(a, b + 1))
  {
    NatToStringLacks(a, '-');
    NatToStringLacks(b, '-');
    SplitLeading(NatToString(a), "-", NatToString(b));
    SplitWhole(NatToString(b), "-");
    ParseNumeral(a);
    ParseNumeral(b);
    var parts := [NatToString(a), NatToString(b)];
    assert Split(NatToString(a) + "-" + NatToString(b), "-") == parts;
    ParseAllOne(NatToString(a), a);
    assert parts[..1] == [NatToString(a)];
    assert ParseAll(parts) == Some([a as int] + [b as int]);
  }

  /** `"a"` names the atom `a` alone. */
  lemma ExpandSingle(a: nat)
    ensures ExpandElement(NatToString(a)) == Some([a as int])
  {
    NatToStringLacks(a, '-');
    SplitWhole(NatToString(a), "-");
    ParseNumeral(a);
    ParseAllOne(NatToString(a), a);
  }

  /** `"a-b"` with `b` below `a` names no atom at all. */
  lemma ExpandBackwards(a: nat, b: nat)
    requires b < a
    ensures ExpandElement(NatToString(a) + "-" + NatToString(b)) == Some([])
  {
    ExpandRun(a, b);
  }

  /** An empty element is `int('')`, a ValueError. */
  lemma ExpandEmptyElement()
    ensures ExpandElement("") == None
  {
    assert Split("", "-") == [""];
    assert ParseAll([""]) == None by {
      assert [""][..0] == [];
    }
  }

  /** Elements free of commas are expanded one by one and their atoms listed in order. */
  lemma ExpandJoined(elements: seq<string>)
    requires |elements| > 0
    requires forall k :: 0 <= k < |elements| ==> Lacks(elements[k], ',')
    ensures ExpandSelection(Join(elements, ", ")) ==
      (var atoms := ExpandElements(elements); if atoms.None? then None else Some(Decimals(atoms.value)))
  {
    SplitJoin(elements, ", ");
  }

  // ---------------------------------------------------------------------------
  // The per-step sums of `get_charges` and `get_spins`

  /**
   What a scan is summed over: the selected atom numbers, the column holding
   the value (2 for charges, 9 for spins), and Python's `float` on a token,
   `None` when it raises.
   */
  datatype Extraction = Extraction(atoms: seq<string>, column: nat, toFloat: string -> Option<real>)

  /** One output record: the number of the scan step and the sum over the selected atoms. */
  datatype StepTotal = StepTotal(step: nat, total: real)

  /** An IndexError on a blank line or a short atom row, or a ValueError on its value. */
  datatype ScanError =
    | EmptyLine(row: nat)
    | MissingColumn(row: nat)
    | NotANumber(row: nat)

  /** `line.split()` of every line of the file. */
  function SplitLines(lines: seq<string>): (table: seq<seq<string>>)
    ensures |table| == |lines|
  {
    seq(|lines|, k requires 0 <= k < |lines| => Tokens(lines[k]))
  }

  /** The error that line `row`, split into `tokens`, raises, if any. */
  function LineError(x: Extraction, tokens: seq<string>, row: nat): (e: Option<ScanError>)
    ensures e.Some? ==> e.value.row == row
  {
    if |tokens| == 0 then Some(EmptyLine(row))
    else if tokens[0] in x.atoms && |tokens| <= x.column then Some(MissingColumn(row))
    else if tokens[0] in x.atoms && x.toFloat(tokens[x.column]).None? then Some(NotANumber(row))
    else None
  }

  /** The lines before `n` raise nothing. */
  predicate Clean(x: Extraction, table: seq<seq<string>>, n: nat)
    requires n <= |table|
  {
    forall k :: 0 <= k < n ==> LineError(x, table[k], k).None?
  }

  /** What a line, split into `tokens`, adds to the running sum: its value when it is a selected atom's row that parses. */
  function LineValue(x: Extraction, tokens: seq<string>): real {
    if |tokens| > x.column && tokens[0] in x.atoms && x.toFloat(tokens[x.column]).Some?
    then x.toFloat(tokens[x.column]).value
    else 0.0
  }

  /** The line split into `tokens` closes a scan step. */
  predicate IsEnd(tokens: seq<string>) {
    |tokens| > 0 && tokens[0] == "End"
  }

  /** The records written so far and the running sum of the open step. */
  datatype Tally = Tally(records: seq<StepTotal>, net: real)

  /** The tally after the first `n` lines. */
  function Scanned(x: Extraction, table: seq<seq<string>>, n: nat): (t: Tally)
    requires n <= |table|
    ensures |t.records| <= n
  {
    if n == 0 then Tally([], 0.0)
    else
      var t := Scanned(x, table, n - 1);
      var net := t.net + LineValue(x, table[n - 1]);
      if IsEnd(table[n - 1]) then Tally(t.records + [StepTotal(|t.records| + 1, net)], 0.0)
      else Tally(t.records, net)
  }

  /** The rows of the `End` lines before line `n`, in order. */
  function EndRows(table: seq<seq<string>>, n: nat): (rows: seq<nat>)
    requires n <= |table|
    ensures forall k :: 0 <= k < |rows| ==> rows[k] < n
  {
    if n == 0 then []
    else EndRows(table, n - 1) + (if IsEnd(table[n - 1]) then [n - 1] else [])
  }

  /** The sum of the values of lines `lo` to `hi - 1`. */
  function BlockSum(x: Extraction, table: seq<seq<string>>, lo: nat, hi: nat): real
    requires hi <= |table|
    decreases hi
  {
    if hi <= lo then 0.0
    else BlockSum(x, table, lo, hi - 1) + LineValue(x, table[hi - 1])
  }

  /** The first line of the step that follows the `End` lines `rows`. */
  function BlockStart(rows: seq<nat>, k: nat): nat
    requires k <= |rows|
  {
    if k == 0 then 0 else rows[k - 1] + 1
  }

  /** One record per `End` line so far, and the open step holds the sum since the last `End`. */
  lemma {:induction false} ScannedOpenStep(x: Extraction, table: seq<seq<string>>, n: nat)
    requires n <= |table|
    ensures |Scanned(x, table, n).records| == |EndRows(table, n)|
    ensures Scanned(x, table, n).net ==
      BlockSum(x, table, BlockStart(EndRows(table, n), |EndRows(table, n)|), n)
  {
    if n > 0 {
      ScannedOpenStep(x, table, n - 1);
      var rows := EndRows(table, n - 1);
      var lo := BlockStart(rows, |rows|);
      if IsEnd(table[n - 1]) {
        assert EndRows(table, n) == rows + [n - 1];
      }
    }
  }

  /**
   The records the `End` lines at `rows` call for: record `k` is step `k + 1`
   and sums the lines from the one after the previous `End` up to its own `End`.
   */
  function Blocks(x: Extraction, table: seq<seq<string>>, rows: seq<nat>): (records: seq<StepTotal>)
    requires forall k :: 0 <= k < |rows| ==> rows[k] < |table|
    ensures |records| == |rows|
  {
    if |rows| == 0 then []
    else
      var k := |rows| - 1;
      Blocks(x, table, rows[..k]) + [StepTotal(k + 1, BlockSum(x, table, BlockStart(rows, k), rows[k] + 1))]
  }

  /** Record `k` of the blocks, spelled out. */
  lemma {:induction false} BlocksIndex(x: Extraction, table: seq<seq<string>>, rows: seq<nat>, k: nat)
    requires forall j :: 0 <= j < |rows| ==> rows[j] < |table|
    requires k < |rows|
    ensures Blocks(x, table, rows)[k] == StepTotal(k + 1, BlockSum(x, table, BlockStart(rows, k), rows[k] + 1))
  {
    var m := |rows| - 1;
    if k < m {
      BlocksIndex(x, table, rows[..m], k);
      BlockStartPrefix(rows, m, k);
    }
  }

  lemma BlockStartPrefix(rows: seq<nat>, m: nat, k: nat)
    requires k <= m <= |rows|
    ensures BlockStart(rows[..m], k) == BlockStart(rows, k)
  {
  }

  /** An `End` line at row `n - 1` adds the record of the block it closes. */
  lemma BlocksAppend(x: Extraction, table: seq<seq<string>>, rows: seq<nat>, n: nat)
    requires 0 < n <= |table| && forall k :: 0 <= k < |rows| ==> rows[k] < n - 1
    ensures Blocks(x, table, rows + [n - 1]) ==
      Blocks(x, table, rows) + [StepTotal(|rows| + 1, BlockSum(x, table, BlockStart(rows, |rows|), n))]
  {
    var rows' := rows + [n - 1];
    assert rows'[..|rows|] == rows;
    BlockStartPrefix(rows', |rows|, |rows|);
  }

  /**
   The loop writes exactly the records the `End` lines call for: one per
   `End` line, numbered from 1, each holding the sum of its own block.
   */
  lemma {:induction false} ScannedRecords(x: Extraction, table: seq<seq<string>>, n: nat)
    requires n <= |table|
    ensures Scanned(x, table, n).records == Blocks(x, table, EndRows(table, n))
  {
    if n > 0 {
      ScannedRecords(x, table, n - 1);
      var rows := EndRows(table, n - 1);
      if IsEnd(table[n - 1]) {
        ScannedOpenStep(x, table, n - 1);
        assert EndRows(table, n) == rows + [n - 1];
        BlocksAppend(x, table, rows, n);
      } else {
        assert EndRows(table, n) == rows;
      }
    }
  }

  /** Lines after the last `End` add nothing to the records. */
  lemma {:induction false} TrailingLinesDropped(x: Extraction, table: seq<seq<string>>, m: nat, n: nat)
    requires m <= n <= |table|
    requires forall k :: m <= k < n ==> !IsEnd(table[k])
    ensures Scanned(x, table, n).records == Scanned(x, table, m).records
  {
    if m < n {
      TrailingLinesDropped(x, table, m, n - 1);
    }
  }

  // ---------------------------------------------------------------------------
  // Reversal

  /** The elements of `s` in the opposite order. */
  function Reversed<T>(s: seq<T>): (r: seq<T>)
    ensures |r| == |s|
  {
    if |s| == 0 then [] else [s[|s| - 1]] + Reversed(s[..|s| - 1])
  }

  /** Element `k` of the reversal is element `|s| - 1 - k` of `s`. */
  lemma {:induction false} ReversedIndex<T>(s: seq<T>, k: nat)
    requires k < |s|
    ensures Reversed(s)[k] == s[|s| - 1 - k]
  {
    if k > 0 {
      ReversedIndex(s[..|s| - 1], k - 1);
    }
  }

  /** Reversing twice gives the list back. */
  lemma ReversedTwice<T>(s: seq<T>)
    ensures Reversed(Reversed(s)) == s
  {
    forall k | 0 <= k < |s|
      ensures Reversed(Reversed(s))[k] == s[k]
    {
      ReversedIndex(Reversed(s), k);
      ReversedIndex(s, |s| - 1 - k);
    }
  }

  /** Python's `list.reverse()`: the array reversed in place. */
  method Reverse<T>(a: array<T>)
    modifies a
    ensures a[..] == Reversed(old(a[..]))
  {
    ghost var s := a[..];
    var i := 0;
    while i < a.Length / 2
      invariant 0 <= i <= a.Length / 2
      invariant forall k :: 0 <= k < i ==> a[k] == s[a.Length - 1 - k] && a[a.Length - 1 - k] == s[k]
      invariant forall k :: i <= k < a.Length - i ==> a[k] == s[k]
    {
      a[i], a[a.Length - 1 - i] := a[a.Length - 1 - i], a[i];
      i := i + 1;
    }
    forall k | 0 <= k < a.Length
      ensures a[k] == Reversed(s)[k]
    {
      ReversedIndex(s, k);
    }
  }

  // ---------------------------------------------------------------------------
  // The loops

  /**
   The loop of `get_charges` and `get_spins`: each line's first token selects
   its value into the running sum, each `End` line writes a record and resets
   the sum; a non-empty answer to the reverse prompt reverses the records.
   */
  method SumBlocks(x: Extraction, lines: seq<string>, answer: string) returns (r: Result<seq<StepTotal>, ScanError>)
    ensures r.Ok? <==> Clean(x, SplitLines(lines), |lines|)
    ensures r.Err? ==>
      (r.error.row < |lines| && Clean(x, SplitLines(lines), r.error.row) &&
       LineError(x, Tokens(lines[r.error.row]), r.error.row) == Some(r.error))
    ensures r.Ok? ==>
      (Clean(x, SplitLines(lines), |lines|) &&
       var records := Scanned(x, SplitLines(lines), |lines|).records;
       r.value == if |answer| > 0 then Reversed(records) else records)
  {
    ghost var table := SplitLines(lines);
    var records: seq<StepTotal> := [];
    var net: real := 0.0;
    var stepCount: nat := 0;
    var row := 0;
    while row < |lines|
      invariant row <= |lines| && Clean(x, table, row)
      invariant Scanned(x, table, row) == Tally(records, net)
      invariant stepCount == |records|
    {
      var tokens := Tokens(lines[row]);
      assert tokens == table[row];
      ghost var net0 := net;
      if |tokens| == 0 {
        return Err(EmptyLine(row));
      }
      if tokens[0] in x.atoms {
        if |tokens| <= x.column {
          return Err(MissingColumn(row));
        }
        var value := x.toFloat(tokens[x.column]);
        if value.None? {
          return Err(NotANumber(row));
        }
        net := net + value.value;
      }
      assert LineError(x, tokens, row).None? && net == net0 + LineValue(x, tokens);
      assert Clean(x, table, row + 1);
      if tokens[0] == "End" {
        stepCount := stepCount + 1;
        records := records + [StepTotal(stepCount, net)];
        net := 0.0;
      }
      row := row + 1;
    }
    records := ReverseOnRequest(records, answer);
    r := Ok(records);
  }

  /** `if reverse: net.reverse()`, where `reverse` is the answer typed at the prompt. */
  method ReverseOnRequest(records: seq<StepTotal>, answer: string) returns (out: seq<StepTotal>)
    ensures out == if |answer| > 0 then Reversed(records) else records
  {
    out := records;
    if |answer| > 0 {
      var a := new StepTotal[|records|](k requires 0 <= k < |records| => records[k]);
      assert a[..] == records;
      Reverse(a);
      out := a[..];
    }
  }

  /** `get_charges`: the sums of column 2, the Mulliken charges. */
  method GetCharges(atoms: seq<string>, lines: seq<string>, toFloat: string -> Option<real>, answer: string)
    returns (r: Result<seq<StepTotal>, ScanError>)
    ensures r.Ok? <==> Clean(Extraction(atoms, 2, toFloat), SplitLines(lines), |lines|)
    ensures r.Err? ==>
      (r.error.row < |lines| && Clean(Extraction(atoms, 2, toFloat), SplitLines(lines), r.error.row) &&
       LineError(Extraction(atoms, 2, toFloat), Tokens(lines[r.error.row]), r.error.row) == Some(r.error))
    ensures r.Ok? ==>
      (Clean(Extraction(atoms, 2, toFloat), SplitLines(lines), |lines|) &&
       var records := Scanned(Extraction(atoms, 2, toFloat), SplitLines(lines), |lines|).records;
       r.value == if |answer| > 0 then Reversed(records) else records)
  {
    r := SumBlocks(Extraction(atoms, 2, toFloat), lines, answer);
  }

  /** `get_spins`: the sums of column 9, the Mulliken spin densities. */
  method GetSpins(atoms: seq<string>, lines: seq<string>, toFloat: string -> Option<real>, answer: string)
    returns (r: Result<seq<StepTotal>, ScanError>)
    ensures r.Ok? <==> Clean(Extraction(atoms, 9, toFloat), SplitLines(lines), |lines|)
    ensures r.Err? ==>
      (r.error.row < |lines| && Clean(Extraction(atoms, 9, toFloat), SplitLines(lines), r.error.row) &&
       LineError(Extraction(atoms, 9, toFloat), Tokens(lines[r.error.row]), r.error.row) == Some(r.error))
    ensures r.Ok? ==>
      (Clean(Extraction(atoms, 9, toFloat), SplitLines(lines), |lines|) &&
       var records := Scanned(Extraction(atoms, 9, toFloat), SplitLines(lines), |lines|).records;
       r.value == if |answer| > 0 then Reversed(records) else records)
  {
    r := SumBlocks(Extraction(atoms, 9, toFloat), lines, answer);
  }
}
