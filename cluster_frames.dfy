/**
 The frame selection of pyqmmm/scripts/cluster_frame_indexer.py: the frames
 CPPTraj assigned to the main cluster (cluster 0) are read from the two-column
 `cnumvtime.dat` table and condensed into CPPTraj's interval notation, runs of
 consecutive frames written `first-last` and the pieces joined with `", "`.
 */
module ClusterFrames {
  import opened Wrappers
  import opened Text
  import opened Ranges

  /** A data line of `cnumvtime.dat`: a frame index and the cluster it was assigned to. */
  datatype Assignment = Assignment(frame: int, cluster: int)

  /** The ways `get_clusters` fails: `next` on an empty file, an IndexError or a ValueError on a line. */
  datatype ClusterError =
    | EmptyFile
    | MissingField(row: nat, column: nat)
    | NotAnInteger(row: nat, column: nat)

  /** `int(line.split()[0])` and `int(line.split()[1])`, in that order, for line `row` of the file. */
  function ParseAssignment(line: string, row: nat): (r: Result<Assignment, ClusterError>)
    ensures r.Err? ==> !r.error.EmptyFile? && r.error.row == row
  {
    var fields := Tokens(line);
    if |fields| == 0 then Err(MissingField(row, 0))
    else if ParseInt(fields[0]).None? then Err(NotAnInteger(row, 0))
    else if |fields| == 1 then Err(MissingField(row, 1))
    else if ParseInt(fields[1]).None? then Err(NotAnInteger(row, 1))
    else Ok(Assignment(ParseInt(fields[0]).value, ParseInt(fields[1]).value))
  }

  /** Every data line before line `n` (the first line is a header) parses. */
  predicate AllParse(lines: seq<string>, n: nat)
    requires n <= |lines|
  {
    forall k :: 1 <= k < n ==> ParseAssignment(lines[k], k).Ok?
  }

  /** The frames of the data lines before line `n` that belong to cluster 0, in file order. */
  function MainCluster(lines: seq<string>, n: nat): (frames: seq<int>)
    requires 1 <= n <= |lines| && AllParse(lines, n)
    ensures |frames| < n
  {
    if n == 1 then []
    else
      var a := ParseAssignment(lines[n - 1], n - 1).value;
      MainCluster(lines, n - 1) + (if a.cluster == 0 then [a.frame] else [])
  }

  /** A frame is selected exactly when some data line assigns it to cluster 0. */
  lemma {:induction false} MainClusterMembership(lines: seq<string>, n: nat, x: int)
    requires 1 <= n <= |lines| && AllParse(lines, n)
    ensures x in MainCluster(lines, n) <==>
      exists k :: 1 <= k < n && ParseAssignment(lines[k], k) == Ok(Assignment(x, 0))
  {
    if n > 1 {
      MainClusterMembership(lines, n - 1, x);
      var a := ParseAssignment(lines[n - 1], n - 1);
      if a == Ok(Assignment(x, 0)) {
        assert x in MainCluster(lines, n);
      }
    }
  }

  /**
   `get_clusters` on the lines of the file: the header line is skipped, every
   other line must carry two integers, and the frames of cluster 0 are kept
   in file order.
   */
  method GetClusters(lines: seq<string>) returns (r: Result<seq<int>, ClusterError>)
    ensures r == Err(EmptyFile) <==> |lines| == 0
    ensures |lines| > 0 ==> (r.Ok? <==> AllParse(lines, |lines|))
    ensures r.Ok? ==> |lines| > 0 && r.value == MainCluster(lines, |lines|)
    ensures r.Err? && |lines| > 0 ==>
      (!r.error.EmptyFile? && 1 <= r.error.row < |lines| && AllParse(lines, r.error.row) &&
       ParseAssignment(lines[r.error.row], r.error.row) == Err(r.error))
  {
    if |lines| == 0 {
      return Err(EmptyFile);
    }
    var frames := [];
    var k := 1;
    while k < |lines|
      invariant 1 <= k <= |lines| && AllParse(lines, k)
      invariant frames == MainCluster(lines, k)
    {
      var a := ParseAssignment(lines[k], k);
      if a.Err? {
        return Err(a.error);
      }
      if a.value.cluster == 0 {
        frames := frames + [a.value.frame];
      }
      k := k + 1;
    }
    r := Ok(frames);
  }

  // ---------------------------------------------------------------------------
  // Interval notation

  /** A run of consecutive frames from `first` to `last`, both included. */
  datatype Run = Run(first: int, last: int)

  /** The runs after one more frame `x`, which extends the last run or starts a new one. */
  function Grow(rs: seq<Run>, extend: bool, x: int): (grown: seq<Run>)
    requires |rs| > 0
    ensures |grown| > 0 && grown[|grown| - 1].last == x
  {
    if extend then rs[..|rs| - 1] + [Run(rs[|rs| - 1].first, x)] else rs + [Run(x, x)]
  }

  /**
   The runs of the first `n` frames: a frame one above its predecessor extends
   the current run, any other frame starts a new one.
   */
  function Runs(l: seq<int>, n: nat): (rs: seq<Run>)
    requires n <= |l|
    ensures |rs| <= n
    ensures n > 0 ==> |rs| > 0 && rs[|rs| - 1].last == l[n - 1] && rs[|rs| - 1].first <= rs[|rs| - 1].last
  {
    if n == 0 then []
    else if n == 1 then [Run(l[0], l[0])]
    else Grow(Runs(l, n - 1), l[n - 2] + 1 == l[n - 1], l[n - 1])
  }

  /** The frames the runs stand for, run after run. */
  function Expand(rs: seq<Run>): seq<int> {
    if |rs| == 0 then [] else Expand(rs[..|rs| - 1]) + Range(rs[|rs| - 1].first, rs[|rs| - 1].last + 1)
  }

  lemma ExpandAppend(rs: seq<Run>, r: Run)
    ensures Expand(rs + [r]) == Expand(rs) + Range(r.first, r.last + 1)
  {
    assert (rs + [r])[..|rs|] == rs;
  }

  /** Growing the runs by a frame adds exactly that frame to what they stand for. */
  lemma ExpandGrow(rs: seq<Run>, extend: bool, x: int)
    requires |rs| > 0 && rs[|rs| - 1].first <= rs[|rs| - 1].last
    requires extend ==> x == rs[|rs| - 1].last + 1
    ensures Expand(Grow(rs, extend, x)) == Expand(rs) + [x]
  {
    if extend {
      ExpandExtend(rs, x);
    } else {
      ExpandAppend(rs, Run(x, x));
      assert Range(x, x + 1) == [x];
    }
  }

  lemma ExpandExtend(rs: seq<Run>, x: int)
    requires |rs| > 0 && rs[|rs| - 1].first <= rs[|rs| - 1].last && x == rs[|rs| - 1].last + 1
    ensures Expand(rs[..|rs| - 1] + [Run(rs[|rs| - 1].first, x)]) == Expand(rs) + [x]
  {
    var init := rs[..|rs| - 1];
    var cur := rs[|rs| - 1];
    ExpandAppend(init, Run(cur.first, x));
    assert Range(cur.first, x + 1) == Range(cur.first, cur.last + 1) + [x];
    assert Expand(rs) == Expand(init) + Range(cur.first, cur.last + 1);
  }

  lemma RunsExpandStep(l: seq<int>, n: nat)
    requires 1 < n <= |l| && Expand(Runs(l, n - 1)) == l[..n - 1]
    ensures Expand(Runs(l, n)) == l[..n]
  {
    var prev := Runs(l, n - 1);
    var extend := l[n - 2] + 1 == l[n - 1];
    calc {
      Expand(Runs(l, n));
      Expand(Grow(prev, extend, l[n - 1]));
      { ExpandGrow(prev, extend, l[n - 1]); }
      Expand(prev) + [l[n - 1]];
      l[..n - 1] + [l[n - 1]];
      { assert l[..n] == l[..n - 1] + [l[n - 1]]; }
      l[..n];
    }
  }

  /** The runs stand for exactly the frames they were built from, in order. */
  lemma {:induction false} RunsExpandToFrames(l: seq<int>, n: nat)
    requires n <= |l|
    ensures Expand(Runs(l, n)) == l[..n]
  {
    if n == 1 {
      ExpandAppend([], Run(l[0], l[0]));
    } else if n > 1 {
      RunsExpandToFrames(l, n - 1);
      RunsExpandStep(l, n);
    }
  }

  /** Neighbouring runs do not touch, so no run could have been longer. */
  lemma {:induction false} RunsAreMaximal(l: seq<int>, n: nat)
    requires n <= |l|
    ensures forall k :: 0 <= k < |Runs(l, n)| - 1 ==> Runs(l, n)[k].last + 1 != Runs(l, n)[k + 1].first
  {
    if n > 1 {
      RunsAreMaximal(l, n - 1);
    }
  }

  /** The number of places before frame `n` where a frame is not one above its predecessor. */
  function Breaks(l: seq<int>, n: nat): nat
    requires n <= |l|
  {
    if n <= 1 then 0 else Breaks(l, n - 1) + (if l[n - 2] + 1 == l[n - 1] then 0 else 1)
  }

  /** One run to start with and one more at every break. */
  lemma {:induction false} RunCount(l: seq<int>, n: nat)
    requires 0 < n <= |l|
    ensures |Runs(l, n)| == 1 + Breaks(l, n)
  {
    if n > 1 {
      RunCount(l, n - 1);
    }
  }

  /** The frames of the docstring example of `condense_numbering`. */
  const ExampleFrames: seq<int> := [1, 2, 3, 6, 7, 8, 9, 10]

  lemma ExampleFirstRun()
    ensures Runs(ExampleFrames, 3) == [Run(1, 3)]
  {
    assert Runs(ExampleFrames, 2) == [Run(1, 2)];
  }

  lemma ExampleSecondRunOpens()
    ensures Runs(ExampleFrames, 5) == [Run(1, 3), Run(6, 7)]
  {
    ExampleFirstRun();
    assert Runs(ExampleFrames, 4) == [Run(1, 3), Run(6, 6)];
  }

  /** The example frames form the runs 1-3 and 6-10. */
  lemma ExampleRuns()
    ensures Runs(ExampleFrames, 8) == [Run(1, 3), Run(6, 10)]
  {
    ExampleSecondRunOpens();
    assert Runs(ExampleFrames, 6) == [Run(1, 3), Run(6, 8)];
    assert Runs(ExampleFrames, 7) == [Run(1, 3), Run(6, 9)];
  }

  lemma ExamplePieces()
    ensures Pieces([Run(1, 3), Run(6, 10)]) == ["1-3", "6-10"]
  {
    assert Piece(Run(1, 3)) == "1-3";
    assert NatToString(10) == NatToString(1) + ['0'];
    assert Piece(Run(6, 10)) == "6-10";
  }

  lemma ExampleJoin()
    ensures Join(["1-3", "6-10"], ", ") == "1-3, 6-10"
  {
    assert Join(["1-3", "6-10"], ", ") == "1-3" + ", " + Join(["6-10"], ", ");
    assert Join(["6-10"], ", ") == "6-10";
  }

  /**
   The docstring example, as the code returns it: `"1-3, 6-10"`, a plain string
   of pieces joined with `", "` (the docstring shows `[1-3,6-10]`).
   */
  lemma CondenseExample()
    ensures Join(Pieces(Runs(ExampleFrames, |ExampleFrames|)), ", ") == "1-3, 6-10"
  {
    assert |ExampleFrames| == 8;
    ExampleRuns();
    ExamplePieces();
    ExampleJoin();
  }

  /** `str(first) + "-" + str(last)` for a run of two or more frames, `str(first)` otherwise. */
  function Piece(r: Run): (p: string)
    ensures |p| > 0 && Lacks(p, ',')
  {
    IntToStringLacks(r.first, ',');
    IntToStringLacks(r.last, ',');
    if r.first < r.last then IntToString(r.first) + "-" + IntToString(r.last) else IntToString(r.first)
  }

  function Pieces(rs: seq<Run>): (ps: seq<string>)
    ensures |ps| == |rs|
  {
    if |rs| == 0 then [] else Pieces(rs[..|rs| - 1]) + [Piece(rs[|rs| - 1])]
  }

  /** The text of the run held in `current`, a consecutive stretch of frames. */
  method RunText(current: seq<int>) returns (piece: string)
    requires |current| > 0 && |current| == current[|current| - 1] - current[0] + 1
    ensures piece == Piece(Run(current[0], current[|current| - 1]))
  {
    if |current| > 1 {
      piece := IntToString(current[0]) + "-" + IntToString(current[|current| - 1]);
    } else {
      piece := IntToString(current[0]);
    }
  }

  /**
   After `index` frames of `l`: `current` holds the open run, `last` the latest
   frame, and `final` the pieces of the runs already closed.
   */
  ghost predicate Condensing(l: seq<int>, index: nat, current: seq<int>, last: int, final: seq<string>)
    requires 0 < index <= |l|
  {
    var rs := Runs(l, index);
    var cur := rs[|rs| - 1];
    last == l[index - 1] && |current| == cur.last - cur.first + 1 &&
    current[0] == cur.first && current[|current| - 1] == cur.last &&
    final == Pieces(rs[..|rs| - 1])
  }

  /** The first frame opens the first run. */
  lemma CondensingStart(l: seq<int>)
    requires 0 < |l|
    ensures Condensing(l, 1, [l[0]], l[0], [])
  {
  }

  /** A frame one above the latest extends the open run. */
  lemma CondensingExtend(l: seq<int>, index: nat, current: seq<int>, last: int, final: seq<string>)
    requires 0 < index < |l| && Condensing(l, index, current, last, final) && last + 1 == l[index]
    ensures Condensing(l, index + 1, current + [l[index]], l[index], final)
  {
    var rs := Runs(l, index);
    var next := Runs(l, index + 1);
    var current' := current + [l[index]];
    assert next == rs[..|rs| - 1] + [Run(rs[|rs| - 1].first, l[index])];
    assert next[..|next| - 1] == rs[..|rs| - 1];
    assert next[|next| - 1] == Run(rs[|rs| - 1].first, l[index]);
    assert current'[0] == current[0] && current'[|current'| - 1] == l[index];
  }

  /** Any other frame closes the open run, whose piece joins the closed ones, and opens a new run. */
  lemma CondensingBreak(l: seq<int>, index: nat, current: seq<int>, last: int, final: seq<string>)
    requires 0 < index < |l| && Condensing(l, index, current, last, final) && last + 1 != l[index]
    ensures Condensing(l, index + 1, [l[index]], l[index], final + [Piece(Run(current[0], current[|current| - 1]))])
  {
    var rs := Runs(l, index);
    var next := Runs(l, index + 1);
    assert next == rs + [Run(l[index], l[index])];
    assert next[..|next| - 1] == rs;
    assert rs[|rs| - 1] == Run(current[0], current[|current| - 1]);
    assert Pieces(rs) == Pieces(rs[..|rs| - 1]) + [Piece(rs[|rs| - 1])];
  }

  /** After the last frame, closing the open run gives the pieces of all runs. */
  lemma CondensingClose(l: seq<int>, current: seq<int>, last: int, final: seq<string>)
    requires 0 < |l| && Condensing(l, |l|, current, last, final)
    ensures final + [Piece(Run(current[0], current[|current| - 1]))] == Pieces(Runs(l, |l|))
  {
  }

  /**
   The first half of the loop body of `condense_numbering`: frame `index`
   extends the open run when it is one above the latest frame (or is the
   first frame), and otherwise closes the open run into a piece and opens a
   new one.
   */
  method Advance(l: seq<int>, index: nat, current: seq<int>, last: int, final: seq<string>)
    returns (current': seq<int>, last': int, final': seq<string>)
    requires index < |l|
    requires index > 0 ==> Condensing(l, index, current, last, final)
    requires index == 0 ==> final == [] && current == []
    ensures Condensing(l, index + 1, current', last', final')
  {
    var val := l[index];
    if last + 1 == val || index == 0 {
      if index > 0 {
        CondensingExtend(l, index, current, last, final);
      } else {
        CondensingStart(l);
      }
      current' := current + [val];
      last' := val;
      final' := final;
    } else {
      var piece := RunText(current);
      CondensingBreak(l, index, current, last, final);
      final' := final + [piece];
      current' := [val];
      last' := val;
    }
  }

  /**
   `condense_numbering`: the frames grouped into runs, each run written as a
   piece, and the pieces joined with `", "`; no frames give `""`.
   */
  method CondenseNumbering(l: seq<int>) returns (s: string)
    ensures s == Join(Pieces(Runs(l, |l|)), ", ")
  {
    var current: seq<int> := [];
    var final: seq<string> := [];
    var last := 0;
    var index := 0;
    while index < |l|
      invariant index <= |l|
      invariant 0 < index < |l| ==> Condensing(l, index, current, last, final)
      invariant index == |l| ==> final == Pieces(Runs(l, |l|))
      invariant index == 0 ==> final == [] && current == []
    {
      current, last, final := Advance(l, index, current, last, final);
      if index == |l| - 1 {
        var piece := RunText(current);
        CondensingClose(l, current, last, final);
        final := final + [piece];
      }
      index := index + 1;
    }
    s := Join(final, ", ");
  }
}
