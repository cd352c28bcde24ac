/**
 The interval notation written by `condense_numbering`
 (pyqmmm/scripts/cluster_frame_indexer.py) read back with the range expansion
 of `user_input` (pyqmmm/extract_charges_spins.py): for frames that are not
 negative, the expansion gives back every frame, in order, as its numeral.
 */
module SelectionRoundTrip {
  import opened Wrappers
  import opened Text
  import opened Ranges
  import opened ClusterFrames
  import opened ChargesSpins

  /** Every run starts at a frame that is not negative and ends no earlier than it starts. */
  predicate Ordered(rs: seq<Run>) {
    forall k :: 0 <= k < |rs| ==> 0 <= rs[k].first <= rs[k].last
  }

  /** Runs of frames that are not negative are ordered. */
  lemma {:induction false} RunsOrdered(l: seq<int>, n: nat)
    requires n <= |l| && forall k :: 0 <= k < |l| ==> l[k] >= 0
    ensures Ordered(Runs(l, n))
  {
    if n > 1 {
      RunsOrdered(l, n - 1);
      var prev := Runs(l, n - 1);
      var cur := prev[|prev| - 1];
      if l[n - 2] + 1 == l[n - 1] {
        assert Runs(l, n) == prev[..|prev| - 1] + [Run(cur.first, l[n - 1])];
      } else {
        assert Runs(l, n) == prev + [Run(l[n - 1], l[n - 1])];
      }
    }
  }

  /** The piece of an ordered run is read back as the run's frames. */
  lemma ExpandPiece(r: Run)
    requires 0 <= r.first <= r.last
    ensures ExpandElement(Piece(r)) == Some(Range(r.first, r.last + 1))
    ensures Lacks(Piece(r), ',')
  {
    NatToStringLacks(r.first, ',');
    NatToStringLacks(r.last, ',');
    assert IntToString(r.first) == NatToString(r.first);
    assert IntToString(r.last) == NatToString(r.last);
    if r.first < r.last {
      ExpandRun(r.first, r.last);
    } else {
      ExpandSingle(r.first);
      assert Range(r.first, r.last + 1) == [r.first];
    }
  }

  /** The pieces of ordered runs are read back as the frames the runs stand for. */
  lemma {:induction false} ExpandPieces(rs: seq<Run>)
    requires Ordered(rs)
    ensures ExpandElements(Pieces(rs)) == Some(Expand(rs))
    ensures forall k :: 0 <= k < |rs| ==> Lacks(Pieces(rs)[k], ',')
  {
    if |rs| > 0 {
      var init := rs[..|rs| - 1];
      ExpandPieces(init);
      ExpandPiece(rs[|rs| - 1]);
      assert Pieces(rs)[..|rs| - 1] == Pieces(init);
    }
  }

  /**
   Condensing frames that are not negative and expanding the result gives the
   frames back, in order, as the strings `str(frame)`.
   */
  lemma RoundTrip(l: seq<int>)
    requires |l| > 0 && forall k :: 0 <= k < |l| ==> l[k] >= 0
    ensures ExpandSelection(Join(Pieces(Runs(l, |l|)), ", ")) == Some(Decimals(l))
  {
    var rs := Runs(l, |l|);
    RunsOrdered(l, |l|);
    ExpandPieces(rs);
    RunsExpandToFrames(l, |l|);
    assert l[..|l|] == l;
    ExpandJoined(Pieces(rs));
  }

  /** No frames condense to `""`, which the expansion rejects: `int('')` raises. */
  lemma EmptyRoundTrip()
    ensures ExpandSelection(Join(Pieces(Runs([], 0)), ", ")) == None
  {
    ExpandEmptyElement();
    assert Split("", ", ") == [""];
    assert [""][..0] == [];
  }
}
