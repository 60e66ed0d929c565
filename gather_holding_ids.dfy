/**
  The holding-ID gathering stage: for every MMS ID of the input list, ask the
  catalogue for the IDs of its holdings and write one pair line per holding.
  The catalogue query is the parameter `lookup`, from a stripped MMS ID to the
  holding IDs its answer lists, in document order.
 */
module GatherHoldingIds {
  import opened Options
  import opened Text
  import opened PairLines

  /** The lines written for one MMS ID: one per holding ID, in list order. */
  function LinesFor(holdingIDs: seq<string>, mmsID: string): (r: seq<string>)
    ensures |r| == |holdingIDs|
    ensures forall j :: 0 <= j < |r| ==> r[j] == PairLine(holdingIDs[j], mmsID)
  {
    if holdingIDs == [] then []
    else LinesFor(holdingIDs[..|holdingIDs| - 1], mmsID) + [PairLine(holdingIDs[|holdingIDs| - 1], mmsID)]
  }

  /** The MMS IDs read from the input lines: each line stripped of its newline and surrounding blanks. */
  function MmsIds(lines: seq<string>): seq<string> {
    seq(|lines|, n requires 0 <= n < |lines| => Strip(lines[n]))
  }

  /** Everything written for the MMS IDs, in input order. */
  function Emitted(mmsIDs: seq<string>, lookup: string -> seq<string>): seq<string> {
    if mmsIDs == [] then []
    else
      var mmsID := mmsIDs[|mmsIDs| - 1];
      Emitted(mmsIDs[..|mmsIDs| - 1], lookup) + LinesFor(lookup(mmsID), mmsID)
  }

  /** The number of holdings found for the MMS IDs: the sum of the list lengths. */
  function HoldingCount(mmsIDs: seq<string>, lookup: string -> seq<string>): nat {
    if mmsIDs == [] then 0
    else HoldingCount(mmsIDs[..|mmsIDs| - 1], lookup) + |lookup(mmsIDs[|mmsIDs| - 1])|
  }

  /**
    The loop of west2_gather_Holding_IDs.py, lines 108-118: the pair lines
    written and the count of input lines read.
   */
  method GatherHoldingIds(lines: seq<string>, lookup: string -> seq<string>)
    returns (out: seq<string>, count: nat)
    ensures out == Emitted(MmsIds(lines), lookup)
    ensures count == |lines|
  {
    ghost var ids := MmsIds(lines);
    out := [];
    count := 0;
    for n := 0 to |lines|
      invariant count == n
      invariant out == Emitted(ids[..n], lookup)
    {
      count := count + 1;
      var mmsID := Strip(lines[n]);
      var holdingIDs := lookup(mmsID);
      ghost var before := out;
      for j := 0 to |holdingIDs|
        invariant out == before + LinesFor(holdingIDs[..j], mmsID)
      {
        LinesForSnoc(holdingIDs, j, mmsID);
        out := out + [PairLine(holdingIDs[j], mmsID)];
      }
      EmittedSnoc(ids, n, lookup);
      assert holdingIDs[..|holdingIDs|] == holdingIDs;
    }
    assert ids[..|lines|] == ids;
  }

  /** The lines for one more holding ID: those for the earlier ones, then its own. */
  lemma LinesForSnoc(holdingIDs: seq<string>, j: nat, mmsID: string)
    requires j < |holdingIDs|
    ensures LinesFor(holdingIDs[..j + 1], mmsID) == LinesFor(holdingIDs[..j], mmsID) + [PairLine(holdingIDs[j], mmsID)]
  {
    assert holdingIDs[..j + 1][..j] == holdingIDs[..j];
  }

  /** The output for one more MMS ID: that for the earlier ones, then the lines for its holdings. */
  lemma EmittedSnoc(ids: seq<string>, n: nat, lookup: string -> seq<string>)
    requires n < |ids|
    ensures Emitted(ids[..n + 1], lookup) == Emitted(ids[..n], lookup) + LinesFor(lookup(ids[n]), ids[n])
  {
    assert ids[..n + 1][..n] == ids[..n];
  }

  /** One line is written per holding found, so the output is as long as the sum of the list lengths. */
  lemma {:induction false} EmittedLength(ids: seq<string>, lookup: string -> seq<string>)
    ensures |Emitted(ids, lookup)| == HoldingCount(ids, lookup)
  {
    if ids != [] {
      EmittedLength(ids[..|ids| - 1], lookup);
    }
  }

  /** The output for two batches of MMS IDs is the output for the first followed by that for the second. */
  lemma {:induction false} EmittedConcat(a: seq<string>, b: seq<string>, lookup: string -> seq<string>)
    ensures Emitted(a + b, lookup) == Emitted(a, lookup) + Emitted(b, lookup)
    ensures HoldingCount(a + b, lookup) == HoldingCount(a, lookup) + HoldingCount(b, lookup)
    decreases |b|
  {
    if b == [] {
      assert a + b == a;
    } else {
      var b' := b[..|b| - 1];
      var mmsID := b[|b| - 1];
      var last := LinesFor(lookup(mmsID), mmsID);
      assert Emitted(a + b, lookup) == Emitted(a + b', lookup) + last
          && HoldingCount(a + b, lookup) == HoldingCount(a + b', lookup) + |lookup(mmsID)| by {
        assert (a + b)[..|a + b| - 1] == a + b';
        assert (a + b)[|a + b| - 1] == b[|b| - 1];
      }
      EmittedConcat(a, b', lookup);
    }
  }

  /** An MMS ID without holdings adds no line. */
  lemma EmptyListEmitsNothing(ids: seq<string>, mmsID: string, lookup: string -> seq<string>)
    requires lookup(mmsID) == []
    ensures Emitted(ids + [mmsID], lookup) == Emitted(ids, lookup)
  {
    assert (ids + [mmsID])[..|ids|] == ids;
  }

  /**
    The line for holding `j` of MMS ID `n` sits after the lines of all
    earlier MMS IDs and after those of the earlier holdings of MMS ID `n`.
   */
  lemma EmittedAt(ids: seq<string>, lookup: string -> seq<string>, n: nat, j: nat)
    requires n < |ids| && j < |lookup(ids[n])|
    ensures HoldingCount(ids[..n], lookup) + j < |Emitted(ids, lookup)|
    ensures Emitted(ids, lookup)[HoldingCount(ids[..n], lookup) + j]
         == PairLine(lookup(ids[n])[j], ids[n])
  {
    var upto := ids[..n + 1];
    assert upto[..n] == ids[..n];
    assert ids == upto + ids[n + 1..];
    EmittedConcat(upto, ids[n + 1..], lookup);
    EmittedLength(ids[..n], lookup);
  }

  /** Every output line is the line of some holding of some MMS ID, at the place `EmittedAt` gives. */
  lemma {:induction false} EmittedOrigin(ids: seq<string>, lookup: string -> seq<string>, k: nat)
    returns (n: nat, j: nat)
    requires k < |Emitted(ids, lookup)|
    ensures n < |ids| && j < |lookup(ids[n])|
    ensures k == HoldingCount(ids[..n], lookup) + j
    ensures Emitted(ids, lookup)[k] == PairLine(lookup(ids[n])[j], ids[n])
  {
    var init := ids[..|ids| - 1];
    EmittedLength(init, lookup);
    if k < |Emitted(init, lookup)| {
      n, j := EmittedOrigin(init, lookup, k);
      assert init[n] == ids[n] && init[..n] == ids[..n];
    } else {
      n, j := |ids| - 1, k - |Emitted(init, lookup)|;
      assert ids[..n] == init;
    }
  }

  /** Every MMS ID, and every holding ID found for it, survives the trip through a pair line. */
  predicate PlainIds(ids: seq<string>, lookup: string -> seq<string>) {
    forall n :: 0 <= n < |ids| ==>
      IsPlainId(ids[n])
      && forall j :: 0 <= j < |lookup(ids[n])| ==> IsPlainId(lookup(ids[n])[j])
  }

  /**
    Reading back the pair lines this stage writes, as the holding-record stage
    does, gives each holding ID with the MMS ID it was found for.
   */
  lemma EmittedLinesParse(ids: seq<string>, lookup: string -> seq<string>, k: nat)
    returns (n: nat, j: nat)
    requires PlainIds(ids, lookup)
    requires k < |Emitted(ids, lookup)|
    ensures n < |ids| && j < |lookup(ids[n])|
    ensures k == HoldingCount(ids[..n], lookup) + j
    ensures ParsePair(Emitted(ids, lookup)[k]) == Some((lookup(ids[n])[j], ids[n]))
  {
    n, j := EmittedOrigin(ids, lookup, k);
    ParsePairLine(lookup(ids[n])[j], ids[n]);
  }
}
