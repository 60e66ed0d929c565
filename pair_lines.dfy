/**
  The pair list that links the two gathering stages: one line per holding,
  `holdingID<TAB>mmsID<NEWLINE>`. The holding-ID stage writes these lines and
  the holding-record stage reads them back.
 */
module PairLines {
  import opened Options
  import opened Text

  /** The line written for one holding of one bibliographic record. */
  function PairLine(holdingID: string, mmsID: string): string {
    holdingID + "\t" + mmsID + "\n"
  }

  /**
    Reading a pair line back: strip the line, split it on tabs, and take the
    first two pieces, each stripped again. A line without a tab once stripped
    has no second piece, on which the holding-record stage raises an index
    error; that is `None` here. Pieces after the second are ignored.
   */
  function ParsePair(line: string): (r: Option<(string, string)>)
    ensures r.None? <==> '\t' !in Strip(line)
    ensures r.Some? ==> IsStripped(r.value.0) && IsStripped(r.value.1)
    ensures r.Some? ==> '\t' !in r.value.0 && '\t' !in r.value.1
  {
    var ids := Split(Strip(line), '\t');
    if |ids| < 2 then None else Some((Strip(ids[0]), Strip(ids[1])))
  }

  /**
    An identifier that survives the trip through a pair line: not empty and
    free of whitespace, so that it neither splits the line nor is trimmed
    (every character the line reader breaks lines at is whitespace to
    `strip()`).
   */
  predicate IsPlainId(s: string) {
    s != [] && forall k :: 0 <= k < |s| ==> !IsSpace(s[k])
  }

  /** Reading back a written pair line gives the same two identifiers. */
  lemma {:induction false} ParsePairLine(holdingID: string, mmsID: string)
    requires IsPlainId(holdingID) && IsPlainId(mmsID)
    ensures ParsePair(PairLine(holdingID, mmsID)) == Some((holdingID, mmsID))
  {
    assert IsStripped(holdingID) && IsStripped(mmsID);
    assert IsSpace('\t') && '\t' !in holdingID && '\t' !in mmsID;
    var body := holdingID + "\t" + mmsID;
    assert PairLine(holdingID, mmsID) == body + "\n";
    assert body[0] == holdingID[0] && body[|body| - 1] == mmsID[|mmsID| - 1];
    StripSurrounded(body, "\n");
    assert Join([holdingID, mmsID], '\t') == body;
    SplitJoin([holdingID, mmsID], '\t');
    StripFixedPoint(holdingID);
    StripFixedPoint(mmsID);
  }

  /** A line that holds no tab at all has no second piece and is rejected. */
  lemma {:induction false} ParsePairRejectsTablessLine(line: string)
    requires '\t' !in line
    ensures ParsePair(line) == None
  {
  }
}
