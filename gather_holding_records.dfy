/**
  The holding-record gathering stage: for every pair line, read the holding
  and MMS IDs, fetch that holding's record and normalise its 001 and 004
  fields. The catalogue fetch is the parameter `fetch`, from an MMS ID and a
  holding ID to the children of the `record` element the catalogue returns.
 */
module GatherHoldingRecords {
  import opened Options
  import opened Text
  import opened PairLines
  import opened MarcRecord
  import opened Normalization
  import opened NormalizationProperties
  import opened GatherHoldingIds

  /**
    What one pair line turns into; `None` where the holding-record stage
    raises (no tab, text lxml rejects, or a non-numeric tag).
   */
  function Processed(line: string, fetch: (string, string) -> seq<Field>): Option<seq<Field>> {
    match ParsePair(line)
    case None => None
    case Some(ids) => Normalized(fetch(ids.1, ids.0), ids.0, ids.1)
  }

  /** `records` are what the first `|records|` lines turn into, in order. */
  predicate WrittenFor(lines: seq<string>, fetch: (string, string) -> seq<Field>, records: seq<seq<Field>>) {
    |records| <= |lines|
    && forall k :: 0 <= k < |records| ==> Processed(lines[k], fetch) == Some(records[k])
  }

  /** One record more: the next line's result appended. */
  lemma WrittenForExtend(lines: seq<string>, fetch: (string, string) -> seq<Field>,
                         records: seq<seq<Field>>, record: seq<Field>)
    requires WrittenFor(lines, fetch, records) && |records| < |lines|
    requires Processed(lines[|records|], fetch) == Some(record)
    ensures WrittenFor(lines, fetch, records + [record])
  {
    var extended := records + [record];
    forall k | 0 <= k < |extended|
      ensures Processed(lines[k], fetch) == Some(extended[k])
    {
      if k < |records| {
        assert extended[k] == records[k];
      } else {
        assert k == |records| && extended[k] == record;
      }
    }
  }

  /**
    The loop of west3_gather_Holding_Records.py, lines 111-150: the records
    written, in input order. The first line that raises ends the run;
    everything written before it stays written.
   */
  method GatherHoldingRecords(lines: seq<string>, fetch: (string, string) -> seq<Field>)
    returns (records: seq<seq<Field>>, ok: bool)
    ensures WrittenFor(lines, fetch, records)
    ensures ok <==> |records| == |lines|
    ensures !ok ==> Processed(lines[|records|], fetch).None?
  {
    records := [];
    ok := true;
    while |records| < |lines|
      invariant WrittenFor(lines, fetch, records)
      decreases |lines| - |records|
    {
      var line := lines[|records|];
      var ids := ParsePair(line);
      if ids.None? {
        assert Processed(line, fetch).None?;
        ok := false;
        return;
      }
      var holdingID, mmsID := ids.value.0, ids.value.1;
      var rec := new HoldingRecord(fetch(mmsID, holdingID));
      var stamped := rec.Normalize(holdingID, mmsID);
      if !stamped {
        assert Processed(line, fetch).None?;
        ok := false;
        return;
      }
      var record := rec.children;
      assert Processed(line, fetch) == Some(record);
      WrittenForExtend(lines, fetch, records, record);
      records := records + [record];
    }
  }

  /** Every MMS ID and every holding ID listed for it is text lxml accepts. */
  predicate XmlIds(ids: seq<string>, lookup: string -> seq<string>) {
    forall n :: 0 <= n < |ids| ==>
      XmlText(ids[n])
      && forall j :: 0 <= j < |lookup(ids[n])| ==> XmlText(lookup(ids[n])[j])
  }

  /** Every record fetched for a listed pair has numeric control tags. */
  predicate FetchedNumeric(ids: seq<string>, lookup: string -> seq<string>,
                           fetch: (string, string) -> seq<Field>) {
    forall n, j :: 0 <= n < |ids| && 0 <= j < |lookup(ids[n])| ==>
      ControlTagsNumeric(fetch(ids[n], lookup(ids[n])[j]))
  }

  /**
    The two gathering stages together: every pair line the holding-ID stage
    writes, when read back by this stage, yields a record whose first 001 is
    the holding ID and whose first 004 is the MMS ID it was found for, as long
    as the identifiers are plain, lxml accepts them as text, and the records
    fetched for the listed pairs have numeric control tags.
   */
  lemma PipelineStampsIds(lines: seq<string>, lookup: string -> seq<string>,
                          fetch: (string, string) -> seq<Field>, k: nat)
    returns (n: nat, j: nat)
    requires PlainIds(MmsIds(lines), lookup) && XmlIds(MmsIds(lines), lookup)
    requires FetchedNumeric(MmsIds(lines), lookup, fetch)
    requires k < |Emitted(MmsIds(lines), lookup)|
    ensures n < |lines| && j < |lookup(MmsIds(lines)[n])|
    ensures k == HoldingCount(MmsIds(lines)[..n], lookup) + j
    ensures Processed(Emitted(MmsIds(lines), lookup)[k], fetch).Some?
    ensures ControlValue(Processed(Emitted(MmsIds(lines), lookup)[k], fetch).value, ControlNumberTag)
         == Some(lookup(MmsIds(lines)[n])[j])
    ensures ControlValue(Processed(Emitted(MmsIds(lines), lookup)[k], fetch).value, RelatedRecordTag)
         == Some(MmsIds(lines)[n])
  {
    var ids := MmsIds(lines);
    n, j := EmittedLinesParse(ids, lookup, k);
    var holdingID, mmsID := lookup(ids[n])[j], ids[n];
    assert XmlText(holdingID) && XmlText(mmsID);
    assert ControlTagsNumeric(fetch(mmsID, holdingID));
    NormalizedSucceeds(fetch(mmsID, holdingID), holdingID, mmsID);
    NormalizedStamps(fetch(mmsID, holdingID), holdingID, mmsID);
  }
}
