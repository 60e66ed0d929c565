/**
  Stamping a fetched holdings record with its two identifiers (in the
  gathering script for holding records): field 001 (Control Number) must
  hold the holding ID and field 004 (Control Number for Related
  Bibliographic Record) the MMS ID of the bibliographic record, both of the
  MARC 21 Format for Holdings Data. An existing field is overwritten in
  place; a missing one is inserted, 001 straight after the leader and 004
  before the first control field whose numeric tag is 4 or more.
 */
module Normalization {
  import opened Options
  import opened Text
  import opened MarcRecord

  const ControlNumberTag := "001"
  const RelatedRecordTag := "004"
  /** The numeric value of `RelatedRecordTag`, the bound of the insertion-point scan. */
  const RelatedRecordNumber := 4

  /** `f` is passed over by the 004 scan: its tag reads as a number below 4. */
  predicate PrecedesRelated(f: Field)
    requires f.Control?
  {
    IsNumericTag(f.tag) && TagValue(f.tag) < RelatedRecordNumber
  }

  /**
    Where the 004 scan over the control fields stops: the index of the first
    control field whose tag is not below 4, or the number of control fields
    when there is none. `None` when the scan reaches a tag that `int()`
    rejects before it stops, where the program raises a ValueError.
   */
  function InsertionPoint(cfields: seq<Field>): (r: Option<nat>)
    requires forall k :: 0 <= k < |cfields| ==> cfields[k].Control?
    ensures r.Some? ==> r.value <= |cfields|
    ensures r.Some? ==> forall k :: 0 <= k < r.value ==> PrecedesRelated(cfields[k])
    ensures r.Some? && r.value < |cfields| ==>
      IsNumericTag(cfields[r.value].tag) && TagValue(cfields[r.value].tag) >= RelatedRecordNumber
    ensures r.None? <==> exists k :: 0 <= k < |cfields| && !IsNumericTag(cfields[k].tag)
                                     && forall j :: 0 <= j < k ==> PrecedesRelated(cfields[j])
  {
    if cfields == [] then Some(0)
    else if !IsNumericTag(cfields[0].tag) then None
    else if TagValue(cfields[0].tag) < RelatedRecordNumber then
      var rest := InsertionPoint(cfields[1..]);
      if rest.None? then
        var k :| 0 <= k < |cfields[1..]| && !IsNumericTag(cfields[1..][k].tag)
                 && forall j :: 0 <= j < k ==> PrecedesRelated(cfields[1..][j]);
        assert cfields[k + 1] == cfields[1..][k];
        None
      else
        assert forall k :: 1 <= k < rest.value + 1 ==> cfields[k] == cfields[1..][k - 1];
        Some(rest.value + 1)
    else
      Some(0)
  }

  /**
    The 001 step (west3_gather_Holding_Records.py, lines 124-130) for a
    holding ID lxml accepts as text: overwrite the first 001's text, or insert
    a new 001 at child index 1.
   */
  function SetControlNumber(s: seq<Field>, holdingID: string): seq<Field> {
    match FirstControl(s, ControlNumberTag)
    case Some(i) => s[i := s[i].(value := holdingID)]
    case None => Insert(s, 1, Control(ControlNumberTag, holdingID))
  }

  /**
    The 004 step (west3_gather_Holding_Records.py, lines 132-145): overwrite
    the first 004's text, or insert a new 004 at child index `i + 1`, where
    `i` is where the scan stops. `None` when the MMS ID is text lxml rejects
    (assigning it as the 004's text raises) or when the scan raises.
   */
  function SetRelatedRecord(s: seq<Field>, mmsID: string): Option<seq<Field>> {
    if !XmlText(mmsID) then None
    else match FirstControl(s, RelatedRecordTag)
    case Some(i) => Some(s[i := s[i].(value := mmsID)])
    case None =>
      match InsertionPoint(ControlFields(s))
      case None => None
      case Some(i) => Some(Insert(s, i + 1, Control(RelatedRecordTag, mmsID)))
  }

  /**
    Both steps, 001 first; `None` when lxml rejects the holding ID (assigning it as
    the 001's text raises) or when the 004 step fails.
   */
  function Normalized(s: seq<Field>, holdingID: string, mmsID: string): Option<seq<Field>> {
    if !XmlText(holdingID) then None
    else SetRelatedRecord(SetControlNumber(s, holdingID), mmsID)
  }

  /**
    The `while` loop of west3_gather_Holding_Records.py, lines 137-140, that
    finds where a new 004 goes.
   */
  method ScanInsertionPoint(cfields: seq<Field>) returns (ok: bool, i: nat)
    requires forall k :: 0 <= k < |cfields| ==> cfields[k].Control?
    ensures ok == InsertionPoint(cfields).Some?
    ensures ok ==> i == InsertionPoint(cfields).value
  {
    i := 0;
    while i < |cfields| && IsNumericTag(cfields[i].tag) && TagValue(cfields[i].tag) < RelatedRecordNumber
      invariant i <= |cfields|
      invariant forall k :: 0 <= k < i ==> PrecedesRelated(cfields[k])
    {
      i := i + 1;
    }
    // the loop stops at the end, at a tag of 4 or more, or where int() raises
    ok := i == |cfields| || IsNumericTag(cfields[i].tag);
  }

  /** The `record` element of one fetched holding, whose children the normalisation edits in place. */
  class HoldingRecord {
    var children: seq<Field>

    constructor (fetched: seq<Field>)
      ensures children == fetched
    {
      children := fetched;
    }

    /**
      west3_gather_Holding_Records.py, lines 124-130; `ok` is false where lxml
      rejects the holding ID as text, and then nothing has changed.
     */
    method StampControlNumber(holdingID: string) returns (ok: bool)
      modifies this
      ensures ok == XmlText(holdingID)
      ensures children == if ok then SetControlNumber(old(children), holdingID) else old(children)
    {
      ok := XmlText(holdingID);
      if !ok {
        return;
      }
      var found := FirstControl(children, ControlNumberTag);
      if found.None? {
        children := Insert(children, 1, Control(ControlNumberTag, holdingID));
      } else {
        var i := found.value;
        children := children[i := children[i].(value := holdingID)];
      }
    }

    /**
      west3_gather_Holding_Records.py, lines 132-145; `ok` is false where lxml
      rejects the MMS ID as text or `int(tag)` raises, and then nothing has
      changed.
     */
    method StampRelatedRecord(mmsID: string) returns (ok: bool)
      modifies this
      ensures ok == SetRelatedRecord(old(children), mmsID).Some?
      ensures children == if ok then SetRelatedRecord(old(children), mmsID).value else old(children)
    {
      if !XmlText(mmsID) {
        ok := false;
        return;
      }
      var found := FirstControl(children, RelatedRecordTag);
      if found.None? {
        var cfields := ControlFields(children);
        var i;
        ok, i := ScanInsertionPoint(cfields);
        if ok {
          children := Insert(children, i + 1, Control(RelatedRecordTag, mmsID));
        }
      } else {
        ok := true;
        var i := found.value;
        children := children[i := children[i].(value := mmsID)];
      }
    }

    /**
      west3_gather_Holding_Records.py, lines 124-145. When the 004 step fails
      the 001 step has already been applied, as in the program, where the
      exception leaves the record half-edited.
     */
    method Normalize(holdingID: string, mmsID: string) returns (ok: bool)
      modifies this
      ensures ok == Normalized(old(children), holdingID, mmsID).Some?
      ensures children == if ok then Normalized(old(children), holdingID, mmsID).value
                          else if XmlText(holdingID) then SetControlNumber(old(children), holdingID)
                          else old(children)
    {
      ok := StampControlNumber(holdingID);
      if ok {
        ok := StampRelatedRecord(mmsID);
      }
    }
  }
}
