/**
  What the 001/004 normalisation guarantees: the final values of the two
  fields, where new fields land, that no other field changes or moves
  relative to the others, that a sorted control block stays sorted, and that
  normalising is idempotent.
 */
module NormalizationProperties {
  import opened Options
  import opened Text
  import opened MarcRecord
  import opened Normalization

  lemma TargetTags()
    ensures IsNumericTag(ControlNumberTag) && TagValue(ControlNumberTag) == 1
    ensures IsNumericTag(RelatedRecordTag) && TagValue(RelatedRecordTag) == RelatedRecordNumber
  {
    assert ControlNumberTag[..2] == "00" && "00"[..1] == "0";
    assert RelatedRecordTag[..2] == "00";
  }

  /** A field either step may write: a control field tagged 001 or 004. */
  predicate IsTarget(f: Field) {
    IsControlTagged(f, ControlNumberTag) || IsControlTagged(f, RelatedRecordTag)
  }

  /** The children other than 001 and 004 control fields, in document order. */
  function Untargeted(s: seq<Field>): seq<Field> {
    if s == [] then [] else (if IsTarget(s[0]) then [] else [s[0]]) + Untargeted(s[1..])
  }

  lemma {:induction false} UntargetedConcat(a: seq<Field>, b: seq<Field>)
    ensures Untargeted(a + b) == Untargeted(a) + Untargeted(b)
  {
    if a != [] {
      assert (a + b)[1..] == a[1..] + b;
      UntargetedConcat(a[1..], b);
    } else {
      assert a + b == b;
    }
  }

  /** Inserting a 001 or 004 field leaves every other field in place relative to the rest. */
  lemma UntargetedInsert(s: seq<Field>, k: nat, x: Field)
    requires IsTarget(x)
    ensures Untargeted(Insert(s, k, x)) == Untargeted(s)
  {
    var p := if k < |s| then k else |s|;
    assert Insert(s, k, x) == s[..p] + [x] + s[p..];
    assert s == s[..p] + s[p..];
    UntargetedConcat(s[..p] + [x], s[p..]);
    UntargetedConcat(s[..p], [x]);
    UntargetedConcat(s[..p], s[p..]);
  }

  /** Rewriting the text of a 001 or 004 field leaves every other field as it was. */
  lemma UntargetedRewrite(s: seq<Field>, i: nat, v: string)
    requires i < |s| && IsTarget(s[i])
    ensures Untargeted(s[i := s[i].(value := v)]) == Untargeted(s)
  {
    var x := s[i].(value := v);
    assert s[i := x] == s[..i] + [x] + s[i + 1..];
    assert s == s[..i] + [s[i]] + s[i + 1..];
    UntargetedConcat(s[..i] + [x], s[i + 1..]);
    UntargetedConcat(s[..i], [x]);
    UntargetedConcat(s[..i] + [s[i]], s[i + 1..]);
    UntargetedConcat(s[..i], [s[i]]);
  }

  // ---------------------------------------------------------------------------
  // Field 001

  /** An existing 001 keeps its position; only its text changes, and no other child does. */
  lemma ControlNumberOverwritten(s: seq<Field>, holdingID: string, i: nat)
    requires FirstControl(s, ControlNumberTag) == Some(i)
    ensures var r := SetControlNumber(s, holdingID);
      |r| == |s| && r[i] == Control(ControlNumberTag, holdingID)
      && forall j :: 0 <= j < |s| && j != i ==> r[j] == s[j]
  {
  }

  /** A missing 001 is inserted directly after the leader; everything else shifts right by one. */
  lemma ControlNumberInserted(s: seq<Field>, holdingID: string)
    requires FirstControl(s, ControlNumberTag) == None && s != []
    ensures SetControlNumber(s, holdingID) == [s[0], Control(ControlNumberTag, holdingID)] + s[1..]
  {
  }

  /** After the 001 step, the first 001 holds the holding ID. */
  lemma ControlNumberStamped(s: seq<Field>, holdingID: string)
    ensures ControlValue(SetControlNumber(s, holdingID), ControlNumberTag) == Some(holdingID)
  {
    var r := SetControlNumber(s, holdingID);
    match FirstControl(s, ControlNumberTag)
    case Some(i) =>
      FirstControlAt(r, ControlNumberTag, i);
    case None =>
      FirstControlAt(r, ControlNumberTag, if s == [] then 0 else 1);
  }

  /** The 001 step neither adds nor rewrites a 004. */
  lemma ControlNumberKeepsRelated(s: seq<Field>, holdingID: string)
    ensures ControlValue(SetControlNumber(s, holdingID), RelatedRecordTag) == ControlValue(s, RelatedRecordTag)
  {
    match FirstControl(s, ControlNumberTag)
    case Some(i) =>
      ControlValueUpdateOther(s, i, s[i].(value := holdingID), RelatedRecordTag);
    case None =>
      ControlValueInsertOther(s, 1, Control(ControlNumberTag, holdingID), RelatedRecordTag);
  }

  // ---------------------------------------------------------------------------
  // Field 004

  /** After a successful 004 step, the first 004 holds the MMS ID and the first 001 is untouched. */
  lemma RelatedRecordStamped(s: seq<Field>, mmsID: string)
    requires SetRelatedRecord(s, mmsID).Some?
    ensures ControlValue(SetRelatedRecord(s, mmsID).value, RelatedRecordTag) == Some(mmsID)
    ensures ControlValue(SetRelatedRecord(s, mmsID).value, ControlNumberTag) == ControlValue(s, ControlNumberTag)
  {
    var r := SetRelatedRecord(s, mmsID).value;
    match FirstControl(s, RelatedRecordTag)
    case Some(i) =>
      FirstControlAt(r, RelatedRecordTag, i);
      ControlValueUpdateOther(s, i, s[i].(value := mmsID), ControlNumberTag);
    case None =>
      var k := InsertionPoint(ControlFields(s)).value + 1;
      var p := if k < |s| then k else |s|;
      FirstControlAt(r, RelatedRecordTag, p);
      ControlValueInsertOther(s, k, Control(RelatedRecordTag, mmsID), ControlNumberTag);
  }

  /** An existing 004 keeps its position; only its text changes, and no other child does. */
  lemma RelatedRecordOverwritten(s: seq<Field>, mmsID: string, i: nat)
    requires XmlText(mmsID) && FirstControl(s, RelatedRecordTag) == Some(i)
    ensures SetRelatedRecord(s, mmsID).Some?
    ensures var r := SetRelatedRecord(s, mmsID).value;
      |r| == |s| && r[i] == Control(RelatedRecordTag, mmsID)
      && forall j :: 0 <= j < |s| && j != i ==> r[j] == s[j]
  {
  }

  /**
    In a well-formed record without a 004, the new 004 goes to index `p`:
    after the leader and every control field whose tag is below 4, and either
    right before the first control field tagged 4 or more or, if there is
    none, right after the last control field and before the first data field.
   */
  lemma RelatedRecordSlot(s: seq<Field>, mmsID: string)
    requires WellFormed(s) && FirstControl(s, RelatedRecordTag) == None
    requires InsertionPoint(ControlFields(s)).Some?
    ensures var p := 1 + InsertionPoint(ControlFields(s)).value;
      p <= 1 + |ControlFields(s)| <= |s|
      && (forall j :: 1 <= j < p ==> s[j].Control? && PrecedesRelated(s[j]))
      && (p == 1 + |ControlFields(s)|
          || (s[p].Control? && IsNumericTag(s[p].tag) && TagValue(s[p].tag) >= RelatedRecordNumber))
      && SetRelatedRecord(s, mmsID)
         == if XmlText(mmsID) then Some(s[..p] + [Control(RelatedRecordTag, mmsID)] + s[p..]) else None
  {
    RecordControlBlock(s);
    var cf := ControlFields(s);
    var ip := InsertionPoint(cf).value;
    var p := 1 + ip;
    assert p <= |s|;
    forall j | 1 <= j < p ensures s[j].Control? && PrecedesRelated(s[j]) {
      assert s[j] == cf[j - 1];
    }
    if ip < |cf| {
      assert s[p] == cf[ip];
    }
    assert Insert(s, p, Control(RelatedRecordTag, mmsID)) == s[..p] + [Control(RelatedRecordTag, mmsID)] + s[p..];
  }

  /**
    With every control tag numeric the scan cannot fail, so normalisation
    fails exactly when lxml rejects one of the two identifiers as text.
   */
  lemma NormalizedSucceeds(s: seq<Field>, holdingID: string, mmsID: string)
    requires ControlTagsNumeric(s)
    ensures Normalized(s, holdingID, mmsID).Some? <==> XmlText(holdingID) && XmlText(mmsID)
  {
    TargetTags();
    var t := SetControlNumber(s, holdingID);
    assert ControlTagsNumeric(t) by {
      match FirstControl(s, ControlNumberTag)
      case Some(i) =>
      case None =>
        var p := if 1 < |s| then 1 else |s|;
        assert forall j :: 0 <= j < |t| && j != p ==> t[j] == s[if j < p then j else j - 1];
    }
    if FirstControl(t, RelatedRecordTag).None? {
      AllControlTagsNumeric(t);
    }
  }

  /** Every control field of a record with numeric control tags has a numeric tag. */
  lemma {:induction false} AllControlTagsNumeric(s: seq<Field>)
    requires ControlTagsNumeric(s)
    ensures forall k :: 0 <= k < |ControlFields(s)| ==> IsNumericTag(ControlFields(s)[k].tag)
  {
    if s != [] {
      assert ControlTagsNumeric(s[1..]) by {
        forall j | 0 <= j < |s[1..]| && s[1..][j].Control? ensures IsNumericTag(s[1..][j].tag) {
          assert s[1..][j] == s[j + 1];
        }
      }
      AllControlTagsNumeric(s[1..]);
    }
  }

  // ---------------------------------------------------------------------------
  // Both steps

  /** After normalisation the first 001 holds the holding ID and the first 004 the MMS ID. */
  lemma NormalizedStamps(s: seq<Field>, holdingID: string, mmsID: string)
    requires Normalized(s, holdingID, mmsID).Some?
    ensures ControlValue(Normalized(s, holdingID, mmsID).value, ControlNumberTag) == Some(holdingID)
    ensures ControlValue(Normalized(s, holdingID, mmsID).value, RelatedRecordTag) == Some(mmsID)
  {
    ControlNumberStamped(s, holdingID);
    RelatedRecordStamped(SetControlNumber(s, holdingID), mmsID);
  }

  /**
    The 001 step changes no child other than 001 and 004 fields, and adds a
    child exactly when 001 was missing. That it keeps the 004s as well is
    `ControlNumberKeepsRelated`, with `ControlNumberOverwritten` and
    `ControlNumberInserted` for positions.
   */
  lemma ControlNumberKeepsOthers(s: seq<Field>, holdingID: string)
    ensures var t := SetControlNumber(s, holdingID);
      Untargeted(t) == Untargeted(s)
      && |t| == |s| + (if FirstControl(s, ControlNumberTag).None? then 1 else 0)
  {
    match FirstControl(s, ControlNumberTag)
    case Some(i) =>
      UntargetedRewrite(s, i, holdingID);
    case None =>
      UntargetedInsert(s, 1, Control(ControlNumberTag, holdingID));
  }

  /**
    The 004 step changes no child other than 001 and 004 fields, and adds a
    child exactly when 004 was missing. That it keeps the 001s as well is
    `RelatedRecordStamped`, with `RelatedRecordOverwritten` and
    `RelatedRecordSlot` for positions.
   */
  lemma RelatedRecordKeepsOthers(s: seq<Field>, mmsID: string)
    requires SetRelatedRecord(s, mmsID).Some?
    ensures var t := SetRelatedRecord(s, mmsID).value;
      Untargeted(t) == Untargeted(s)
      && |t| == |s| + (if FirstControl(s, RelatedRecordTag).None? then 1 else 0)
  {
    match FirstControl(s, RelatedRecordTag)
    case Some(i) =>
      UntargetedRewrite(s, i, mmsID);
    case None =>
      UntargetedInsert(s, InsertionPoint(ControlFields(s)).value + 1, Control(RelatedRecordTag, mmsID));
  }

  /**
    Normalisation changes nothing but the 001 and 004 fields: the others keep
    their values and relative order, and the record grows by one child for
    each of the two fields that was missing.
   */
  lemma NormalizedKeepsOthers(s: seq<Field>, holdingID: string, mmsID: string)
    requires Normalized(s, holdingID, mmsID).Some?
    ensures var r := Normalized(s, holdingID, mmsID).value;
      Untargeted(r) == Untargeted(s)
      && |r| == |s| + (if FirstControl(s, ControlNumberTag).None? then 1 else 0)
                    + (if FirstControl(s, RelatedRecordTag).None? then 1 else 0)
  {
    var t := SetControlNumber(s, holdingID);
    ControlNumberKeepsOthers(s, holdingID);
    ControlNumberKeepsRelated(s, holdingID);
    RelatedRecordKeepsOthers(t, mmsID);
    assert FirstControl(t, RelatedRecordTag).None? == FirstControl(s, RelatedRecordTag).None?;
  }

  /** A record that already carries the right 001 and 004 comes out identical, unless lxml rejects them as text. */
  lemma AlreadyStamped(s: seq<Field>, holdingID: string, mmsID: string)
    requires ControlValue(s, ControlNumberTag) == Some(holdingID)
    requires ControlValue(s, RelatedRecordTag) == Some(mmsID)
    ensures Normalized(s, holdingID, mmsID) == if XmlText(holdingID) && XmlText(mmsID) then Some(s) else None
  {
    var i := FirstControl(s, ControlNumberTag).value;
    assert s[i].(value := holdingID) == s[i];
    assert s[i := s[i]] == s;
    var k := FirstControl(s, RelatedRecordTag).value;
    assert s[k].(value := mmsID) == s[k];
    assert s[k := s[k]] == s;
  }

  /** Normalising twice with the same identifiers is the same as normalising once. */
  lemma NormalizeIdempotent(s: seq<Field>, holdingID: string, mmsID: string)
    requires Normalized(s, holdingID, mmsID).Some?
    ensures var r := Normalized(s, holdingID, mmsID).value;
      Normalized(r, holdingID, mmsID) == Some(r)
  {
    NormalizedStamps(s, holdingID, mmsID);
    AlreadyStamped(Normalized(s, holdingID, mmsID).value, holdingID, mmsID);
  }

  // ---------------------------------------------------------------------------
  // Ordering

  /** Every numeric control tag is at least 1, so that nothing may precede a new 001. */
  predicate ControlTagsPositive(s: seq<Field>) {
    forall j :: 0 <= j < |s| && s[j].Control? && IsNumericTag(s[j].tag) ==> TagValue(s[j].tag) >= 1
  }

  /** Rewriting the text of one control field keeps every kind and every tag where it was. */
  lemma RewriteKeepsOrder(s: seq<Field>, i: nat, v: string)
    requires i < |s| && s[i].Control?
    requires WellFormed(s) && ControlsSorted(s)
    ensures WellFormed(s[i := s[i].(value := v)]) && ControlsSorted(s[i := s[i].(value := v)])
  {
    var r := s[i := s[i].(value := v)];
    assert forall j :: 0 <= j < |s| ==>
      r[j].Control? == s[j].Control? && r[j].Leader? == s[j].Leader? && (r[j].Control? ==> r[j].tag == s[j].tag);
  }

  /** Inserting a control field inside the control block, at index 1 or later, keeps the layout. */
  lemma InsertKeepsLayout(s: seq<Field>, p: nat, x: Field)
    requires WellFormed(s) && 1 <= p <= |s| && x.Control?
    requires forall j :: 1 <= j < p ==> s[j].Control?
    ensures WellFormed(s[..p] + [x] + s[p..])
  {
    var r := s[..p] + [x] + s[p..];
    assert forall j :: 0 <= j < p ==> r[j] == s[j];
    assert forall j :: p < j < |r| ==> r[j] == s[j - 1];
    forall j, k | 1 <= j < k < |r| && r[k].Control? ensures r[j].Control? {
      if j > p { assert r[j] == s[j - 1] && r[k] == s[k - 1]; }
    }
  }

  /**
    Inserting a control field between the control fields whose tags are at
    most its own and those whose tags are at least its own keeps the control
    fields sorted.
   */
  lemma InsertKeepsSorted(s: seq<Field>, p: nat, x: Field)
    requires ControlsSorted(s) && p <= |s| && x.Control? && IsNumericTag(x.tag)
    requires forall j :: 0 <= j < p && s[j].Control? ==> TagValue(s[j].tag) <= TagValue(x.tag)
    requires forall j :: p <= j < |s| && s[j].Control? ==> TagValue(x.tag) <= TagValue(s[j].tag)
    ensures ControlsSorted(s[..p] + [x] + s[p..])
  {
    var r := s[..p] + [x] + s[p..];
    assert Before: forall j :: 0 <= j < p ==> r[j] == s[j];
    assert After: forall j :: p < j < |r| ==> r[j] == s[j - 1];
    assert ControlTagsNumeric(r) by {
      forall j | 0 <= j < |r| && r[j].Control? ensures IsNumericTag(r[j].tag) {
        if j < p { assert r[j] == s[j]; } else if j > p { assert r[j] == s[j - 1]; }
      }
    }
    forall j, k | 0 <= j < k < |r| && r[j].Control? && r[k].Control?
      ensures TagValue(r[j].tag) <= TagValue(r[k].tag)
    {
      if k < p {
        assert r[j] == s[j] && r[k] == s[k];
      } else if k == p {
        assert r[j] == s[j];
      } else if j < p {
        assert r[j] == s[j] && r[k] == s[k - 1];
      } else if j == p {
        assert r[k] == s[k - 1];
      } else {
        assert r[j] == s[j - 1] && r[k] == s[k - 1];
      }
    }
  }

  /** The 001 step keeps the record layout and a sorted control block sorted. */
  lemma ControlNumberKeepsOrder(s: seq<Field>, holdingID: string)
    requires WellFormed(s) && ControlsSorted(s) && ControlTagsPositive(s)
    ensures WellFormed(SetControlNumber(s, holdingID)) && ControlsSorted(SetControlNumber(s, holdingID))
  {
    TargetTags();
    match FirstControl(s, ControlNumberTag)
    case Some(i) =>
      RewriteKeepsOrder(s, i, holdingID);
    case None =>
      var x := Control(ControlNumberTag, holdingID);
      assert Insert(s, 1, x) == s[..1] + [x] + s[1..];
      InsertKeepsLayout(s, 1, x);
      InsertKeepsSorted(s, 1, x);
  }

  /**
    On a sorted record the 004 step fails only where lxml rejects the MMS ID,
    keeps the layout, and keeps the control block sorted.
   */
  lemma RelatedRecordKeepsOrder(s: seq<Field>, mmsID: string)
    requires WellFormed(s) && ControlsSorted(s)
    ensures SetRelatedRecord(s, mmsID).Some? <==> XmlText(mmsID)
    ensures SetRelatedRecord(s, mmsID).Some? ==>
      WellFormed(SetRelatedRecord(s, mmsID).value) && ControlsSorted(SetRelatedRecord(s, mmsID).value)
  {
    if !XmlText(mmsID) {
      return;
    }
    match FirstControl(s, RelatedRecordTag)
    case Some(i) =>
      RewriteKeepsOrder(s, i, mmsID);
    case None =>
      NewRelatedKeepsOrder(s, mmsID);
  }

  /** A new 004 lands where the sorted control block stays sorted and the layout stays intact. */
  lemma NewRelatedKeepsOrder(s: seq<Field>, mmsID: string)
    requires WellFormed(s) && ControlsSorted(s) && XmlText(mmsID)
    requires FirstControl(s, RelatedRecordTag) == None
    ensures SetRelatedRecord(s, mmsID).Some?
    ensures WellFormed(SetRelatedRecord(s, mmsID).value) && ControlsSorted(SetRelatedRecord(s, mmsID).value)
  {
    TargetTags();
    AllControlTagsNumeric(s);
    RecordControlBlock(s);
    RelatedRecordSlot(s, mmsID);
    var c := |ControlFields(s)|;
    var p := 1 + InsertionPoint(ControlFields(s)).value;
    var x := Control(RelatedRecordTag, mmsID);
    forall j | p <= j < |s| && s[j].Control? ensures TagValue(x.tag) <= TagValue(s[j].tag) {
      assert j < 1 + c;
    }
    InsertKeepsLayout(s, p, x);
    InsertKeepsSorted(s, p, x);
  }

  /**
    Normalising a record whose control fields are contiguous after the leader,
    tagged 1 or more and sorted by tag fails only where lxml rejects one of
    the identifiers, and leaves them contiguous, sorted, and ahead of every
    data field.
   */
  lemma NormalizeKeepsOrder(s: seq<Field>, holdingID: string, mmsID: string)
    requires WellFormed(s) && ControlsSorted(s) && ControlTagsPositive(s)
    ensures Normalized(s, holdingID, mmsID).Some? <==> XmlText(holdingID) && XmlText(mmsID)
    ensures Normalized(s, holdingID, mmsID).Some? ==>
      WellFormed(Normalized(s, holdingID, mmsID).value) && ControlsSorted(Normalized(s, holdingID, mmsID).value)
  {
    if !XmlText(holdingID) {
      return;
    }
    ControlNumberKeepsOrder(s, holdingID);
    RelatedRecordKeepsOrder(SetControlNumber(s, holdingID), mmsID);
  }

  // ---------------------------------------------------------------------------
  // Worked examples

  lemma SmallTagValues()
    ensures TagValue("002") == 2 && TagValue("005") == 5
  {
    assert "002"[..2] == "00" && "00"[..1] == "0";
    assert "005"[..2] == "00";
  }

  /** The scan over control fields 001, 002, 005, 008 stops at 005, the third. */
  lemma ScanExample(cf: seq<Field>)
    requires |cf| == 4 && forall k :: 0 <= k < 4 ==> cf[k].Control?
    requires cf[0].tag == "001" && cf[1].tag == "002" && cf[2].tag == "005" && cf[3].tag == "008"
    ensures InsertionPoint(cf) == Some(2)
  {
    TargetTags();
    SmallTagValues();
    assert InsertionPoint(cf[2..]) == Some(0);
    assert cf[1..][1..] == cf[2..];
    assert InsertionPoint(cf[1..]) == Some(1);
  }

  /** The 001 step on control fields 002, 005 and 008 puts the new 001 right after the leader. */
  lemma BetweenControlNumber(leader: string, v2: string, v5: string, v8: string, holdingID: string)
    ensures SetControlNumber([Leader(leader), Control("002", v2), Control("005", v5), Control("008", v8)], holdingID)
         == [Leader(leader), Control("001", holdingID), Control("002", v2), Control("005", v5), Control("008", v8)]
  {
    var s := [Leader(leader), Control("002", v2), Control("005", v5), Control("008", v8)];
    assert FirstControl(s, ControlNumberTag) == None by {
      assert forall j :: 0 <= j < |s| ==> !IsControlTagged(s[j], ControlNumberTag);
    }
  }

  /**
    Control fields 002, 005 and 008 with neither 001 nor 004: the 001 goes
    right after the leader and the 004, found by a scan that already counts
    the new 001, between 002 and 005.
   */
  lemma NormalizeBetweenExample(leader: string, v2: string, v5: string, v8: string,
                                holdingID: string, mmsID: string)
    ensures Normalized([Leader(leader), Control("002", v2), Control("005", v5), Control("008", v8)],
                       holdingID, mmsID)
         == if XmlText(holdingID) && XmlText(mmsID) then
              Some([Leader(leader), Control("001", holdingID), Control("002", v2), Control("004", mmsID),
                    Control("005", v5), Control("008", v8)])
            else None
  {
    BetweenControlNumber(leader, v2, v5, v8, holdingID);
    if XmlText(mmsID) {
      BetweenRelatedRecord(leader, holdingID, v2, v5, v8, mmsID);
    }
  }

  /** The 004 step after it: the scan counts the new 001 and stops at 005, so the 004 goes in before 005. */
  lemma BetweenRelatedRecord(leader: string, holdingID: string, v2: string, v5: string, v8: string, mmsID: string)
    requires XmlText(mmsID)
    ensures SetRelatedRecord([Leader(leader), Control("001", holdingID), Control("002", v2),
                              Control("005", v5), Control("008", v8)], mmsID)
         == Some([Leader(leader), Control("001", holdingID), Control("002", v2), Control("004", mmsID),
                  Control("005", v5), Control("008", v8)])
  {
    var t := [Leader(leader), Control("001", holdingID), Control("002", v2), Control("005", v5), Control("008", v8)];
    BetweenScan(t);
    var x := Control(RelatedRecordTag, mmsID);
    var r := [Leader(leader), Control("001", holdingID), Control("002", v2), x, Control("005", v5), Control("008", v8)];
    assert Insert(t, 3, x) == r;
  }

  /** A leader then control fields 001, 002, 005, 008: no 004, and the scan stops at 005. */
  lemma BetweenScan(t: seq<Field>)
    requires |t| == 5 && t[0].Leader? && forall k :: 1 <= k < 5 ==> t[k].Control?
    requires t[1].tag == "001" && t[2].tag == "002" && t[3].tag == "005" && t[4].tag == "008"
    ensures FirstControl(t, RelatedRecordTag) == None
    ensures InsertionPoint(ControlFields(t)) == Some(2)
  {
    var cf := t[1..];
    assert forall j :: 0 <= j < |t| ==> !IsControlTagged(t[j], RelatedRecordTag);
    OnlyControlFields(cf);
    assert ControlFields(t) == cf;
    ScanExample(cf);
  }

  /** A run of control fields only is its own list of control fields. */
  lemma {:induction false} OnlyControlFields(cf: seq<Field>)
    requires forall j :: 0 <= j < |cf| ==> cf[j].Control?
    ensures ControlFields(cf) == cf
  {
    if cf != [] {
      OnlyControlFields(cf[1..]);
    }
  }

  /** A record with no control fields is all data after the leader, and has no control fields. */
  lemma {:induction false} NoControlFields(data: seq<Field>)
    requires forall j :: 0 <= j < |data| ==> data[j].Data?
    ensures ControlFields(data) == []
  {
    if data != [] {
      NoControlFields(data[1..]);
    }
  }

  /** The 001 step on a record of a leader and data fields only puts the new 001 right after the leader. */
  lemma BareControlNumber(leader: string, data: seq<Field>, holdingID: string)
    requires forall j :: 0 <= j < |data| ==> data[j].Data?
    ensures SetControlNumber([Leader(leader)] + data, holdingID)
         == [Leader(leader), Control(ControlNumberTag, holdingID)] + data
  {
    var s := [Leader(leader)] + data;
    forall j | 0 <= j < |s| ensures !s[j].Control? {
      if j > 0 { assert s[j] == data[j - 1]; }
    }
    assert FirstControl(s, ControlNumberTag) == None;
    assert Insert(s, 1, Control(ControlNumberTag, holdingID)) == [Leader(leader), Control(ControlNumberTag, holdingID)] + data;
  }

  /** A record of a leader and data fields only gets exactly 001 then 004 after the leader. */
  lemma NormalizeBareExample(leader: string, data: seq<Field>, holdingID: string, mmsID: string)
    requires forall j :: 0 <= j < |data| ==> data[j].Data?
    ensures Normalized([Leader(leader)] + data, holdingID, mmsID)
         == if XmlText(holdingID) && XmlText(mmsID) then
              Some([Leader(leader), Control(ControlNumberTag, holdingID), Control(RelatedRecordTag, mmsID)] + data)
            else None
  {
    BareControlNumber(leader, data, holdingID);
    if XmlText(mmsID) {
      BareRelatedRecord(leader, data, holdingID, mmsID);
    }
  }

  /** The 004 step after it: the scan passes the new 001 and reaches the end, so the 004 follows the 001. */
  lemma BareRelatedRecord(leader: string, data: seq<Field>, holdingID: string, mmsID: string)
    requires forall j :: 0 <= j < |data| ==> data[j].Data?
    requires XmlText(mmsID)
    ensures SetRelatedRecord([Leader(leader), Control(ControlNumberTag, holdingID)] + data, mmsID)
         == Some([Leader(leader), Control(ControlNumberTag, holdingID), Control(RelatedRecordTag, mmsID)] + data)
  {
    var c1 := Control(ControlNumberTag, holdingID);
    var c4 := Control(RelatedRecordTag, mmsID);
    var t := [Leader(leader), c1] + data;
    BareScan(t);
    assert Insert(t, 2, c4) == [Leader(leader), c1, c4] + data;
  }

  /** A leader, a 001, then data fields only: no 004, and the scan passes the 001 and stops at the end. */
  lemma BareScan(t: seq<Field>)
    requires |t| >= 2 && t[0].Leader? && IsControlTagged(t[1], ControlNumberTag)
    requires forall j :: 2 <= j < |t| ==> t[j].Data?
    ensures FirstControl(t, RelatedRecordTag) == None
    ensures InsertionPoint(ControlFields(t)) == Some(1)
  {
    TargetTags();
    forall j | 0 <= j < |t| ensures !IsControlTagged(t[j], RelatedRecordTag) {
    }
    NoControlFields(t[2..]);
    assert t[1..][1..] == t[2..];
    assert ControlFields(t) == [t[1]];
    assert InsertionPoint([t[1]]) == Some(1);
  }
}
