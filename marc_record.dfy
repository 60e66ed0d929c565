/**
  A MARC 21 holdings record as the fetch returns it in MARCXML: the ordered
  children of its `record` element. Index 0 holds the leader, then come the
  control fields (tag and text, no substructure), then the data fields
  (tag, indicators and subfields, which this core passes through untouched).
 */
module MarcRecord {
  import opened Options

  datatype Subfield = Subfield(code: string, text: string)

  datatype Field =
    | Leader(text: string)
    | Control(tag: string, value: string)
    | Data(tag: string, ind1: string, ind2: string, subfields: seq<Subfield>)

  /** A tag Python's `int()` reads: a non-empty string of decimal digits. */
  predicate IsNumericTag(t: string) {
    t != [] && forall k :: 0 <= k < |t| ==> '0' <= t[k] <= '9'
  }

  /** The decimal value of a numeric tag, `int(tag)`. */
  function TagValue(t: string): nat
    requires IsNumericTag(t)
    decreases |t|
  {
    var last := (t[|t| - 1] as int - '0' as int) as nat;
    if |t| == 1 then last else TagValue(t[..|t| - 1]) * 10 + last
  }

  /** `f` is a control field tagged exactly `tag`, the test of `controlfield[@tag="..."]`. */
  predicate IsControlTagged(f: Field, tag: string) {
    f.Control? && f.tag == tag
  }

  /**
    The first child, in document order, that is a control field tagged `tag`:
    the element `.find('.//controlfield[@tag="..."]')` selects.
   */
  function FirstControl(s: seq<Field>, tag: string): (r: Option<nat>)
    ensures r.Some? ==> r.value < |s| && IsControlTagged(s[r.value], tag)
    ensures r.Some? ==> forall j :: 0 <= j < r.value ==> !IsControlTagged(s[j], tag)
    ensures r.None? ==> forall j :: 0 <= j < |s| ==> !IsControlTagged(s[j], tag)
  {
    if s == [] then None
    else if IsControlTagged(s[0], tag) then Some(0)
    else match FirstControl(s[1..], tag)
      case None => None
      case Some(i) => Some(i + 1)
  }

  /** The text of the first control field tagged `tag`, if there is one. */
  function ControlValue(s: seq<Field>, tag: string): Option<string> {
    match FirstControl(s, tag)
    case None => None
    case Some(i) => Some(s[i].value)
  }

  /** Inserting a field not tagged `tag` leaves the first `tag` value as it was. */
  lemma ControlValueInsertOther(s: seq<Field>, k: nat, x: Field, tag: string)
    requires !IsControlTagged(x, tag)
    ensures ControlValue(Insert(s, k, x), tag) == ControlValue(s, tag)
  {
    var r := Insert(s, k, x);
    var p := if k < |s| then k else |s|;
    assert forall j :: 0 <= j < p ==> r[j] == s[j];
    assert forall j :: p < j < |r| ==> r[j] == s[j - 1];
    match FirstControl(s, tag)
    case None =>
      forall j | 0 <= j < |r| ensures !IsControlTagged(r[j], tag) {
        if j > p { assert r[j] == s[j - 1]; }
      }
    case Some(i) =>
      if i < p {
        FirstControlAt(r, tag, i);
      } else {
        forall j | 0 <= j < i + 1 ensures !IsControlTagged(r[j], tag) {
          if j > p { assert r[j] == s[j - 1]; }
        }
        FirstControlAt(r, tag, i + 1);
      }
  }

  /** Replacing a field not tagged `tag` by another such field leaves the first `tag` value as it was. */
  lemma ControlValueUpdateOther(s: seq<Field>, i: nat, x: Field, tag: string)
    requires i < |s| && !IsControlTagged(s[i], tag) && !IsControlTagged(x, tag)
    ensures ControlValue(s[i := x], tag) == ControlValue(s, tag)
  {
    var r := s[i := x];
    match FirstControl(s, tag)
    case None =>
      assert forall j :: 0 <= j < |r| ==> !IsControlTagged(r[j], tag);
    case Some(f) =>
      FirstControlAt(r, tag, f);
  }

  /** A match with no earlier match is the first one. */
  lemma FirstControlAt(s: seq<Field>, tag: string, i: nat)
    requires i < |s| && IsControlTagged(s[i], tag)
    requires forall j :: 0 <= j < i ==> !IsControlTagged(s[j], tag)
    ensures FirstControl(s, tag) == Some(i)
  {
  }

  /** All control fields in document order, `.findall('.//controlfield')`. */
  function ControlFields(s: seq<Field>): (r: seq<Field>)
    ensures |r| <= |s|
    ensures forall k :: 0 <= k < |r| ==> r[k].Control?
  {
    if s == [] then []
    else (if s[0].Control? then [s[0]] else []) + ControlFields(s[1..])
  }

  /** `findall` returns every control field of `s` and nothing that is not a child of `s`. */
  lemma {:induction false} ControlFieldsMembers(s: seq<Field>)
    ensures forall k :: 0 <= k < |ControlFields(s)| ==> ControlFields(s)[k] in s
    ensures forall j :: 0 <= j < |s| && s[j].Control? ==> s[j] in ControlFields(s)
  {
    if s != [] {
      ControlFieldsMembers(s[1..]);
      var head := if s[0].Control? then [s[0]] else [];
      assert ControlFields(s) == head + ControlFields(s[1..]);
      forall j | 0 <= j < |s| && s[j].Control? ensures s[j] in ControlFields(s) {
        if j > 0 { assert s[j] == s[1..][j - 1]; }
      }
    }
  }

  /** `findall` keeps document order: the control fields of two runs of children are those of each run, in turn. */
  lemma {:induction false} ControlFieldsConcat(a: seq<Field>, b: seq<Field>)
    ensures ControlFields(a + b) == ControlFields(a) + ControlFields(b)
  {
    if a == [] {
      assert a + b == b;
    } else {
      assert (a + b)[1..] == a[1..] + b;
      ControlFieldsConcat(a[1..], b);
    }
  }

  /**
    `list.insert` as lxml does it on an element's children: `x` goes in at
    index `k`, or is appended when `k` is past the end.
   */
  function Insert(s: seq<Field>, k: nat, x: Field): (r: seq<Field>)
    ensures var p := if k < |s| then k else |s|;
      |r| == |s| + 1 && r[p] == x && r[..p] == s[..p] && r[p + 1..] == s[p..]
  {
    if k < |s| then s[..k] + [x] + s[k..] else s + [x]
  }

  /** Children after the leader: control fields first, then only data fields. */
  predicate ControlsFirst(t: seq<Field>) {
    (forall j :: 0 <= j < |t| ==> !t[j].Leader?)
    && forall j, k :: 0 <= j < k < |t| && t[k].Control? ==> t[j].Control?
  }

  /**
    The record layout MARCXML prescribes: the leader at index 0 and nowhere
    else, then a block of control fields, then the data fields.
   */
  predicate WellFormed(s: seq<Field>) {
    s != [] && s[0].Leader?
    && (forall j :: 1 <= j < |s| ==> !s[j].Leader?)
    && forall j, k :: 1 <= j < k < |s| && s[k].Control? ==> s[j].Control?
  }

  /** Every control field has a numeric tag, so that `int(tag)` succeeds on each. */
  predicate ControlTagsNumeric(s: seq<Field>) {
    forall j :: 0 <= j < |s| && s[j].Control? ==> IsNumericTag(s[j].tag)
  }

  /** The control fields are in non-decreasing numeric tag order. */
  predicate ControlsSorted(s: seq<Field>) {
    ControlTagsNumeric(s)
    && forall j, k :: 0 <= j < k < |s| && s[j].Control? && s[k].Control? ==>
         TagValue(s[j].tag) <= TagValue(s[k].tag)
  }

  /**
    Under the controls-first layout, the control fields are exactly the
    leading block and everything after it is a data field.
   */
  lemma {:induction false} ControlBlock(t: seq<Field>)
    requires ControlsFirst(t)
    ensures |ControlFields(t)| <= |t|
    ensures ControlFields(t) == t[..|ControlFields(t)|]
    ensures forall j :: |ControlFields(t)| <= j < |t| ==> t[j].Data?
  {
    if t != [] {
      var rest := t[1..];
      assert ControlsFirst(rest) by {
        forall j, k | 0 <= j < k < |rest| && rest[k].Control?
          ensures rest[j].Control?
        {
          assert t[k + 1].Control?;
        }
      }
      ControlBlock(rest);
      var c := |ControlFields(rest)|;
      if t[0].Control? {
        assert ControlFields(t) == [t[0]] + rest[..c];
        assert [t[0]] + rest[..c] == t[..c + 1];
      } else {
        assert ControlFields(t) == [];
        forall j | 0 <= j < |t| ensures t[j].Data? {
          if j > 0 { assert rest[j - 1].Data?; }
        }
      }
    }
  }

  /** The control fields of a well-formed record sit at indices 1 to `|ControlFields(s)|`. */
  lemma RecordControlBlock(s: seq<Field>)
    requires WellFormed(s)
    ensures |ControlFields(s)| < |s|
    ensures ControlFields(s) == s[1..1 + |ControlFields(s)|]
    ensures forall j :: 1 + |ControlFields(s)| <= j < |s| ==> s[j].Data?
  {
    var t := s[1..];
    assert ControlsFirst(t) by {
      forall j, k | 0 <= j < k < |t| && t[k].Control?
        ensures t[j].Control?
      {
        assert s[k + 1].Control?;
      }
    }
    assert ControlFields(s) == ControlFields(t);
    ControlBlock(t);
  }
}
