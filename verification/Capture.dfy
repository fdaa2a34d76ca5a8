/** Capturing an event. */
module Capture {
  // A mapping's tags are read into a record, one column each, and stamped with the
  // mapping's target.

  import opened Bytes
  import opened GatewayTypes
  import opened SqlText
  import opened PlcRead
  import opened ConfigBlob
  import ConfigRoundTrip
  import Serializer

  const DEFAULT_SCHEMA := "dbo"
  const DEFAULT_PLC_NAME := "PLC"

  /** What tells one capture of a mapping from another. */
  datatype Stamp = Stamp(eventId: u64, revision: u32, secs: u32)

  datatype Record = Record(fields: seq<FieldMapping>, values: seq<FieldValue>)

  predicate HasColumn(fs: seq<FieldMapping>, column: string) {
    exists j :: 0 <= j < |fs| && fs[j].sqlColumn == column
  }

  predicate Skipped(fs: seq<FieldMapping>, f: FieldMapping) {
    f.sqlColumn == "" || HasColumn(fs, f.sqlColumn)
  }

  /** A tag that is not required and cannot be read is captured as NULL. */
  function ValueOf(ops: FloatOps, f: FieldMapping, tag: Option<TagValue>): FieldValue {
    var v := PlcReadField(ops, f, tag);
    if v.valid then v else v.(isNull := true)
  }

  /** The record after the fields `fs`; `tags` is what reading each of them returns. None if a required one fails. */
  function CaptureFields(ops: FloatOps, fs: seq<FieldMapping>, tags: seq<Option<TagValue>>, r: Record): Option<Record>
    requires |fs| == |tags|
    decreases |fs|
  {
    if fs == [] then Some(r)
    else if Skipped(r.fields, fs[0]) then CaptureFields(ops, fs[1..], tags[1..], r)
    else if tags[0] == None && fs[0].required then None
    else CaptureFields(ops, fs[1..], tags[1..], Added(r, fs[0], ValueOf(ops, fs[0], tags[0])))
  }

  function Added(r: Record, f: FieldMapping, v: FieldValue): Record {
    Record(r.fields + [f], r.values + [v])
  }

  function PlcNameField(column: string): FieldMapping {
    FieldMapping("", PLC_STRING, column, SQL_NVARCHAR, false, true, false, 1.0, 0.0, MAX_STRING_VALUE_LEN)
  }

  function PlcNameValue(name: string): FieldValue {
    FieldValue(true, false, PLC_STRING, 0, 0, if name != "" then name else DEFAULT_PLC_NAME)
  }

  predicate NeedsPlcName(m: Mapping, fs: seq<FieldMapping>) {
    m.includePlcName && m.plcNameColumn != "" && |fs| < MAX_FIELDS_PER_MAPPING && !HasColumn(fs, m.plcNameColumn)
  }

  function WithPlcName(m: Mapping, plcName: string, r: Record): Record {
    if NeedsPlcName(m, r.fields) then Added(r, PlcNameField(m.plcNameColumn), PlcNameValue(plcName)) else r
  }

  function Stamped(m: Mapping, stamp: Stamp, r: Record): CapturedEvent {
    CapturedEvent(stamp.eventId, m.plcId, m.id, stamp.revision, stamp.secs, m.operation, m.database,
                  if m.schema != "" then m.schema else DEFAULT_SCHEMA, m.table, r.fields, r.values)
  }

  const NOTHING := Record([], [])

  /** CapturePayload as a function of what the tag reads return. */
  function Captured(ops: FloatOps, m: Mapping, plcName: string, tags: seq<Option<TagValue>>, stamp: Stamp): Option<CapturedEvent>
    requires |m.fields| == |tags|
  {
    match CaptureFields(ops, m.fields, tags, NOTHING)
    case None => None
    case Some(r) =>
      var all := WithPlcName(m, plcName, r);
      if all.fields == [] then None else Some(Stamped(m, stamp, all))
  }

  // ----- The loops -----

  method FindColumn(fs: seq<FieldMapping>, column: string) returns (found: bool)
    ensures found <==> HasColumn(fs, column)
  {
    found := false;
    for j := 0 to |fs|
      invariant !found && forall i :: 0 <= i < j ==> fs[i].sqlColumn != column
    {
      if fs[j].sqlColumn == column {
        return true;
      }
    }
  }

  method CapturePayload(ops: FloatOps, m: Mapping, plcName: string, tags: seq<Option<TagValue>>, stamp: Stamp)
    returns (ev: Option<CapturedEvent>)
    requires |m.fields| == |tags| && |m.fields| <= MAX_FIELDS_PER_MAPPING
    ensures ev == Captured(ops, m, plcName, tags, stamp)
  {
    hide PlcReadField;
    var r := NOTHING;
    ghost var goal := CaptureFields(ops, m.fields, tags, NOTHING);
    assert m.fields[0..] == m.fields && tags[0..] == tags;
    for i := 0 to |m.fields|
      invariant CaptureFields(ops, m.fields[i..], tags[i..], r) == goal
    {
      var f := m.fields[i];
      assert m.fields[i..][1..] == m.fields[i + 1..] && tags[i..][1..] == tags[i + 1..];
      if f.sqlColumn == "" {
        continue;
      }
      var dup := FindColumn(r.fields, f.sqlColumn);
      if dup {
        continue;
      }
      var v := PlcReadField(ops, f, tags[i]);
      if !v.valid {
        if f.required {
          return None;
        }
        v := v.(isNull := true);
      }
      r := Added(r, f, v);
    }
    if m.includePlcName && m.plcNameColumn != "" && |r.fields| < MAX_FIELDS_PER_MAPPING {
      var dup := FindColumn(r.fields, m.plcNameColumn);
      if !dup {
        r := Added(r, PlcNameField(m.plcNameColumn), PlcNameValue(plcName));
      }
    }
    ev := if r.fields == [] then None else Some(Stamped(m, stamp, r));
  }

  // ----- What is captured -----

  /** The event is its mapping's and of its moment; an empty schema is "dbo". */
  ghost predicate IsStamped(ev: CapturedEvent, m: Mapping, stamp: Stamp) {
    && ev.eventId == stamp.eventId && ev.configRevision == stamp.revision && ev.captureSecs == stamp.secs
    && ev.mappingId == m.id && ev.plcId == m.plcId && ev.operation == m.operation
    && ev.database == m.database && ev.table == m.table && ev.schema == if m.schema == "" then "dbo" else m.schema
  }

  /** The column of the PLC's name: never a key, never required, and text; a PLC without a name is "PLC". */
  lemma PlcNameCaptured(m: Mapping, plcName: string, r: Record)
    requires |r.fields| == |r.values|
    ensures var all, n := WithPlcName(m, plcName, r), |r.fields|;
      if m.includePlcName && m.plcNameColumn != "" && n < 16 && (forall j :: 0 <= j < n ==> r.fields[j].sqlColumn != m.plcNameColumn)
      then |all.fields| == |all.values| == n + 1 && all.fields[..n] == r.fields && all.values[..n] == r.values
           && all.fields[n] == FieldMapping("", 5, m.plcNameColumn, 6, false, true, false, 1.0, 0.0, 64)
           && all.values[n] == FieldValue(true, false, 5, 0, 0, if plcName == "" then "PLC" else plcName)
      else all == r
  {
  }

  /** One value per field, no column twice, none without a name. */
  ghost predicate Tidy(r: Record) {
    && |r.fields| == |r.values|
    && ConfigRoundTrip.DistinctColumns(r.fields)
    && (forall i :: 0 <= i < |r.fields| ==> r.fields[i].sqlColumn != "")
    && (forall i :: 0 <= i < |r.fields| ==> Expressible(r.fields[i], r.values[i]))
  }

  /** A value that was read, or one that is not required. */
  predicate Expressible(f: FieldMapping, v: FieldValue) {
    v.valid || (v.isNull && !f.required)
  }

  lemma AddedTidy(r: Record, f: FieldMapping, v: FieldValue)
    requires Tidy(r) && !Skipped(r.fields, f) && Expressible(f, v)
    ensures Tidy(Added(r, f, v))
  {
  }

  /** Where the field goes, and that what is captured already stays in front. */
  ghost predicate Grows(before: Record, after: Record) {
    |before.fields| <= |after.fields| && after.fields[..|before.fields|] == before.fields
  }

  lemma {:induction false} FieldsTidy(ops: FloatOps, fs: seq<FieldMapping>, tags: seq<Option<TagValue>>, r: Record)
    requires |fs| == |tags| && Tidy(r) && CaptureFields(ops, fs, tags, r).Some?
    ensures var all := CaptureFields(ops, fs, tags, r).value;
      Tidy(all) && Grows(r, all) && |all.fields| <= |r.fields| + |fs|
    decreases |fs|
  {
    hide PlcReadField, Tidy, Skipped;
    if fs != [] {
      if Skipped(r.fields, fs[0]) {
        FieldsTidy(ops, fs[1..], tags[1..], r);
      } else {
        AddedTidy(r, fs[0], ValueOf(ops, fs[0], tags[0]));
        FieldsTidy(ops, fs[1..], tags[1..], Added(r, fs[0], ValueOf(ops, fs[0], tags[0])));
      }
    }
  }

  /** Field `i` is the first one of its column, and it has a column. */
  predicate IsFirst(fs: seq<FieldMapping>, i: nat)
    requires i < |fs|
  {
    fs[i].sqlColumn != "" && !UsedEarlier(fs, i)
  }

  /** A required field that counts cannot be read. */
  predicate Blocked(fs: seq<FieldMapping>, tags: seq<Option<TagValue>>, taken: seq<FieldMapping>) {
    |fs| == |tags|
    && exists i :: 0 <= i < |fs| && IsFirst(fs, i) && !HasColumn(taken, fs[i].sqlColumn) && fs[i].required && tags[i] == None
  }

  lemma BlockedStep(fs: seq<FieldMapping>, tags: seq<Option<TagValue>>, taken: seq<FieldMapping>)
    requires fs != [] && |fs| == |tags|
    ensures Skipped(taken, fs[0]) ==> (Blocked(fs, tags, taken) <==> Blocked(fs[1..], tags[1..], taken))
    ensures !Skipped(taken, fs[0])
      ==> (Blocked(fs, tags, taken)
           <==> (fs[0].required && tags[0] == None) || Blocked(fs[1..], tags[1..], taken + [fs[0]]))
  {
    var more := if Skipped(taken, fs[0]) then taken else taken + [fs[0]];
    forall i | 1 <= i < |fs|
      ensures IsFirst(fs, i) && !HasColumn(taken, fs[i].sqlColumn)
        <==> IsFirst(fs[1..], i - 1) && !HasColumn(more, fs[1..][i - 1].sqlColumn)
    {
      FirstBehind(fs, i, taken);
    }
    if Blocked(fs[1..], tags[1..], more) {
      var j :| 0 <= j < |fs| - 1 && IsFirst(fs[1..], j) && !HasColumn(more, fs[1..][j].sqlColumn)
               && fs[1..][j].required && tags[1..][j] == None;
      assert IsFirst(fs, j + 1) && fs[j + 1].required && tags[j + 1] == None;
    }
  }

  lemma FirstBehind(fs: seq<FieldMapping>, i: nat, taken: seq<FieldMapping>)
    requires 1 <= i < |fs|
    ensures var more := if Skipped(taken, fs[0]) then taken else taken + [fs[0]];
      IsFirst(fs, i) && !HasColumn(taken, fs[i].sqlColumn)
      <==> IsFirst(fs[1..], i - 1) && !HasColumn(more, fs[i].sqlColumn)
  {
    hide UsedEarlier, HasColumn;
    UsedBehind(fs, i);
    HasOneMore(taken, fs[0], fs[i].sqlColumn);
  }

  lemma UsedBehind(fs: seq<FieldMapping>, i: nat)
    requires 1 <= i < |fs|
    ensures UsedEarlier(fs, i) <==> fs[0].sqlColumn == fs[i].sqlColumn || UsedEarlier(fs[1..], i - 1)
  {
    if UsedEarlier(fs, i) && fs[0].sqlColumn != fs[i].sqlColumn {
      var j :| 0 <= j < i && fs[j].sqlColumn == fs[i].sqlColumn;
      assert fs[1..][j - 1].sqlColumn == fs[1..][i - 1].sqlColumn;
    }
  }

  lemma HasOneMore(fs: seq<FieldMapping>, f: FieldMapping, column: string)
    ensures HasColumn(fs + [f], column) <==> HasColumn(fs, column) || f.sqlColumn == column
  {
    if HasColumn(fs, column) {
      var j :| 0 <= j < |fs| && fs[j].sqlColumn == column;
      assert (fs + [f])[j].sqlColumn == column;
    }
    assert (fs + [f])[|fs|] == f;
  }

  lemma {:induction false} FieldsFail(ops: FloatOps, fs: seq<FieldMapping>, tags: seq<Option<TagValue>>, r: Record)
    requires |fs| == |tags|
    ensures CaptureFields(ops, fs, tags, r) == None <==> Blocked(fs, tags, r.fields)
    decreases |fs|
  {
    hide PlcReadField, Blocked;
    if fs == [] {
      NothingBlocked(fs, tags, r.fields);
    } else {
      BlockedStep(fs, tags, r.fields);
      if Skipped(r.fields, fs[0]) {
        FieldsFail(ops, fs[1..], tags[1..], r);
      } else {
        FieldsFail(ops, fs[1..], tags[1..], Added(r, fs[0], ValueOf(ops, fs[0], tags[0])));
      }
    }
  }

  lemma NothingBlocked(fs: seq<FieldMapping>, tags: seq<Option<TagValue>>, taken: seq<FieldMapping>)
    requires fs == [] && |fs| == |tags|
    ensures !Blocked(fs, tags, taken)
  {
  }

  /** The fields among the first `i` that are captured, by index. */
  function Chosen(fs: seq<FieldMapping>, i: nat): (ks: seq<nat>)
    requires i <= |fs|
    ensures forall k :: 0 <= k < |ks| ==> ks[k] < i
  {
    if i == 0 then [] else Chosen(fs, i - 1) + if IsFirst(fs, i - 1) then [i - 1] else []
  }

  /** They are in the mapping's order ... */
  lemma {:induction false} ChosenInOrder(fs: seq<FieldMapping>, i: nat, j: nat, k: nat)
    requires i <= |fs| && j < k < |Chosen(fs, i)|
    ensures Chosen(fs, i)[j] < Chosen(fs, i)[k]
    decreases i
  {
    hide IsFirst;
    if k < |Chosen(fs, i - 1)| {
      ChosenInOrder(fs, i - 1, j, k);
    }
  }

  /** ... and exactly the first ones of their columns. */
  lemma {:induction false} ChosenExactly(fs: seq<FieldMapping>, i: nat, n: nat)
    requires i <= |fs| && n < |fs|
    ensures n in Chosen(fs, i) <==> n < i && IsFirst(fs, n)
    decreases i
  {
    hide IsFirst;
    if i > 0 {
      ChosenExactly(fs, i - 1, n);
    }
  }

  /** The record holds those fields, each with what reading its own tag gave. */
  ghost predicate Holds(ops: FloatOps, fs: seq<FieldMapping>, tags: seq<Option<TagValue>>, ks: seq<nat>, r: Record)
    requires |fs| == |tags| && forall k :: 0 <= k < |ks| ==> ks[k] < |fs|
  {
    && |r.fields| == |r.values| == |ks|
    && forall k :: 0 <= k < |ks| ==> r.fields[k] == fs[ks[k]] && r.values[k] == ValueOf(ops, fs[ks[k]], tags[ks[k]])
  }

  ghost predicate Names(fs: seq<FieldMapping>, ks: seq<nat>, column: string)
    requires forall k :: 0 <= k < |ks| ==> ks[k] < |fs|
  {
    exists k :: 0 <= k < |ks| && fs[ks[k]].sqlColumn == column
  }

  ghost predicate Before(fs: seq<FieldMapping>, i: nat, column: string)
    requires i <= |fs|
  {
    exists j :: 0 <= j < i && fs[j].sqlColumn == column
  }

  lemma NamesAppend(fs: seq<FieldMapping>, ks: seq<nat>, n: nat, column: string)
    requires n < |fs| && forall k :: 0 <= k < |ks| ==> ks[k] < |fs|
    ensures Names(fs, ks + [n], column) <==> Names(fs, ks, column) || fs[n].sqlColumn == column
  {
    var more := ks + [n];
    assert more[|ks|] == n;
    if Names(fs, ks, column) {
      var k :| 0 <= k < |ks| && fs[ks[k]].sqlColumn == column;
      assert fs[more[k]].sqlColumn == column;
    }
  }

  lemma BeforeStep(fs: seq<FieldMapping>, i: nat, column: string)
    requires 0 < i <= |fs|
    ensures Before(fs, i, column) <==> Before(fs, i - 1, column) || fs[i - 1].sqlColumn == column
  {
  }

  /** Among the fields taken so far a column is found exactly if it occurs before. */
  lemma {:induction false} ChosenColumns(fs: seq<FieldMapping>, i: nat, column: string)
    requires i <= |fs| && column != ""
    ensures Names(fs, Chosen(fs, i), column) <==> Before(fs, i, column)
    decreases i
  {
    hide Names, Before;
    if i == 0 {
      NoneNamed(fs, column);
    } else {
      ChosenColumns(fs, i - 1, column);
      BeforeStep(fs, i, column);
      NamesAppend(fs, Chosen(fs, i - 1), i - 1, column);
      assert Chosen(fs, i - 1) + [] == Chosen(fs, i - 1);
      FirstBefore(fs, i - 1, column);
    }
  }

  lemma NoneNamed(fs: seq<FieldMapping>, column: string)
    ensures !Names(fs, [], column) && !Before(fs, 0, column)
  {
  }

  lemma FirstBefore(fs: seq<FieldMapping>, i: nat, column: string)
    requires i < |fs| && column != ""
    ensures fs[i].sqlColumn == column ==> (IsFirst(fs, i) <==> !Before(fs, i, column))
  {
  }

  lemma SkippedExactly(ops: FloatOps, fs: seq<FieldMapping>, tags: seq<Option<TagValue>>, i: nat, r: Record)
    requires i < |fs| == |tags| && Holds(ops, fs, tags, Chosen(fs, i), r)
    ensures Skipped(r.fields, fs[i]) <==> !IsFirst(fs, i)
  {
    hide PlcReadField, Chosen;
    if fs[i].sqlColumn != "" {
      ChosenColumns(fs, i, fs[i].sqlColumn);
      var ks := Chosen(fs, i);
      assert forall k :: 0 <= k < |ks| ==> r.fields[k].sqlColumn == fs[ks[k]].sqlColumn;
    }
  }

  lemma {:induction false} FieldsHeld(ops: FloatOps, fs: seq<FieldMapping>, tags: seq<Option<TagValue>>, i: nat, r: Record)
    requires i <= |fs| == |tags| && Holds(ops, fs, tags, Chosen(fs, i), r)
    ensures CaptureFields(ops, fs[i..], tags[i..], r).Some?
      ==> Holds(ops, fs, tags, Chosen(fs, |fs|), CaptureFields(ops, fs[i..], tags[i..], r).value)
    decreases |fs| - i
  {
    hide PlcReadField, IsFirst, Skipped;
    if i < |fs| {
      assert fs[i..][1..] == fs[i + 1..] && tags[i..][1..] == tags[i + 1..];
      SkippedExactly(ops, fs, tags, i, r);
      if Skipped(r.fields, fs[i]) {
        FieldsHeld(ops, fs, tags, i + 1, r);
      } else {
        FieldsHeld(ops, fs, tags, i + 1, Added(r, fs[i], ValueOf(ops, fs[i], tags[i])));
      }
    }
  }

  /** Only the PLC's name may follow the fields that were read. */
  ghost predicate Completed(ops: FloatOps, m: Mapping, plcName: string, tags: seq<Option<TagValue>>, r: Record, all: Record)
    requires |m.fields| == |tags|
  {
    Holds(ops, m.fields, tags, Chosen(m.fields, |m.fields|), r) && all == WithPlcName(m, plcName, r)
  }

  /**
   * A capture fails exactly if a required field that counts cannot be read, or
   * if there is nothing to capture. Otherwise the event holds the first field
   * of each column, in order, with its tag's value, and then the PLC's name.
   */
  lemma CaptureExact(ops: FloatOps, m: Mapping, plcName: string, tags: seq<Option<TagValue>>, stamp: Stamp)
    requires |m.fields| == |tags|
    ensures Captured(ops, m, plcName, tags, stamp) == None
      <==> Blocked(m.fields, tags, []) || (Chosen(m.fields, |m.fields|) == [] && !NeedsPlcName(m, []))
    ensures Captured(ops, m, plcName, tags, stamp).Some?
      ==> exists r, all :: Completed(ops, m, plcName, tags, r, all) && Tidy(all)
                           && Captured(ops, m, plcName, tags, stamp) == Some(Stamped(m, stamp, all))
    ensures Captured(ops, m, plcName, tags, stamp).Some?
      ==> IsStamped(Captured(ops, m, plcName, tags, stamp).value, m, stamp)
  {
    hide Blocked, Tidy, Holds, Chosen;
    var fs := m.fields;
    assert fs[0..] == fs && tags[0..] == tags;
    NothingTaken(ops, fs, tags);
    FieldsFail(ops, fs, tags, NOTHING);
    FieldsHeld(ops, fs, tags, 0, NOTHING);
    var taken := CaptureFields(ops, fs, tags, NOTHING);
    if taken.Some? {
      FieldsTidy(ops, fs, tags, NOTHING);
      NameTidy(m, plcName, taken.value);
      HoldsSize(ops, fs, tags, Chosen(fs, |fs|), taken.value);
      assert Completed(ops, m, plcName, tags, taken.value, WithPlcName(m, plcName, taken.value));
    }
  }

  lemma NothingTaken(ops: FloatOps, fs: seq<FieldMapping>, tags: seq<Option<TagValue>>)
    requires |fs| == |tags|
    ensures Holds(ops, fs, tags, Chosen(fs, 0), NOTHING) && Tidy(NOTHING)
  {
  }

  lemma HoldsSize(ops: FloatOps, fs: seq<FieldMapping>, tags: seq<Option<TagValue>>, ks: seq<nat>, r: Record)
    requires |fs| == |tags| && (forall k :: 0 <= k < |ks| ==> ks[k] < |fs|) && Holds(ops, fs, tags, ks, r)
    ensures r.fields == [] <==> ks == []
  {
  }

  lemma NameTidy(m: Mapping, plcName: string, r: Record)
    requires Tidy(r)
    ensures Tidy(WithPlcName(m, plcName, r))
  {
    hide Tidy;
    if NeedsPlcName(m, r.fields) {
      AddedTidy(r, PlcNameField(m.plcNameColumn), PlcNameValue(plcName));
    }
  }
}
