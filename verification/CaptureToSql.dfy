/** From the PLC's tags to the statement. */
module CaptureToSql {
  // What an accepted mapping captures, that the queue can hold it, and what the
  // database is told of it.

  import opened Bytes
  import opened GatewayTypes
  import opened Decimals
  import opened SqlText
  import opened PlcRead
  import opened ConfigBlob
  import opened Capture
  import Checks = ConfigRoundTrip
  import SqlParse
  import Serializer
  import DrainLedger

  // ----- An accepted mapping -----

  function ReadAll(ops: FloatOps, fs: seq<FieldMapping>, tags: seq<Option<TagValue>>): (vs: seq<FieldValue>)
    requires |fs| == |tags|
    ensures |vs| == |fs| && forall k :: 0 <= k < |fs| ==> vs[k] == ValueOf(ops, fs[k], tags[k])
  {
    if fs == [] then [] else [ValueOf(ops, fs[0], tags[0])] + ReadAll(ops, fs[1..], tags[1..])
  }

  /** With distinct columns every field is chosen. */
  lemma {:induction false} ChosenAll(fs: seq<FieldMapping>, i: nat)
    requires i <= |fs| && Checks.DistinctColumns(fs) && forall k :: 0 <= k < |fs| ==> fs[k].sqlColumn != ""
    ensures |Chosen(fs, i)| == i && forall k :: 0 <= k < i ==> Chosen(fs, i)[k] == k
    decreases i
  {
    if i > 0 {
      ChosenAll(fs, i - 1);
    }
  }

  /** What an accepted mapping's event holds. */
  function FullRecord(ops: FloatOps, m: Mapping, plcName: string, tags: seq<Option<TagValue>>): Record
    requires |m.fields| == |tags|
  {
    var r := Record(m.fields, ReadAll(ops, m.fields, tags));
    if m.includePlcName then Added(r, PlcNameField(m.plcNameColumn), PlcNameValue(plcName)) else r
  }

  lemma AcceptedColumns(m: Mapping, plcs: seq<Plc>)
    requires Checks.MappingAccepted(m, plcs)
    ensures Checks.DistinctColumns(m.fields) && m.fields != [] && m.table != ""
    ensures forall k :: 0 <= k < |m.fields| ==> m.fields[k].sqlColumn != ""
    ensures m.includePlcName <==> NeedsPlcName(m, m.fields)
  {
  }

  lemma BlockedByRequired(fs: seq<FieldMapping>, tags: seq<Option<TagValue>>)
    requires |fs| == |tags| && Checks.DistinctColumns(fs) && forall k :: 0 <= k < |fs| ==> fs[k].sqlColumn != ""
    ensures Blocked(fs, tags, []) <==> exists i :: 0 <= i < |fs| && fs[i].required && tags[i] == None
  {
    if i :| 0 <= i < |fs| && fs[i].required && tags[i] == None {
      assert IsFirst(fs, i) && !HasColumn([], fs[i].sqlColumn);
    }
  }

  lemma HoldsAll(ops: FloatOps, fs: seq<FieldMapping>, tags: seq<Option<TagValue>>, r: Record)
    requires |fs| == |tags| && Checks.DistinctColumns(fs) && forall k :: 0 <= k < |fs| ==> fs[k].sqlColumn != ""
    requires Holds(ops, fs, tags, Chosen(fs, |fs|), r)
    ensures r == Record(fs, ReadAll(ops, fs, tags))
  {
    hide PlcReadField, ValueOf, Chosen;
    ChosenAll(fs, |fs|);
    assert r.fields == fs;
    assert r.values == ReadAll(ops, fs, tags);
  }

  /**
   * For a mapping that passed validation nothing is skipped: the event holds
   * every field in order, each with its own tag, and the PLC's name if asked
   * for; and it fails exactly if a required tag cannot be read.
   */
  lemma AcceptedCapture(ops: FloatOps, m: Mapping, plcs: seq<Plc>, plcName: string, tags: seq<Option<TagValue>>, stamp: Stamp)
    requires Checks.MappingAccepted(m, plcs) && |m.fields| == |tags|
    ensures Captured(ops, m, plcName, tags, stamp)
      == if exists i :: 0 <= i < |m.fields| && m.fields[i].required && tags[i] == None then None
         else Some(Stamped(m, stamp, FullRecord(ops, m, plcName, tags)))
  {
    hide Checks.MappingAccepted, Captured, Blocked, Chosen, Holds, Tidy, ReadAll, NeedsPlcName, Checks.DistinctColumns;
    AcceptedColumns(m, plcs);
    ChosenAll(m.fields, |m.fields|);
    BlockedByRequired(m.fields, tags);
    CaptureExact(ops, m, plcName, tags, stamp);
    if Captured(ops, m, plcName, tags, stamp).Some? {
      var r, all :| Completed(ops, m, plcName, tags, r, all) && Tidy(all)
                    && Captured(ops, m, plcName, tags, stamp) == Some(Stamped(m, stamp, all));
      HoldsAll(ops, m.fields, tags, r);
    }
  }

  // ----- The queue can hold it -----

  ghost predicate MappingFits(m: Mapping) {
    && Fits(m.database, DATABASE_LEN) && Fits(m.schema, SCHEMA_LEN) && Fits(m.table, TABLE_LEN)
    && Fits(m.plcNameColumn, MAX_SQL_IDENT_LEN) && |m.fields| <= MAX_FIELDS_PER_MAPPING
    && forall i :: 0 <= i < |m.fields| ==> ValidField(m.fields[i])
  }

  lemma NumberFits(n: int)
    requires -0x1_0000_0000_0000_0000 < n < 0x1_0000_0000_0000_0000
    ensures Fits(SignedDecimal(n), MAX_STRING_VALUE_LEN)
  {
    hide Decimal, Written;
    var m := if n < 0 then -n else n;
    WrittenDecimal(m);
    DecimalLength64(m);
  }

  lemma DecimalLength64(n: nat)
    requires n < 0x1_0000_0000_0000_0000
    ensures |Decimal(n)| <= 20
  {
    hide Decimal;
    assert Pow10(5) == 100000 by { assert Pow10(2) == 100; }
    assert Pow10(10) == 10000000000 by { assert Pow10(7) == 10000000; }
    assert Pow10(15) == 1000000000000000 by { assert Pow10(12) == 1000000000000; }
    assert Pow10(20) == 100000000000000000000 by { assert Pow10(17) == 100000000000000000; }
    DecimalLength(n, 20);
  }

  lemma IntTextFits(t: byte, i: i64)
    ensures Fits(IntText(t, i), MAX_STRING_VALUE_LEN) && Fits(SignedDecimal(i), MAX_STRING_VALUE_LEN)
  {
    hide Decimal;
    NumberFits(i);
    NumberFits(AsUnsigned(i));
  }

  lemma ValueFits(ops: FloatOps, f: FieldMapping, tag: Option<TagValue>)
    requires TextsFit(ops)
    ensures ValidValue(ValueOf(ops, f, tag))
  {
    hide IntText, SignedDecimal, Fits;
    assert Fits("", MAX_STRING_VALUE_LEN) && Fits("1", MAX_STRING_VALUE_LEN) && Fits("0", MAX_STRING_VALUE_LEN) by { ShortFits(); }
    if tag.Some? {
      var t := InferredType(f, tag.value);
      IntTextFits(t, IntSlot(t, tag.value.data));
      var raw := RawValue(ops, t, tag.value);
      assert ValidValue(raw);
      IntTextFits(t, ops.rescaleInt(raw.i64, f.scale, f.offset));
    }
  }

  lemma ShortFits()
    ensures Fits("", MAX_STRING_VALUE_LEN) && Fits("1", MAX_STRING_VALUE_LEN) && Fits("0", MAX_STRING_VALUE_LEN)
    ensures Fits("", MAX_TAG_LEN)
  {
  }

  /** Every event of an accepted mapping fits the record, so it can be serialized, and comes back as what is stored of it. */
  lemma CapturedFits(ops: FloatOps, m: Mapping, plcs: seq<Plc>, plcName: string, tags: seq<Option<TagValue>>, stamp: Stamp)
    requires Checks.MappingAccepted(m, plcs) && |m.fields| == |tags|
    requires MappingFits(m) && TextsFit(ops) && Fits(plcName, MAX_STRING_VALUE_LEN)
    ensures ValidEvent(Stamped(m, stamp, FullRecord(ops, m, plcName, tags)))
  {
    hide ValueOf, Checks.MappingAccepted;
    NamedFits(m, plcs);
    var ev := Stamped(m, stamp, FullRecord(ops, m, plcName, tags));
    forall k | 0 <= k < |tags|
      ensures ValidField(ev.fields[k]) && ValidValue(ev.values[k])
    {
      ValueFits(ops, m.fields[k], tags[k]);
    }
  }

  lemma NamedFits(m: Mapping, plcs: seq<Plc>)
    requires Checks.MappingAccepted(m, plcs)
    ensures m.includePlcName ==> |m.fields| < MAX_FIELDS_PER_MAPPING
  {
  }

  // ----- The statement -----

  /** What the queue keeps of an expressible value has a literal. */
  lemma HasMeaning(fmt: Formats, f: FieldMapping, v: FieldValue)
    requires Expressible(f, v)
    ensures Meaning(fmt, Serializer.PersistedField(f), Serializer.PersistedValue(f, v)).Some?
  {
    hide IntText, ValueAsText, Trim;
  }

  ghost predicate AllMean(fmt: Formats, fs: seq<FieldMapping>, vs: seq<FieldValue>)
    requires |fs| == |vs|
  {
    forall i :: 0 <= i < |fs| ==> Meaning(fmt, fs[i], vs[i]).Some?
  }

  lemma {:induction false} ValuesMean(fmt: Formats, fs: seq<FieldMapping>, vs: seq<FieldValue>, i: nat, first: bool)
    requires i <= |fs| == |vs| && AllMean(fmt, fs, vs)
    ensures ValuesFrom(fmt, fs, vs, i, first).Some?
    decreases |fs| - i
  {
    hide Meaning, UsedEarlier, LiteralText;
    if i < |fs| {
      ValuesMean(fmt, fs, vs, i + 1, first);
      ValuesMean(fmt, fs, vs, i + 1, false);
    }
  }

  lemma {:induction false} PairsMean(fmt: Formats, fs: seq<FieldMapping>, vs: seq<FieldValue>, i: nat, keys: bool,
                                     separator: string, first: bool)
    requires i <= |fs| == |vs| && AllMean(fmt, fs, vs)
    ensures PairsFrom(fmt, fs, vs, i, keys, separator, first).Some?
    decreases |fs| - i
  {
    hide Meaning, UsedEarlier, LiteralText, Ident;
    if i < |fs| {
      PairsMean(fmt, fs, vs, i + 1, keys, separator, first);
      PairsMean(fmt, fs, vs, i + 1, keys, separator, false);
    }
  }

  lemma RecordMeans(fmt: Formats, r: Record)
    requires Tidy(r)
    ensures AllMean(fmt, Serializer.PersistedFields(r.fields), Serializer.PersistedValues(r.fields, r.values))
  {
    hide Meaning, Expressible, Serializer.PersistedFields, Serializer.PersistedValues;
    forall i | 0 <= i < |r.fields|
      ensures Meaning(fmt, Serializer.PersistedFields(r.fields)[i], Serializer.PersistedValues(r.fields, r.values)[i]).Some?
    {
      SqlParse.PersistedAt(r.fields, r.values, i);
      HasMeaning(fmt, r.fields[i], r.values[i]);
    }
  }

  /**
   * No captured value is ever refused by the statement: what the queue returns
   * of an event has one exactly if it names a table and, for an update, a key.
   */
  lemma CapturedStatement(ops: FloatOps, m: Mapping, plcName: string, tags: seq<Option<TagValue>>, stamp: Stamp,
                          cfg: SqlConfig, fmt: Formats)
    requires |m.fields| == |tags| && Captured(ops, m, plcName, tags, stamp).Some?
    ensures var ev := Captured(ops, m, plcName, tags, stamp).value;
      && |ev.fields| == |ev.values|
      && (Statement(Serializer.Persisted(ev), cfg, fmt).Some?
          <==> m.table != "" && (m.operation == OP_INSERT || HasKey(ev.fields)))
  {
    hide Captured, Tidy, Meaning, ValuesFrom, PairsFrom, HasKey, Serializer.PersistedFields, Serializer.PersistedValues;
    hide InsertText, UpdateText, Completed;
    CaptureExact(ops, m, plcName, tags, stamp);
    var r, all :| Completed(ops, m, plcName, tags, r, all) && Tidy(all)
                  && Captured(ops, m, plcName, tags, stamp) == Some(Stamped(m, stamp, all));
    SameSizes(all);
    assert all.fields != [] by { CapturedSome(ops, m, plcName, tags, stamp); }
    var ev := Stamped(m, stamp, all);
    var fs, vs := Serializer.PersistedFields(ev.fields), Serializer.PersistedValues(ev.fields, ev.values);
    RecordMeans(fmt, all);
    ValuesMean(fmt, fs, vs, 0, true);
    PairsMean(fmt, fs, vs, 0, false, ", ", true);
    PairsMean(fmt, fs, vs, 0, true, " AND ", true);
    SqlParse.HasKeyKept(ev.fields, ev.values);
  }

  lemma SameSizes(r: Record)
    requires Tidy(r)
    ensures |r.fields| == |r.values|
  {
  }

  lemma CapturedSome(ops: FloatOps, m: Mapping, plcName: string, tags: seq<Option<TagValue>>, stamp: Stamp)
    requires |m.fields| == |tags|
    ensures Captured(ops, m, plcName, tags, stamp).Some? ==> Captured(ops, m, plcName, tags, stamp).value.fields != []
  {
  }

  /**
   * So an event of an accepted mapping, once queued, is never set aside for
   * want of a statement: only one too long for the buffer can be.
   */
  lemma AcceptedWritable(ops: FloatOps, m: Mapping, plcs: seq<Plc>, plcName: string, tags: seq<Option<TagValue>>, stamp: Stamp,
                         cfg: SqlConfig, fmt: Formats)
    requires Checks.MappingAccepted(m, plcs) && |m.fields| == |tags| && m.operation in {OP_INSERT, OP_UPDATE}
    requires Captured(ops, m, plcName, tags, stamp).Some?
    ensures var ev := Captured(ops, m, plcName, tags, stamp).value;
      && |ev.fields| == |ev.values|
      && Statement(Serializer.Persisted(ev), cfg, fmt).Some?
      && (DrainLedger.Writable(Serializer.Persisted(ev), cfg, fmt)
          <==> |Statement(Serializer.Persisted(ev), cfg, fmt).value| < DrainLedger.SQL_CAP)
  {
    hide Captured, HasKey, Statement, Checks.MappingAccepted, PlcReadField, NeedsPlcName;
    AcceptedColumns(m, plcs);
    AcceptedCapture(ops, m, plcs, plcName, tags, stamp);
    CapturedStatement(ops, m, plcName, tags, stamp, cfg, fmt);
    AcceptedKey(m, plcs);
    var ev := Stamped(m, stamp, FullRecord(ops, m, plcName, tags));
    if m.operation == OP_UPDATE {
      KeyStays(m.fields, ev.fields);
    }
  }

  lemma AcceptedKey(m: Mapping, plcs: seq<Plc>)
    requires Checks.MappingAccepted(m, plcs)
    ensures m.operation == OP_UPDATE ==> HasKey(m.fields)
  {
    if m.operation == OP_UPDATE {
      var i :| 0 <= i < |m.fields| && m.fields[i].isWhereKey;
      assert !UsedEarlier(m.fields, i);
    }
  }

  lemma KeyStays(fs: seq<FieldMapping>, more: seq<FieldMapping>)
    requires fs <= more && HasKey(fs)
    ensures HasKey(more)
  {
    var i :| 0 <= i < |fs| && fs[i].isWhereKey && !UsedEarlier(fs, i);
    assert forall j :: 0 <= j <= i ==> more[j] == fs[j];
    assert !UsedEarlier(more, i);
  }

  // ----- From the tag to the parsed statement -----

  lemma {:induction false} KeptAll(fs: seq<FieldMapping>, i: nat)
    requires i <= |fs| && Checks.DistinctColumns(fs)
    ensures |SqlParse.Kept(fs, i)| == |fs| - i
    ensures forall k :: 0 <= k < |fs| - i ==> SqlParse.Kept(fs, i)[k] == i + k
    decreases |fs| - i
  {
    if i < |fs| {
      assert !UsedEarlier(fs, i);
      KeptAll(fs, i + 1);
    }
  }

  /** How many columns stand before the captured ones: the event id's, if the configuration names one. */
  function Before(cfg: SqlConfig): nat {
    if cfg.eventIdColumn.Some? then 1 else 0
  }

  /** The statement's target: the default database stands in for none, and "dbo" for no schema. */
  ghost predicate Addressed(ins: SqlParse.Insert, database: string, schema: string, table: string, cfg: SqlConfig) {
    ins.target == (if database != "" then [database] else if cfg.defaultDatabase != "" then [cfg.defaultDatabase] else [])
                  + [if schema != "" then schema else "dbo", table]
  }

  /** The parsed INSERT names the event's target, id and columns in order, each with its stored value's literal. */
  ghost predicate Carries(ins: SqlParse.Insert, ev: CapturedEvent, cfg: SqlConfig, fmt: Formats)
    requires |ev.fields| == |ev.values|
  {
    var n := Before(cfg);
    && Addressed(ins, ev.database, ev.schema, ev.table, cfg)
    && |ins.columns| == |ins.values| == n + |ev.fields|
    && (n == 1 ==> ins.columns[0] == cfg.eventIdColumn.value && ins.values[0] == Bare(Decimal(ev.eventId)))
    && (forall k :: 0 <= k < |ev.fields| ==> ins.columns[n + k] == ev.fields[k].sqlColumn)
    && (forall k :: 0 <= k < |ev.fields| ==> Stored(fmt, ev.fields[k], ev.values[k]) == Some(ins.values[n + k]))
  }

  /** The literal for what the queue stores of a value. */
  function Stored(fmt: Formats, f: FieldMapping, v: FieldValue): Option<Literal> {
    Meaning(fmt, Serializer.PersistedField(f), Serializer.PersistedValue(f, v))
  }

  lemma PersistedColumns(fs: seq<FieldMapping>, vs: seq<FieldValue>)
    requires |fs| == |vs|
    ensures Checks.DistinctColumns(fs) ==> Checks.DistinctColumns(Serializer.PersistedFields(fs))
    ensures SqlParse.BracketFree(fs) ==> SqlParse.BracketFree(Serializer.PersistedFields(fs))
    ensures forall k :: 0 <= k < |fs| ==> Serializer.PersistedFields(fs)[k] == Serializer.PersistedField(fs[k])
    ensures forall k :: 0 <= k < |fs| ==> Serializer.PersistedValues(fs, vs)[k] == Serializer.PersistedValue(fs[k], vs[k])
  {
    hide Serializer.PersistedFields, Serializer.PersistedValues;
    forall k | 0 <= k < |fs|
      ensures Serializer.PersistedFields(fs)[k] == Serializer.PersistedField(fs[k])
      ensures Serializer.PersistedValues(fs, vs)[k] == Serializer.PersistedValue(fs[k], vs[k])
    {
      SqlParse.PersistedAt(fs, vs, k);
    }
  }

  lemma QueuedInsert(ev: CapturedEvent, cfg: SqlConfig, fmt: Formats)
    requires |ev.fields| == |ev.values| && ev.operation == OP_INSERT && Checks.DistinctColumns(ev.fields)
    requires SqlParse.BracketFreeNames(ev, cfg) && SqlParse.PlainFormats(fmt)
    requires Statement(Serializer.Persisted(ev), cfg, fmt).Some?
    ensures var ins := SqlParse.ParseInsert(Statement(Serializer.Persisted(ev), cfg, fmt).value);
      ins.Some? && Carries(ins.value, ev, cfg, fmt)
  {
    hide Statement, SqlParse.ParseInsert, Meaning, SqlParse.PlainFormats, SqlParse.Kept, SqlParse.LiteralList, SqlParse.ColumnList;
    hide Checks.DistinctColumns, Serializer.PersistedFields, Serializer.PersistedValues, Serializer.PersistedField, Decimal;
    hide Serializer.PersistedValue, SqlParse.BracketFree;
    hide SqlParse.TargetNames, SqlParse.BracketFreeNames, Addressed, SqlParse.AllColumns, SqlParse.AllLiterals;
    var back := Serializer.Persisted(ev);
    PersistedColumns(ev.fields, ev.values);
    assert SqlParse.BracketFreeNames(back, cfg) by { PersistedFree(ev, cfg); }
    SqlParse.InsertReparses(back, cfg, fmt);
    var ins := SqlParse.ParseInsert(Statement(back, cfg, fmt).value).value;
    assert Addressed(ins, ev.database, ev.schema, ev.table, cfg) by { SameTarget(ev, ins, cfg); }
    ListsOf(back, cfg, fmt);
    SqlParse.ListsFollowKept(fmt, back.fields, back.values, 0);
    KeptAll(back.fields, 0);
    FieldColumns(ev.fields);
  }

  lemma PersistedFree(ev: CapturedEvent, cfg: SqlConfig)
    requires |ev.fields| == |ev.values| && SqlParse.BracketFreeNames(ev, cfg)
    ensures SqlParse.BracketFreeNames(Serializer.Persisted(ev), cfg)
  {
    hide SqlParse.NoBracket, Serializer.PersistedFields, Serializer.PersistedValues, SqlParse.BracketFree;
    PersistedColumns(ev.fields, ev.values);
  }

  lemma SameTarget(ev: CapturedEvent, ins: SqlParse.Insert, cfg: SqlConfig)
    requires |ev.fields| == |ev.values|
    requires var back := Serializer.Persisted(ev);
      ins.target == (if back.database != "" then [back.database] else if cfg.defaultDatabase != "" then [cfg.defaultDatabase] else [])
                    + [if back.schema != "" then back.schema else "dbo", back.table]
    ensures Addressed(ins, ev.database, ev.schema, ev.table, cfg)
  {
    hide Serializer.PersistedFields, Serializer.PersistedValues;
  }

  /** The lists with and without the event id in front. */
  lemma ListsOf(ev: CapturedEvent, cfg: SqlConfig, fmt: Formats)
    requires |ev.fields| == |ev.values| && SqlParse.LiteralList(fmt, ev.fields, ev.values, 0).Some?
    ensures var n, columns, literals := Before(cfg), SqlParse.AllColumns(ev, cfg), SqlParse.AllLiterals(ev, cfg, fmt);
      && |columns| == n + |SqlParse.ColumnList(ev.fields, 0)|
      && |literals| == n + |SqlParse.LiteralList(fmt, ev.fields, ev.values, 0).value|
      && columns[n..] == SqlParse.ColumnList(ev.fields, 0)
      && literals[n..] == SqlParse.LiteralList(fmt, ev.fields, ev.values, 0).value
      && (n == 1 ==> columns[0] == cfg.eventIdColumn.value && literals[0] == Bare(Decimal(ev.eventId)))
  {
    hide SqlParse.ColumnList, SqlParse.LiteralList, Decimal;
  }

  lemma FieldColumns(fs: seq<FieldMapping>)
    ensures forall k :: 0 <= k < |fs| ==> Serializer.PersistedField(fs[k]).sqlColumn == fs[k].sqlColumn
  {
  }

  lemma SafeNoBracket(s: string)
    requires Checks.IsSafeSqlIdent(s) || Checks.IsSafeIdent(s)
    ensures SqlParse.NoBracket(s)
  {
  }

  ghost predicate PlainConfig(cfg: SqlConfig) {
    SqlParse.NoBracket(cfg.defaultDatabase) && (cfg.eventIdColumn.Some? ==> SqlParse.NoBracket(cfg.eventIdColumn.value))
  }

  /** The checks let no bracket into a name. */
  lemma AcceptedNames(ops: FloatOps, m: Mapping, plcs: seq<Plc>, plcName: string, tags: seq<Option<TagValue>>, stamp: Stamp,
                      cfg: SqlConfig)
    requires Checks.MappingAccepted(m, plcs) && |m.fields| == |tags| && PlainConfig(cfg)
    ensures SqlParse.BracketFreeNames(Stamped(m, stamp, FullRecord(ops, m, plcName, tags)), cfg)
  {
    hide Checks.IsSafeSqlIdent, Checks.IsSafeIdent, ReadAll, SqlParse.NoBracket;
    SafeNoBracket(m.table);
    assert SqlParse.NoBracket(DEFAULT_SCHEMA) by { ShortNoBracket(); }
    if m.schema != "" { SafeNoBracket(m.schema); }
    if m.database != "" { SafeNoBracket(m.database); }
    if m.includePlcName { SafeNoBracket(m.plcNameColumn); }
    forall k | 0 <= k < |m.fields|
      ensures SqlParse.NoBracket(m.fields[k].sqlColumn)
    {
      SafeNoBracket(m.fields[k].sqlColumn);
    }
  }

  lemma ShortNoBracket()
    ensures SqlParse.NoBracket("dbo")
  {
  }

  lemma FullRecordTidy(ops: FloatOps, m: Mapping, plcs: seq<Plc>, plcName: string, tags: seq<Option<TagValue>>)
    requires Checks.MappingAccepted(m, plcs) && |m.fields| == |tags|
    ensures var r := FullRecord(ops, m, plcName, tags);
      && |r.fields| == |r.values| && |m.fields| <= |r.fields| && Checks.DistinctColumns(r.fields)
      && forall k :: 0 <= k < |m.fields| ==> r.fields[k] == m.fields[k] && r.values[k] == ValueOf(ops, m.fields[k], tags[k])
  {
    hide ValueOf, Checks.IsSafeSqlIdent;
    AcceptedColumns(m, plcs);
  }

  /** An integer tag for an integer column: its number is at that position, exactly if the types agree on it. */
  ghost predicate TagExact(ins: SqlParse.Insert, f: FieldMapping, tag: Option<TagValue>, at: nat) {
    at < |ins.values|
    && (tag.Some? && WholeInteger(f, tag.value) && f.sqlType in {1, 2, 3, 9}
        ==> var n := TagNumber(tag.value).value;
            ins.values[at] == Bare(SignedDecimal(n)) <==> WrittenRight(f.plcType, n))
  }

  ghost predicate TagsExact(ins: SqlParse.Insert, m: Mapping, tags: seq<Option<TagValue>>, cfg: SqlConfig)
    requires |m.fields| == |tags|
  {
    forall k :: 0 <= k < |m.fields| ==> TagExact(ins, m.fields[k], tags[k], Before(cfg) + k)
  }

  /** The event survives the queue, and what comes back has a statement that parses to all of the above. */
  ghost predicate Arrives(ev: CapturedEvent, m: Mapping, tags: seq<Option<TagValue>>, cfg: SqlConfig, fmt: Formats)
    requires |m.fields| == |tags|
  {
    && ValidEvent(ev) && |ev.fields| == |ev.values|
    && var back := Serializer.Persisted(ev);
    && Serializer.Decode(Serializer.Encode(ev)) == Some(back)
    && Statement(back, cfg, fmt).Some?
    && var ins := SqlParse.ParseInsert(Statement(back, cfg, fmt).value);
    ins.Some? && Carries(ins.value, ev, cfg, fmt) && TagsExact(ins.value, m, tags, cfg) && Addressed(ins.value, m.database, m.schema, m.table, cfg)
  }

  /**
   * End to end, for an accepted INSERT mapping: the statement made from what
   * the queue returns parses to the target and every column, once and in
   * order; and at the position of each integer tag bound for an integer column
   * stands the number that the PLC's bytes mean - exactly if the configured
   * type reads it alike.
   */
  lemma TagsReachStatement(ops: FloatOps, m: Mapping, plcs: seq<Plc>, plcName: string, tags: seq<Option<TagValue>>, stamp: Stamp,
                           cfg: SqlConfig, fmt: Formats)
    requires Checks.MappingAccepted(m, plcs) && |m.fields| == |tags| && m.operation == OP_INSERT
    requires MappingFits(m) && TextsFit(ops) && Fits(plcName, MAX_STRING_VALUE_LEN) && PlainConfig(cfg)
    requires SqlParse.PlainFormats(fmt) && SaneFormats(fmt)
    requires Captured(ops, m, plcName, tags, stamp).Some?
    ensures Arrives(Captured(ops, m, plcName, tags, stamp).value, m, tags, cfg, fmt)
  {
    hide Captured, Statement, SqlParse.ParseInsert, SqlParse.BracketFreeNames, SqlParse.PlainFormats, SaneFormats, ValidEvent;
    hide Serializer.Decode, Serializer.Encode, Checks.MappingAccepted, FullRecord, Checks.DistinctColumns, MappingFits, TextsFit;
    hide PlcReadField, TagExact, Meaning, Serializer.PersistedFields, Serializer.PersistedValues;
    var ev := Stamped(m, stamp, FullRecord(ops, m, plcName, tags));
    AcceptedCapture(ops, m, plcs, plcName, tags, stamp);
    CapturedFits(ops, m, plcs, plcName, tags, stamp);
    Serializer.DecodeEncode(ev);
    AcceptedWritable(ops, m, plcs, plcName, tags, stamp, cfg, fmt);
    AcceptedNames(ops, m, plcs, plcName, tags, stamp, cfg);
    FullRecordTidy(ops, m, plcs, plcName, tags);
    QueuedInsert(ev, cfg, fmt);
    var ins := SqlParse.ParseInsert(Statement(Serializer.Persisted(ev), cfg, fmt).value).value;
    forall k | 0 <= k < |m.fields|
      ensures TagExact(ins, m.fields[k], tags[k], Before(cfg) + k)
    {
      TagAt(ops, fmt, m.fields[k], tags[k], ins, Before(cfg) + k);
    }
  }

  lemma TagAt(ops: FloatOps, fmt: Formats, f: FieldMapping, tag: Option<TagValue>, ins: SqlParse.Insert, at: nat)
    requires SaneFormats(fmt) && at < |ins.values|
    requires Stored(fmt, f, ValueOf(ops, f, tag)) == Some(ins.values[at])
    ensures TagExact(ins, f, tag, at)
  {
    hide Meaning, PlcReadField, SaneFormats, SignedDecimal, TagNumber, Serializer.PersistedField;
    if tag.Some? && WholeInteger(f, tag.value) && f.sqlType in {1, 2, 3, 9} {
      NumberWritten(ops, fmt, f, tag.value);
    }
  }
}
