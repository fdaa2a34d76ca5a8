/** BuildSqlFromEvent: writing the statement into a buffer of fixed size. */
module SqlBuild {
  import opened Bytes
  import opened GatewayTypes
  import opened SqlText
  import opened Decimals

  /** An append succeeds exactly if the piece and the NUL behind it fit. */
  ghost predicate Appends(before: string, piece: string, cap: nat, ok: bool, after: string) {
    && (ok <==> |before| + |piece| < cap)
    && (ok ==> after == before + piece)
    && |before| <= |after| < cap
  }

  /** A char buffer with its cursor: what is written so far, NUL excluded. */
  class SqlBuffer {
    const cap: nat
    var text: string

    constructor (cap: nat)
      ensures this.cap == cap && text == ""
    {
      this.cap, text := cap, "";
    }

    method Append(s: string) returns (ok: bool)
      requires |text| < cap
      modifies this
      ensures Appends(old(text), s, cap, ok, text)
    {
      ok := |text| + |s| + 1 <= cap;
      if ok {
        text := text + s;
      }
    }

    method AppendIdent(id: string) returns (ok: bool)
      requires |text| < cap
      modifies this
      ensures Appends(old(text), Ident(id), cap, ok, text)
    {
      ok := Append("[");
      if !ok {
        return;
      }
      ok := Append(id);
      if !ok {
        return;
      }
      ok := Append("]");
      Assoc(old(text), "[", id + "]");
      Assoc(old(text) + "[", id, "]");
    }

    /** AppendSqlStringLiteral: blanks at both ends are dropped, quotes doubled. */
    method AppendStringLiteral(s: string) returns (ok: bool)
      requires |text| < cap
      modifies this
      ensures Appends(old(text), Quoted(s), cap, ok, text)
    {
      hide TrimLeft, TrimRight;
      var start, end := 0, |s|;
      assert s[0..] == s;
      while start < |s| && IsBlank(s[start])
        invariant start <= |s| && TrimLeft(s[start..]) == TrimLeft(s)
        invariant text == old(text)
      {
        TrimLeftStep(s[start..]);
        assert s[start..][1..] == s[start + 1..];
        start := start + 1;
      }
      TrimLeftStep(s[start..]);
      ghost var left := s[start..];
      assert s[start..end] == left;
      while end > start && IsBlank(s[end - 1])
        invariant start <= end <= |s| && TrimRight(s[start..end]) == TrimRight(left)
        invariant text == old(text)
      {
        TrimRightStep(s[start..end]);
        assert s[start..end][..end - start - 1] == s[start..end - 1];
        end := end - 1;
      }
      TrimRightStep(s[start..end]);
      assert s[start..end] == Trim(s);
      ok := AppendEscaped(s[start..end]);
    }

    method AppendEscaped(t: string) returns (ok: bool)
      requires |text| < cap
      modifies this
      ensures Appends(old(text), "N'" + (Escaped(t) + "'"), cap, ok, text)
    {
      hide Escaped;
      ok := Append("N'");
      if !ok {
        return;
      }
      ghost var base := text;
      ok := AppendCharacters(t);
      if !ok {
        return;
      }
      ok := Append("'");
      Assoc(base, Escaped(t), "'");
      Assoc(old(text), "N'", Escaped(t) + "'");
    }

    method AppendCharacters(t: string) returns (ok: bool)
      requires |text| < cap
      modifies this
      ensures Appends(old(text), Escaped(t), cap, ok, text)
    {
      hide Escaped;
      ok := true;
      assert t[0..] == t;
      for i := 0 to |t|
        invariant ok && text + Escaped(t[i..]) == old(text) + Escaped(t)
        invariant |old(text)| <= |text| < cap
      {
        EscapedStep(t, i);
        Assoc(text, if t[i] == '\'' then "''" else [t[i]], Escaped(t[i + 1..]));
        ok := Append(if t[i] == '\'' then "''" else [t[i]]);
        if !ok {
          return;
        }
      }
      EscapedEnd(t);
    }

    /** AppendValue */
    method AppendValue(fmt: Formats, f: FieldMapping, v: FieldValue) returns (ok: bool)
      requires |text| < cap
      modifies this
      ensures match Meaning(fmt, f, v)
              case None => !ok && |text| < cap
              case Some(l) => Appends(old(text), LiteralText(l), cap, ok, text)
    {
      hide ValueAsText, ValueAsBool, ValueAsInt, ValueAsFloat, IntText, Trim, Escaped;
      if !v.valid {
        ok := false;
        if f.nullable || !f.required {
          ok := Append("NULL");
        }
      } else if v.isNull {
        ok := Append("NULL");
      } else if f.sqlType == SQL_BIT {
        ok := Append(if ValueAsBool(fmt, v) then "1" else "0");
      } else if IsIntType(f.sqlType) {
        ok := Append(IntText(v.plcType, ValueAsInt(fmt, v)));
      } else if IsFloatType(f.sqlType) {
        ok := Append(fmt.fixed(ValueAsFloat(fmt, v)));
      } else {
        ok := AppendStringLiteral(ValueAsText(fmt, v));
      }
    }

    method AppendTarget(ev: CapturedEvent, cfg: SqlConfig) returns (ok: bool)
      requires |text| < cap
      modifies this
      ensures Appends(old(text), Target(ev, cfg), cap, ok, text)
    {
      hide Ident, Database, Schema;
      var database := Database(ev, cfg);
      ghost var start := if database != "" then Ident(database) + "." else "";
      ghost var rest := Ident(Schema(ev)) + ("." + Ident(ev.table));
      if database != "" {
        ok := AppendIdent(database);
        if !ok {
          return;
        }
        ok := Append(".");
        if !ok {
          return;
        }
        Assoc(old(text), Ident(database), ".");
      }
      assert text == old(text) + start;
      Assoc(old(text), start, rest);
      ghost var base := text;
      ok := AppendIdent(Schema(ev));
      if !ok {
        return;
      }
      ok := Append(".");
      if !ok {
        return;
      }
      ok := AppendIdent(ev.table);
      Assoc(base, Ident(Schema(ev)), ".");
      Assoc(base, Ident(Schema(ev)) + ".", Ident(ev.table));
      Assoc(Ident(Schema(ev)), ".", Ident(ev.table));
    }

    /** The column list of an INSERT. */
    method AppendColumns(fs: seq<FieldMapping>) returns (ok: bool)
      requires |text| < cap
      modifies this
      ensures Appends(old(text), ColumnsFrom(fs, 0, true), cap, ok, text)
    {
      hide Ident, UsedEarlier, ColumnsFrom;
      ok := true;
      var firstCol := true;
      for i := 0 to |fs|
        invariant ok && text + ColumnsFrom(fs, i, firstCol) == old(text) + ColumnsFrom(fs, 0, true)
        invariant |old(text)| <= |text| < cap
      {
        var used := ColumnUsedEarlier(fs, i);
        ColumnsStep(fs, i, firstCol, text);
        if used {
          continue;
        }
        if !firstCol {
          ok := Append(", ");
          if !ok {
            return;
          }
        }
        firstCol := false;
        ok := AppendIdent(fs[i].sqlColumn);
        if !ok {
          return;
        }
      }
      ColumnsEnd(fs, firstCol);
    }

    /** The value list of an INSERT. */
    method AppendValues(fmt: Formats, fs: seq<FieldMapping>, vs: seq<FieldValue>) returns (ok: bool)
      requires |text| < cap && |fs| == |vs|
      modifies this
      ensures match ValuesFrom(fmt, fs, vs, 0, true)
              case None => !ok && |text| < cap
              case Some(values) => Appends(old(text), values, cap, ok, text)
    {
      hide UsedEarlier, ValuesFrom, Meaning, LiteralText;
      ok := true;
      var firstVal := true;
      ghost var all := ValuesFrom(fmt, fs, vs, 0, true);
      for i := 0 to |fs|
        invariant ok && |old(text)| <= |text| < cap
        invariant all.Some? == ValuesFrom(fmt, fs, vs, i, firstVal).Some?
        invariant all.Some? ==> text + ValuesFrom(fmt, fs, vs, i, firstVal).value == old(text) + all.value
      {
        var used := ColumnUsedEarlier(fs, i);
        ValuesStep(fmt, fs, vs, i, firstVal, text);
        if used {
          continue;
        }
        if !firstVal {
          ok := Append(", ");
          if !ok {
            return;
          }
        }
        firstVal := false;
        ok := AppendValue(fmt, fs[i], vs[i]);
        if !ok {
          return;
        }
      }
      ValuesEnd(fmt, fs, vs, firstVal);
    }

    /** The SET list of an UPDATE, or its WHERE list: `column=value` pairs of the fields with that key flag. */
    method AppendPairs(fmt: Formats, fs: seq<FieldMapping>, vs: seq<FieldValue>, keys: bool, separator: string)
      returns (ok: bool, any: bool)
      requires |text| < cap && |fs| == |vs|
      modifies this
      ensures match PairsFrom(fmt, fs, vs, 0, keys, separator, true)
              case None => !ok && |text| < cap
              case Some(pairs) => Appends(old(text), pairs, cap, ok, text)
      ensures ok ==> (any <==> exists i :: 0 <= i < |fs| && fs[i].isWhereKey == keys && !UsedEarlier(fs, i))
    {
      hide UsedEarlier, PairsFrom, Meaning, LiteralText, Ident;
      ok := true;
      var first := true;
      any := false;
      ghost var all := PairsFrom(fmt, fs, vs, 0, keys, separator, true);
      for i := 0 to |fs|
        invariant ok && |old(text)| <= |text| < cap
        invariant all.Some? == PairsFrom(fmt, fs, vs, i, keys, separator, first).Some?
        invariant all.Some? ==> text + PairsFrom(fmt, fs, vs, i, keys, separator, first).value == old(text) + all.value
        invariant first == !any
        invariant any <==> exists k :: 0 <= k < i && fs[k].isWhereKey == keys && !UsedEarlier(fs, k)
      {
        var used := ColumnUsedEarlier(fs, i);
        PairsStep(fmt, fs, vs, i, keys, separator, first, text);
        if fs[i].isWhereKey != keys || used {
          continue;
        }
        ok := AppendPair(fmt, fs[i], vs[i], if first then "" else separator);
        if !ok {
          return;
        }
        first, any := false, true;
      }
      PairsEnd(fmt, fs, vs, keys, separator, first);
    }

    method AppendPair(fmt: Formats, f: FieldMapping, v: FieldValue, separator: string) returns (ok: bool)
      requires |text| < cap
      modifies this
      ensures match Meaning(fmt, f, v)
              case None => !ok && |text| < cap
              case Some(l) => Appends(old(text), separator + (Ident(f.sqlColumn) + ("=" + LiteralText(l))), cap, ok, text)
    {
      hide Meaning, LiteralText, Ident;
      ok := Append(separator);
      if !ok {
        return;
      }
      ghost var base := text;
      ok := AppendIdent(f.sqlColumn);
      if !ok {
        return;
      }
      ok := Append("=");
      if !ok {
        return;
      }
      ok := AppendValue(fmt, f, v);
      if ok {
        var l := LiteralText(Meaning(fmt, f, v).value);
        Assoc(base + Ident(f.sqlColumn), "=", l);
        Assoc(base, Ident(f.sqlColumn), "=" + l);
        Assoc(old(text), separator, Ident(f.sqlColumn) + ("=" + l));
      }
    }
  }

  // ----- One step of each loop -----

  lemma TrimLeftStep(s: string)
    ensures s != "" && IsBlank(s[0]) ==> TrimLeft(s) == TrimLeft(s[1..])
    ensures s == "" || !IsBlank(s[0]) ==> TrimLeft(s) == s
  {
  }

  lemma TrimRightStep(s: string)
    ensures s != "" && IsBlank(s[|s| - 1]) ==> TrimRight(s) == TrimRight(s[..|s| - 1])
    ensures s == "" || !IsBlank(s[|s| - 1]) ==> TrimRight(s) == s
  {
  }

  lemma EscapedStep(t: string, i: nat)
    requires i < |t|
    ensures Escaped(t[i..]) == (if t[i] == '\'' then "''" else [t[i]]) + Escaped(t[i + 1..])
  {
    assert t[i..][1..] == t[i + 1..];
  }

  lemma EscapedEnd(t: string)
    ensures Escaped(t[|t|..]) == "" && t[|t|..] == ""
  {
  }

  /** What the text and the columns still to come amount to, before and after column `i`. */
  lemma ColumnsStep(fs: seq<FieldMapping>, i: nat, first: bool, text: string)
    requires i < |fs|
    ensures UsedEarlier(fs, i) ==> ColumnsFrom(fs, i, first) == ColumnsFrom(fs, i + 1, first)
    ensures !UsedEarlier(fs, i)
      ==> text + ColumnsFrom(fs, i, first)
          == ((if first then text else text + ", ") + Ident(fs[i].sqlColumn)) + ColumnsFrom(fs, i + 1, false)
  {
    hide UsedEarlier, Ident;
    var comma := if first then "" else ", ";
    var id, more := Ident(fs[i].sqlColumn), ColumnsFrom(fs, i + 1, false);
    Assoc(text, comma, id + more);
    Assoc(text + comma, id, more);
    assert text + "" == text;
  }

  lemma ColumnsEnd(fs: seq<FieldMapping>, first: bool)
    ensures ColumnsFrom(fs, |fs|, first) == ""
  {
  }

  lemma ValuesStep(fmt: Formats, fs: seq<FieldMapping>, vs: seq<FieldValue>, i: nat, first: bool, text: string)
    requires i < |fs| == |vs|
    ensures UsedEarlier(fs, i) ==> ValuesFrom(fmt, fs, vs, i, first) == ValuesFrom(fmt, fs, vs, i + 1, first)
    ensures !UsedEarlier(fs, i)
      ==> (ValuesFrom(fmt, fs, vs, i, first).Some?
           <==> Meaning(fmt, fs[i], vs[i]).Some? && ValuesFrom(fmt, fs, vs, i + 1, false).Some?)
    ensures !UsedEarlier(fs, i) && ValuesFrom(fmt, fs, vs, i, first).Some?
      ==> text + ValuesFrom(fmt, fs, vs, i, first).value
          == ((if first then text else text + ", ") + LiteralText(Meaning(fmt, fs[i], vs[i]).value))
             + ValuesFrom(fmt, fs, vs, i + 1, false).value
  {
    hide UsedEarlier, Meaning, LiteralText;
    if !UsedEarlier(fs, i) && ValuesFrom(fmt, fs, vs, i, first).Some? {
      var comma := if first then "" else ", ";
      var l, more := LiteralText(Meaning(fmt, fs[i], vs[i]).value), ValuesFrom(fmt, fs, vs, i + 1, false).value;
      Assoc(text, comma, l + more);
      Assoc(text + comma, l, more);
      assert text + "" == text;
    }
  }

  lemma ValuesEnd(fmt: Formats, fs: seq<FieldMapping>, vs: seq<FieldValue>, first: bool)
    requires |fs| == |vs|
    ensures ValuesFrom(fmt, fs, vs, |fs|, first) == Some("")
  {
  }

  lemma PairsStep(fmt: Formats, fs: seq<FieldMapping>, vs: seq<FieldValue>, i: nat, keys: bool, separator: string,
                  first: bool, text: string)
    requires i < |fs| == |vs|
    ensures fs[i].isWhereKey != keys || UsedEarlier(fs, i)
      ==> PairsFrom(fmt, fs, vs, i, keys, separator, first) == PairsFrom(fmt, fs, vs, i + 1, keys, separator, first)
    ensures fs[i].isWhereKey == keys && !UsedEarlier(fs, i)
      ==> (PairsFrom(fmt, fs, vs, i, keys, separator, first).Some?
           <==> Meaning(fmt, fs[i], vs[i]).Some? && PairsFrom(fmt, fs, vs, i + 1, keys, separator, false).Some?)
    ensures fs[i].isWhereKey == keys && !UsedEarlier(fs, i) && PairsFrom(fmt, fs, vs, i, keys, separator, first).Some?
      ==> text + PairsFrom(fmt, fs, vs, i, keys, separator, first).value
          == (text + ((if first then "" else separator)
                      + (Ident(fs[i].sqlColumn) + ("=" + LiteralText(Meaning(fmt, fs[i], vs[i]).value)))))
             + PairsFrom(fmt, fs, vs, i + 1, keys, separator, false).value
  {
    hide UsedEarlier, Meaning, LiteralText, Ident;
    if fs[i].isWhereKey == keys && !UsedEarlier(fs, i) && PairsFrom(fmt, fs, vs, i, keys, separator, first).Some? {
      var comma, id := if first then "" else separator, Ident(fs[i].sqlColumn);
      var l := LiteralText(Meaning(fmt, fs[i], vs[i]).value);
      var more := PairsFrom(fmt, fs, vs, i + 1, keys, separator, false).value;
      Assoc("=", l, more);
      Assoc(id, "=" + l, more);
      Assoc(comma, id + ("=" + l), more);
      Assoc(text, comma + (id + ("=" + l)), more);
    }
  }

  lemma PairsEnd(fmt: Formats, fs: seq<FieldMapping>, vs: seq<FieldValue>, keys: bool, separator: string, first: bool)
    requires |fs| == |vs|
    ensures PairsFrom(fmt, fs, vs, |fs|, keys, separator, first) == Some("")
  {
  }

  /** ColumnUsedEarlier */
  method ColumnUsedEarlier(fs: seq<FieldMapping>, idx: nat) returns (used: bool)
    requires idx < |fs|
    ensures used <==> UsedEarlier(fs, idx)
  {
    for j := 0 to idx
      invariant forall k :: 0 <= k < j ==> fs[k].sqlColumn != fs[idx].sqlColumn
    {
      if fs[j].sqlColumn == fs[idx].sqlColumn {
        return true;
      }
    }
    used := false;
  }

  // ----- The statement -----

  /** `text` is the statement of the event, and it fits a buffer of that size. */
  ghost predicate Builds(ev: CapturedEvent, cfg: SqlConfig, fmt: Formats, cap: nat, ok: bool, text: string)
    requires |ev.fields| == |ev.values|
  {
    match Statement(ev, cfg, fmt)
    case None => !ok
    case Some(s) => (ok <==> 16 <= cap && |s| < cap) && (ok ==> text == s)
  }

  /** The text so far and what is still to come; after each piece the sum stays the same. */
  lemma NextPiece(text: string, piece: string, rest: string)
    ensures text + (piece + rest) == (text + piece) + rest
    ensures |text + (piece + rest)| >= |text| + |piece|
  {
  }

  method AppendEventIdColumn(cfg: SqlConfig, buf: SqlBuffer) returns (ok: bool)
    requires |buf.text| < buf.cap
    modifies buf
    ensures Appends(old(buf.text), EventIdColumn(cfg), buf.cap, ok, buf.text)
  {
    hide Ident;
    ok := true;
    if cfg.eventIdColumn.Some? {
      ok := buf.AppendIdent(cfg.eventIdColumn.value);
      if !ok {
        return;
      }
      ok := buf.Append(", ");
      Assoc(old(buf.text), Ident(cfg.eventIdColumn.value), ", ");
    }
  }

  method AppendEventIdValue(ev: CapturedEvent, cfg: SqlConfig, buf: SqlBuffer) returns (ok: bool)
    requires |buf.text| < buf.cap
    modifies buf
    ensures Appends(old(buf.text), EventIdValue(ev, cfg), buf.cap, ok, buf.text)
  {
    hide Decimal;
    ok := true;
    if cfg.eventIdColumn.Some? {
      ok := buf.Append(Decimal(ev.eventId));
      if !ok {
        return;
      }
      ok := buf.Append(", ");
      Assoc(old(buf.text), Decimal(ev.eventId), ", ");
    }
  }

  /** INSERT INTO target (columns */
  method BuildInsertColumns(ev: CapturedEvent, cfg: SqlConfig, buf: SqlBuffer) returns (ok: bool)
    requires buf.text == "" && 0 < buf.cap
    modifies buf
    ensures Appends("", "INSERT INTO " + (Target(ev, cfg) + (" (" + (EventIdColumn(cfg) + ColumnsFrom(ev.fields, 0, true)))),
                    buf.cap, ok, buf.text)
  {
    hide Target, EventIdColumn, ColumnsFrom;
    ghost var r3 := ColumnsFrom(ev.fields, 0, true);
    ghost var r2 := EventIdColumn(cfg) + r3;
    ghost var r1 := " (" + r2;
    ghost var r0 := Target(ev, cfg) + r1;
    NextPiece("", "INSERT INTO ", r0);
    ok := buf.Append("INSERT INTO ");
    if !ok {
      return;
    }
    NextPiece(buf.text, Target(ev, cfg), r1);
    ok := buf.AppendTarget(ev, cfg);
    if !ok {
      return;
    }
    NextPiece(buf.text, " (", r2);
    ok := buf.Append(" (");
    if !ok {
      return;
    }
    NextPiece(buf.text, EventIdColumn(cfg), r3);
    ok := AppendEventIdColumn(cfg, buf);
    if !ok {
      return;
    }
    ok := buf.AppendColumns(ev.fields);
  }

  /** ) VALUES (values); */
  method BuildInsertValues(ev: CapturedEvent, cfg: SqlConfig, fmt: Formats, buf: SqlBuffer) returns (ok: bool)
    requires |buf.text| < buf.cap && |ev.fields| == |ev.values|
    modifies buf
    ensures match ValuesFrom(fmt, ev.fields, ev.values, 0, true)
            case None => !ok
            case Some(values) =>
              Appends(old(buf.text), ") VALUES (" + (EventIdValue(ev, cfg) + (values + ");")), buf.cap, ok, buf.text)
  {
    hide EventIdValue, ValuesFrom;
    ghost var values := ValuesFrom(fmt, ev.fields, ev.values, 0, true);
    ghost var r1 := if values.Some? then values.value + ");" else "";
    ghost var r0 := EventIdValue(ev, cfg) + r1;
    NextPiece(buf.text, ") VALUES (", r0);
    ok := buf.Append(") VALUES (");
    if !ok {
      return;
    }
    NextPiece(buf.text, EventIdValue(ev, cfg), r1);
    ok := AppendEventIdValue(ev, cfg, buf);
    if !ok {
      return;
    }
    if values.Some? {
      NextPiece(buf.text, values.value, ");");
    }
    ok := buf.AppendValues(fmt, ev.fields, ev.values);
    if !ok {
      return;
    }
    ok := buf.Append(");");
  }

  method BuildInsert(ev: CapturedEvent, cfg: SqlConfig, fmt: Formats, buf: SqlBuffer) returns (ok: bool)
    requires buf.text == "" && 0 < buf.cap && |ev.fields| == |ev.values|
    modifies buf
    ensures match ValuesFrom(fmt, ev.fields, ev.values, 0, true)
            case None => !ok
            case Some(values) => Appends("", InsertText(ev, cfg, values), buf.cap, ok, buf.text)
  {
    hide Target, EventIdColumn, EventIdValue, ColumnsFrom, ValuesFrom;
    ghost var values := ValuesFrom(fmt, ev.fields, ev.values, 0, true);
    ghost var head := "INSERT INTO " + (Target(ev, cfg) + (" (" + (EventIdColumn(cfg) + ColumnsFrom(ev.fields, 0, true))));
    ghost var tail := if values.Some? then ") VALUES (" + (EventIdValue(ev, cfg) + (values.value + ");")) else "";
    if values.Some? {
      InsertSplit(ev, cfg, values.value);
      NextPiece("", head, tail);
    }
    ok := BuildInsertColumns(ev, cfg, buf);
    if !ok {
      return;
    }
    ok := BuildInsertValues(ev, cfg, fmt, buf);
  }

  lemma InsertSplit(ev: CapturedEvent, cfg: SqlConfig, values: string)
    ensures InsertText(ev, cfg, values)
      == ("INSERT INTO " + (Target(ev, cfg) + (" (" + (EventIdColumn(cfg) + ColumnsFrom(ev.fields, 0, true)))))
         + (") VALUES (" + (EventIdValue(ev, cfg) + (values + ");")))
  {
    hide Target, EventIdColumn, EventIdValue, ColumnsFrom;
    var tail := ") VALUES (" + (EventIdValue(ev, cfg) + (values + ");"));
    var c := ColumnsFrom(ev.fields, 0, true);
    Assoc(EventIdColumn(cfg), c, tail);
    Assoc(" (", EventIdColumn(cfg) + c, tail);
    Assoc(Target(ev, cfg), " (" + (EventIdColumn(cfg) + c), tail);
    Assoc("INSERT INTO ", Target(ev, cfg) + (" (" + (EventIdColumn(cfg) + c)), tail);
  }

  method BuildUpdate(ev: CapturedEvent, cfg: SqlConfig, fmt: Formats, buf: SqlBuffer) returns (ok: bool)
    requires buf.text == "" && 0 < buf.cap && |ev.fields| == |ev.values|
    modifies buf
    ensures match (PairsFrom(fmt, ev.fields, ev.values, 0, false, ", ", true),
                   PairsFrom(fmt, ev.fields, ev.values, 0, true, " AND ", true))
            case (Some(settings), Some(keys)) =>
              if HasKey(ev.fields) then Appends("", UpdateText(ev, cfg, settings, keys), buf.cap, ok, buf.text) else !ok
            case _ => !ok
  {
    hide Target, PairsFrom, UsedEarlier;
    ghost var settings := PairsFrom(fmt, ev.fields, ev.values, 0, false, ", ", true);
    ghost var keys := PairsFrom(fmt, ev.fields, ev.values, 0, true, " AND ", true);
    ghost var r4 := if keys.Some? then keys.value + ";" else "";
    ghost var r3 := " WHERE " + r4;
    ghost var r2 := if settings.Some? then settings.value + r3 else "";
    ghost var r1 := " SET " + r2;
    NextPiece("", "UPDATE ", Target(ev, cfg) + r1);
    ok := buf.Append("UPDATE ");
    if !ok {
      return;
    }
    NextPiece(buf.text, Target(ev, cfg), r1);
    ok := buf.AppendTarget(ev, cfg);
    if !ok {
      return;
    }
    NextPiece(buf.text, " SET ", r2);
    ok := buf.Append(" SET ");
    if !ok {
      return;
    }
    NextPiece(buf.text, if settings.Some? then settings.value else "", r3);
    var any: bool;
    ok, any := buf.AppendPairs(fmt, ev.fields, ev.values, false, ", ");
    if !ok {
      return;
    }
    NextPiece(buf.text, " WHERE ", r4);
    ok := buf.Append(" WHERE ");
    if !ok {
      return;
    }
    NextPiece(buf.text, if keys.Some? then keys.value else "", ";");
    ok, any := buf.AppendPairs(fmt, ev.fields, ev.values, true, " AND ");
    if !ok {
      return;
    }
    if !any {
      return false;
    }
    ok := buf.Append(";");
  }

  method BuildSqlFromEvent(ev: CapturedEvent, cfg: SqlConfig, fmt: Formats, cap: nat) returns (ok: bool, text: string)
    requires |ev.fields| == |ev.values|
    ensures Builds(ev, cfg, fmt, cap, ok, text)
  {
    hide ValuesFrom, ColumnsFrom, PairsFrom, Target, HasKey, EventIdColumn, EventIdValue;
    ok, text := false, "";
    if cap < MIN_SQL_CAP || ev.table == "" || |ev.fields| == 0 {
      return;
    }
    var buf := new SqlBuffer(cap);
    if ev.operation == OP_INSERT {
      ok := BuildInsert(ev, cfg, fmt, buf);
    } else {
      ok := BuildUpdate(ev, cfg, fmt, buf);
    }
    text := buf.text;
  }

  // ----- The literal of a query filter -----

  lemma {:induction false} EscapedShrinks(t: string, i: nat, j: nat)
    requires i <= j <= |t|
    ensures |Escaped(t[i..])| >= |Escaped(t[j..])|
    decreases j - i
  {
    hide Escaped;
    if i < j {
      EscapedStep(t, i);
      EscapedShrinks(t, i + 1, j);
    }
  }

  lemma LastEscaped(t: string)
    requires t != ""
    ensures |Escaped(t[|t| - 1..])| == if t[|t| - 1] == '\'' then 2 else 1
  {
    var last := t[|t| - 1..];
    assert last[1..] == "";
  }

  /** The room that the test before the last character asks for; quotes there and in front count in full. */
  function FilterRoom(value: string): int {
    if value == "" then 2 else 4 + |Escaped(value)| - |Escaped(value[|value| - 1..])|
  }

  lemma RoomIs(value: string)
    ensures FilterRoom(value) == if value == "" then 2 else |Escaped(value)| + (if value[|value| - 1] == '\'' then 2 else 3)
    ensures value != "" ==> FilterRoom(value) >= 4
  {
    if value != "" {
      LastEscaped(value);
      assert value[0..] == value;
      EscapedShrinks(value, 0, |value| - 1);
    }
  }

  /**
   * WriteSqlStringLiteral: stays within the buffer with its terminating NUL.
   * The test always asks for the room of a doubled quote.
   */
  method WriteSqlStringLiteral(value: string, cap: nat) returns (ok: bool, text: string)
    ensures ok <==> if value == "" then cap >= 3 else |Escaped(value)| + (if value[|value| - 1] == '\'' then 2 else 3) < cap
    ensures ok ==> text == "'" + (Escaped(value) + "'") && |text| < cap
  {
    RoomIs(value);
    hide Escaped;
    ok, text := false, "";
    if cap < 3 {
      return;
    }
    text := "'";
    assert value[0..] == value;
    for i := 0 to |value|
      invariant text + Escaped(value[i..]) == "'" + Escaped(value)
      invariant i == |value| ==> FilterRoom(value) < cap && |text| + 1 < cap
    {
      EscapedShrinks(value, i, |value| - 1);
      if |text| + 3 >= cap {
        return;
      }
      EscapedStep(value, i);
      EscapedEnd(value);
      var piece := if value[i] == '\'' then "''" else [value[i]];
      assert (text + piece) + Escaped(value[i + 1..]) == text + (piece + Escaped(value[i + 1..]));
      text := text + piece;
    }
    EscapedEnd(value);
    Assoc("'", Escaped(value), "'");
    text := text + "'";
    ok := true;
  }
}
