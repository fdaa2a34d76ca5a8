/** A generated INSERT, read back. */
module SqlParse {
  // And what the round trip through the queue keeps of a statement.

  import opened Bytes
  import opened GatewayTypes
  import opened SqlText
  import opened Decimals
  import Serializer

  datatype Got<+T> = Got(value: T, rest: string)

  datatype Insert = Insert(target: seq<string>, columns: seq<string>, values: seq<Literal>)

  // ----- The parser -----

  function Expect(s: string, word: string): Option<string> {
    if word <= s then Some(s[|word|..]) else None
  }

  /** The characters before the closing bracket. */
  function UpToBracket(s: string): Option<Got<string>> {
    if s == "" then None
    else if s[0] == ']' then Some(Got("", s[1..]))
    else
      match UpToBracket(s[1..])
      case None => None
      case Some(g) => Some(Got([s[0]] + g.value, g.rest))
  }

  function ParseIdent(s: string): Option<Got<string>> {
    if s != "" && s[0] == '[' then UpToBracket(s[1..]) else None
  }

  /** Identifiers joined by `separator`. */
  function ParseIdents(s: string, separator: string): Option<Got<seq<string>>>
    decreases |s|
  {
    match ParseIdent(s)
    case None => None
    case Some(g) =>
      if separator <= g.rest && |g.rest[|separator|..]| < |s| then
        match ParseIdents(g.rest[|separator|..], separator)
        case None => None
        case Some(more) => Some(Got([g.value] + more.value, more.rest))
      else Some(Got([g.value], g.rest))
  }

  /** The rest of a string literal: a doubled quote stands for one, a single one ends it. */
  function ParseQuoted(s: string): Option<Got<string>> {
    if s == "" then None
    else if s[0] != '\'' then
      match ParseQuoted(s[1..])
      case None => None
      case Some(g) => Some(Got([s[0]] + g.value, g.rest))
    else if |s| > 1 && s[1] == '\'' then
      match ParseQuoted(s[2..])
      case None => None
      case Some(g) => Some(Got("'" + g.value, g.rest))
    else Some(Got("", s[1..]))
  }

  predicate EndsToken(c: char) {
    c == ',' || c == ')' || c == ' ' || c == ';'
  }

  function ParseBare(s: string): Got<string> {
    if s == "" || EndsToken(s[0]) then Got("", s)
    else
      var g := ParseBare(s[1..]);
      Got([s[0]] + g.value, g.rest)
  }

  function ParseValue(s: string): Option<Got<Literal>> {
    if "N'" <= s then
      match ParseQuoted(s[2..])
      case None => None
      case Some(g) => Some(Got(Text(g.value), g.rest))
    else
      var g := ParseBare(s);
      if g.value == "" then None else Some(Got(Bare(g.value), g.rest))
  }

  function ParseValues(s: string): Option<Got<seq<Literal>>>
    decreases |s|
  {
    match ParseValue(s)
    case None => None
    case Some(g) =>
      if ", " <= g.rest && |g.rest[2..]| < |s| then
        match ParseValues(g.rest[2..])
        case None => None
        case Some(more) => Some(Got([g.value] + more.value, more.rest))
      else Some(Got([g.value], g.rest))
  }

  function ParseInsert(s: string): Option<Insert> {
    match Expect(s, "INSERT INTO ")
    case None => None
    case Some(s1) =>
      match ParseIdents(s1, ".")
      case None => None
      case Some(target) => ParseLists(target.value, target.rest)
  }

  function ParseLists(target: seq<string>, s: string): Option<Insert> {
    match Expect(s, " (")
    case None => None
    case Some(s1) =>
      match ParseIdents(s1, ", ")
      case None => None
      case Some(columns) =>
        match Expect(columns.rest, ") VALUES (")
        case None => None
        case Some(s2) =>
          match ParseValues(s2)
          case None => None
          case Some(values) =>
            if values.rest == ");" then Some(Insert(target, columns.value, values.value)) else None
  }

  // ----- Tokens -----

  predicate NoBracket(s: string) {
    ']' !in s
  }

  /** A token that no delimiter cuts and that is not taken for a string. */
  predicate PlainToken(s: string) {
    s != "" && s[0] != 'N' && forall i :: 0 <= i < |s| ==> !EndsToken(s[i])
  }

  predicate Ended(rest: string) {
    rest != "" && EndsToken(rest[0])
  }

  lemma ExpectWord(word: string, rest: string)
    ensures Expect(word + rest, word) == Some(rest)
  {
    assert (word + rest)[|word|..] == rest;
  }

  lemma BracketStep(c: char, s: string)
    ensures UpToBracket("]" + s) == Some(Got("", s))
    ensures c != ']'
      ==> UpToBracket([c] + s)
          == if UpToBracket(s).Some? then Some(Got([c] + UpToBracket(s).value.value, UpToBracket(s).value.rest)) else None
  {
    assert ([c] + s)[1..] == s && ("]" + s)[1..] == s;
  }

  lemma {:induction false} BracketRead(id: string, rest: string)
    requires NoBracket(id)
    ensures UpToBracket(id + ("]" + rest)) == Some(Got(id, rest))
    decreases |id|
  {
    hide UpToBracket;
    if id == "" {
      assert id + ("]" + rest) == "]" + rest;
      BracketStep('x', rest);
    } else {
      BracketRead(id[1..], rest);
      assert id[0] in id && id == [id[0]] + id[1..];
      assert id + ("]" + rest) == [id[0]] + (id[1..] + ("]" + rest));
      BracketStep(id[0], id[1..] + ("]" + rest));
    }
  }

  lemma IdentRead(id: string, rest: string)
    requires NoBracket(id)
    ensures ParseIdent(Ident(id) + rest) == Some(Got(id, rest))
  {
    BracketRead(id, rest);
    assert (Ident(id) + rest)[1..] == id + ("]" + rest);
  }

  /** One step of the string literal's reader. */
  lemma QuotedStep(c: char, s: string)
    ensures c != '\''
      ==> ParseQuoted([c] + s)
          == if ParseQuoted(s).Some? then Some(Got([c] + ParseQuoted(s).value.value, ParseQuoted(s).value.rest)) else None
    ensures ParseQuoted("''" + s)
      == if ParseQuoted(s).Some? then Some(Got("'" + ParseQuoted(s).value.value, ParseQuoted(s).value.rest)) else None
    ensures s != "" && s[0] != '\'' ==> ParseQuoted("'" + s) == Some(Got("", s))
  {
    assert ([c] + s)[1..] == s && ("''" + s)[2..] == s && ("'" + s)[1..] == s;
  }

  lemma {:induction false} QuotedRead(t: string, rest: string)
    requires rest != "" && rest[0] != '\''
    ensures ParseQuoted(Escaped(t) + ("'" + rest)) == Some(Got(t, rest))
    decreases |t|
  {
    hide ParseQuoted;
    var s := Escaped(t) + ("'" + rest);
    if t == "" {
      assert s == "'" + rest;
      QuotedStep('x', rest);
    } else {
      QuotedRead(t[1..], rest);
      var below := Escaped(t[1..]) + ("'" + rest);
      QuotedStep(t[0], below);
      assert s == (if t[0] == '\'' then "''" else [t[0]]) + below;
      assert [t[0]] + t[1..] == t;
    }
  }

  lemma {:induction false} BareRead(t: string, rest: string)
    requires Ended(rest) && forall i :: 0 <= i < |t| ==> !EndsToken(t[i])
    ensures ParseBare(t + rest) == Got(t, rest)
    decreases |t|
  {
    if t == "" {
      assert t + rest == rest;
    } else {
      BareRead(t[1..], rest);
      assert (t + rest)[0] == t[0] && (t + rest)[1..] == t[1..] + rest;
      assert [t[0]] + t[1..] == t;
    }
  }

  predicate ReadableLiteral(l: Literal) {
    l.Bare? ==> l.token == "NULL" || PlainToken(l.token)
  }

  lemma BareValueRead(token: string, rest: string)
    requires token == "NULL" || PlainToken(token)
    requires Ended(rest)
    ensures ParseValue(token + rest) == Some(Got(Bare(token), rest))
  {
    hide ParseBare;
    var s := token + rest;
    assert s[0] == token[0];
    assert token == "NULL" ==> s[1] == 'U';
    assert !("N'" <= s);
    BareRead(token, rest);
  }

  lemma TextValueRead(text: string, rest: string)
    requires Ended(rest)
    ensures ParseValue("N'" + (Escaped(text) + "'") + rest) == Some(Got(Text(text), rest))
  {
    hide ParseQuoted, Escaped;
    var s := "N'" + (Escaped(text) + "'") + rest;
    assert s[2..] == Escaped(text) + ("'" + rest);
    QuotedRead(text, rest);
  }

  lemma ValueRead(l: Literal, rest: string)
    requires ReadableLiteral(l) && Ended(rest)
    ensures ParseValue(LiteralText(l) + rest) == Some(Got(l, rest))
  {
    hide ParseValue;
    match l {
      case Bare(token) => BareValueRead(token, rest);
      case Text(text) => TextValueRead(text, rest);
    }
  }

  // ----- What is to be read -----

  /** The fields whose columns make it into the statement, from field `i` on. */
  function Kept(fs: seq<FieldMapping>, i: nat): (kept: seq<nat>)
    requires i <= |fs|
    ensures forall k :: 0 <= k < |kept| ==> i <= kept[k] < |fs|
    decreases |fs| - i
  {
    if i == |fs| then [] else if UsedEarlier(fs, i) then Kept(fs, i + 1) else [i] + Kept(fs, i + 1)
  }

  /** They are in order ... */
  lemma {:induction false} KeptInOrder(fs: seq<FieldMapping>, i: nat, j: nat, k: nat)
    requires i <= |fs| && j < k < |Kept(fs, i)|
    ensures Kept(fs, i)[j] < Kept(fs, i)[k]
    decreases |fs| - i
  {
    hide UsedEarlier;
    if UsedEarlier(fs, i) {
      KeptInOrder(fs, i + 1, j, k);
    } else if j > 0 {
      KeptInOrder(fs, i + 1, j - 1, k - 1);
    }
  }

  /** ... and exactly the first occurrences: no column twice, none lost. */
  lemma {:induction false} KeptExactly(fs: seq<FieldMapping>, i: nat, n: nat)
    requires i <= n < |fs|
    ensures n in Kept(fs, i) <==> !UsedEarlier(fs, n)
    decreases |fs| - i
  {
    hide UsedEarlier;
    if i < n {
      KeptExactly(fs, i + 1, n);
    } else {
      assert i !in Kept(fs, i + 1);
    }
  }

  lemma KeptDistinct(fs: seq<FieldMapping>, j: nat, k: nat)
    requires j < k < |Kept(fs, 0)|
    ensures fs[Kept(fs, 0)[j]].sqlColumn != fs[Kept(fs, 0)[k]].sqlColumn
  {
    var a, b := Kept(fs, 0)[j], Kept(fs, 0)[k];
    KeptInOrder(fs, 0, j, k);
    assert b in Kept(fs, 0);
    KeptExactly(fs, 0, b);
  }

  function ColumnList(fs: seq<FieldMapping>, i: nat): seq<string>
    requires i <= |fs|
    decreases |fs| - i
  {
    if i == |fs| then []
    else if UsedEarlier(fs, i) then ColumnList(fs, i + 1)
    else [fs[i].sqlColumn] + ColumnList(fs, i + 1)
  }

  /** The literals paired with them; None if one of the values is refused. */
  function LiteralList(fmt: Formats, fs: seq<FieldMapping>, vs: seq<FieldValue>, i: nat): Option<seq<Literal>>
    requires i <= |fs| == |vs|
    decreases |fs| - i
  {
    if i == |fs| then Some([])
    else if UsedEarlier(fs, i) then LiteralList(fmt, fs, vs, i + 1)
    else
      match (Meaning(fmt, fs[i], vs[i]), LiteralList(fmt, fs, vs, i + 1))
      case (Some(l), Some(ls)) => Some([l] + ls)
      case _ => None
  }

  ghost predicate LiteralsFit(fmt: Formats, fs: seq<FieldMapping>, vs: seq<FieldValue>, kept: seq<nat>, ls: seq<Literal>)
    requires |fs| == |vs| && forall k :: 0 <= k < |kept| ==> kept[k] < |fs|
  {
    |ls| == |kept| && forall k :: 0 <= k < |kept| ==> Meaning(fmt, fs[kept[k]], vs[kept[k]]) == Some(ls[k])
  }

  /** Position by position, column and literal are those of the same kept field. */
  lemma {:induction false} ListsFollowKept(fmt: Formats, fs: seq<FieldMapping>, vs: seq<FieldValue>, i: nat)
    requires i <= |fs| == |vs|
    ensures |ColumnList(fs, i)| == |Kept(fs, i)|
    ensures forall k :: 0 <= k < |Kept(fs, i)| ==> ColumnList(fs, i)[k] == fs[Kept(fs, i)[k]].sqlColumn
    ensures LiteralList(fmt, fs, vs, i).Some? ==> LiteralsFit(fmt, fs, vs, Kept(fs, i), LiteralList(fmt, fs, vs, i).value)
    decreases |fs| - i
  {
    hide UsedEarlier, Meaning;
    if i < |fs| {
      ListsFollowKept(fmt, fs, vs, i + 1);
    }
  }

  ghost predicate BracketFree(fs: seq<FieldMapping>) {
    forall i :: 0 <= i < |fs| ==> NoBracket(fs[i].sqlColumn)
  }

  /** "%f" yields a number, whatever the float. */
  ghost predicate PlainFormats(fmt: Formats) {
    forall x: u32 :: PlainToken(fmt.fixed(x))
  }

  // ----- Reading the lists -----

  lemma IdentsMore(id: string, separator: string, rest: string)
    requires NoBracket(id) && |separator| > 0
    ensures ParseIdents(Ident(id) + (separator + rest), separator)
      == if ParseIdents(rest, separator).Some?
         then Some(Got([id] + ParseIdents(rest, separator).value.value, ParseIdents(rest, separator).value.rest)) else None
  {
    hide ParseIdent, Ident;
    IdentRead(id, separator + rest);
    assert (separator + rest)[|separator|..] == rest;
    assert |Ident(id) + (separator + rest)| > |rest|;
  }

  lemma IdentsLast(id: string, separator: string, rest: string)
    requires NoBracket(id) && !(separator <= rest)
    ensures ParseIdents(Ident(id) + rest, separator) == Some(Got([id], rest))
  {
    hide ParseIdent, Ident;
    IdentRead(id, rest);
  }

  lemma ValuesMore(l: Literal, rest: string)
    requires ReadableLiteral(l)
    ensures ParseValues(LiteralText(l) + (", " + rest))
      == if ParseValues(rest).Some?
         then Some(Got([l] + ParseValues(rest).value.value, ParseValues(rest).value.rest)) else None
  {
    hide ParseValue, LiteralText;
    ValueRead(l, ", " + rest);
    assert (", " + rest)[2..] == rest;
    assert |LiteralText(l) + (", " + rest)| > |rest|;
  }

  lemma ValuesLast(l: Literal, rest: string)
    requires ReadableLiteral(l) && Ended(rest) && !(", " <= rest)
    ensures ParseValues(LiteralText(l) + rest) == Some(Got([l], rest))
  {
    hide ParseValue, LiteralText;
    ValueRead(l, rest);
  }

  /** A list that is not at its start is empty or goes on with a comma. */
  lemma {:induction false} ColumnsGoOn(fs: seq<FieldMapping>, i: nat)
    requires i <= |fs|
    ensures ColumnList(fs, i) == [] ==> ColumnsFrom(fs, i, false) == ""
    ensures ColumnList(fs, i) != [] ==> ColumnsFrom(fs, i, false) == ", " + ColumnsFrom(fs, i, true)
    decreases |fs| - i
  {
    hide UsedEarlier, Ident;
    if i < |fs| {
      ColumnsGoOn(fs, i + 1);
    }
  }

  /** The list starts with this column. */
  lemma ColumnsHead(fs: seq<FieldMapping>, i: nat, rest: string)
    requires i < |fs| && !UsedEarlier(fs, i)
    ensures ColumnList(fs, i) == [fs[i].sqlColumn] + ColumnList(fs, i + 1)
    ensures ColumnsFrom(fs, i, true) + rest
      == Ident(fs[i].sqlColumn) + if ColumnList(fs, i + 1) == [] then rest else ", " + (ColumnsFrom(fs, i + 1, true) + rest)
  {
    hide UsedEarlier, Ident;
    ColumnsGoOn(fs, i + 1);
    var id := Ident(fs[i].sqlColumn);
    assert ColumnsFrom(fs, i, true) == "" + (id + ColumnsFrom(fs, i + 1, false));
  }

  lemma {:induction false} ColumnsRead(fs: seq<FieldMapping>, i: nat, rest: string)
    requires i <= |fs| && ColumnList(fs, i) != [] && BracketFree(fs) && !(", " <= rest)
    ensures ParseIdents(ColumnsFrom(fs, i, true) + rest, ", ") == Some(Got(ColumnList(fs, i), rest))
    decreases |fs| - i
  {
    hide UsedEarlier, Ident, ParseIdents;
    if UsedEarlier(fs, i) {
      ColumnsRead(fs, i + 1, rest);
    } else {
      ColumnsHead(fs, i, rest);
      hide ColumnsFrom, ColumnList;
      var id := fs[i].sqlColumn;
      if ColumnList(fs, i + 1) == [] {
        assert [id] + ColumnList(fs, i + 1) == [id];
        IdentsLast(id, ", ", rest);
      } else {
        IdentsMore(id, ", ", ColumnsFrom(fs, i + 1, true) + rest);
        ColumnsRead(fs, i + 1, rest);
      }
    }
  }

  lemma {:induction false} ValuesGoOn(fmt: Formats, fs: seq<FieldMapping>, vs: seq<FieldValue>, i: nat)
    requires i <= |fs| == |vs|
    ensures ValuesFrom(fmt, fs, vs, i, false).Some? <==> LiteralList(fmt, fs, vs, i).Some?
    ensures ValuesFrom(fmt, fs, vs, i, true).Some? <==> LiteralList(fmt, fs, vs, i).Some?
    ensures LiteralList(fmt, fs, vs, i) == Some([]) ==> ValuesFrom(fmt, fs, vs, i, false) == Some("")
    ensures LiteralList(fmt, fs, vs, i).Some? && LiteralList(fmt, fs, vs, i).value != []
      ==> ValuesFrom(fmt, fs, vs, i, false) == Some(", " + ValuesFrom(fmt, fs, vs, i, true).value)
    decreases |fs| - i
  {
    hide UsedEarlier, Meaning, LiteralText;
    if i < |fs| {
      ValuesGoOn(fmt, fs, vs, i + 1);
      if !UsedEarlier(fs, i) && LiteralList(fmt, fs, vs, i).Some? {
        var l := LiteralText(Meaning(fmt, fs[i], vs[i]).value);
        var rest := ValuesFrom(fmt, fs, vs, i + 1, false).value;
        assert "" + (l + rest) == l + rest;
      }
    }
  }

  /** The list starts with this literal. */
  lemma ValuesHead(fmt: Formats, fs: seq<FieldMapping>, vs: seq<FieldValue>, i: nat, rest: string)
    requires i < |fs| == |vs| && !UsedEarlier(fs, i) && LiteralList(fmt, fs, vs, i).Some?
    ensures Meaning(fmt, fs[i], vs[i]).Some? && LiteralList(fmt, fs, vs, i + 1).Some?
    ensures ValuesFrom(fmt, fs, vs, i, true).Some? && ValuesFrom(fmt, fs, vs, i + 1, true).Some?
    ensures var l, ls := Meaning(fmt, fs[i], vs[i]).value, LiteralList(fmt, fs, vs, i + 1).value;
      && LiteralList(fmt, fs, vs, i).value == [l] + ls
      && ValuesFrom(fmt, fs, vs, i, true).value + rest
         == LiteralText(l) + if ls == [] then rest else ", " + (ValuesFrom(fmt, fs, vs, i + 1, true).value + rest)
  {
    hide UsedEarlier, Meaning, LiteralText;
    ValuesGoOn(fmt, fs, vs, i + 1);
    ValuesGoOn(fmt, fs, vs, i);
    var l := LiteralText(Meaning(fmt, fs[i], vs[i]).value);
    assert ValuesFrom(fmt, fs, vs, i, true).value == "" + (l + ValuesFrom(fmt, fs, vs, i + 1, false).value);
  }

  /** The number formatting leaves only readable tokens. */
  lemma {:induction false} DecimalPlain(n: nat)
    ensures PlainToken(Decimal(n)) && '0' <= Decimal(n)[0] <= '9'
    decreases n
  {
    if n >= 10 {
      DecimalPlain(n / 10);
    }
  }

  lemma IntPlain(plcType: byte, i: i64)
    ensures PlainToken(IntText(plcType, i))
  {
    hide Decimal;
    var v: int := i;
    DecimalPlain(AsUnsigned(i));
    DecimalPlain(if v < 0 then -v else v);
  }

  lemma MeaningReadable(fmt: Formats, f: FieldMapping, v: FieldValue)
    requires PlainFormats(fmt) && Meaning(fmt, f, v).Some?
    ensures ReadableLiteral(Meaning(fmt, f, v).value)
  {
    hide IntText, ValueAsText;
    IntPlain(v.plcType, ValueAsInt(fmt, v));
    assert PlainToken(fmt.fixed(ValueAsFloat(fmt, v)));
  }

  lemma {:induction false} ValuesRead(fmt: Formats, fs: seq<FieldMapping>, vs: seq<FieldValue>, i: nat, rest: string)
    requires i <= |fs| == |vs| && PlainFormats(fmt) && Ended(rest) && !(", " <= rest)
    requires LiteralList(fmt, fs, vs, i).Some? && LiteralList(fmt, fs, vs, i).value != []
    ensures ValuesFrom(fmt, fs, vs, i, true).Some?
    ensures ParseValues(ValuesFrom(fmt, fs, vs, i, true).value + rest)
      == Some(Got(LiteralList(fmt, fs, vs, i).value, rest))
    decreases |fs| - i
  {
    hide UsedEarlier, ParseValues, Meaning, LiteralText, ReadableLiteral, PlainFormats, Ended;
    if UsedEarlier(fs, i) {
      ValuesRead(fmt, fs, vs, i + 1, rest);
    } else {
      ValuesHead(fmt, fs, vs, i, rest);
      hide ValuesFrom, LiteralList;
      MeaningReadable(fmt, fs[i], vs[i]);
      var l := Meaning(fmt, fs[i], vs[i]).value;
      if LiteralList(fmt, fs, vs, i + 1).value == [] {
        assert [l] + LiteralList(fmt, fs, vs, i + 1).value == [l];
        ValuesLast(l, rest);
      } else {
        ValuesMore(l, ValuesFrom(fmt, fs, vs, i + 1, true).value + rest);
        ValuesRead(fmt, fs, vs, i + 1, rest);
      }
    }
  }

  // ----- The whole statement -----

  function TargetNames(ev: CapturedEvent, cfg: SqlConfig): seq<string> {
    (if Database(ev, cfg) != "" then [Database(ev, cfg)] else []) + [Schema(ev), ev.table]
  }

  /** The event's own database comes before the configured one, and the schema is never left out. */
  lemma TargetIs(ev: CapturedEvent, cfg: SqlConfig)
    ensures TargetNames(ev, cfg)
      == (if ev.database != "" then [ev.database] else if cfg.defaultDatabase != "" then [cfg.defaultDatabase] else [])
         + [if ev.schema != "" then ev.schema else "dbo", ev.table]
  {
  }

  function AllColumns(ev: CapturedEvent, cfg: SqlConfig): seq<string> {
    (if cfg.eventIdColumn.Some? then [cfg.eventIdColumn.value] else []) + ColumnList(ev.fields, 0)
  }

  ghost function AllLiterals(ev: CapturedEvent, cfg: SqlConfig, fmt: Formats): seq<Literal>
    requires |ev.fields| == |ev.values| && LiteralList(fmt, ev.fields, ev.values, 0).Some?
  {
    (if cfg.eventIdColumn.Some? then [Bare(Decimal(ev.eventId))] else [])
    + LiteralList(fmt, ev.fields, ev.values, 0).value
  }

  ghost predicate BracketFreeNames(ev: CapturedEvent, cfg: SqlConfig) {
    && NoBracket(Database(ev, cfg)) && NoBracket(Schema(ev)) && NoBracket(ev.table) && BracketFree(ev.fields)
    && (cfg.eventIdColumn.Some? ==> NoBracket(cfg.eventIdColumn.value))
  }

  lemma TargetRead(ev: CapturedEvent, cfg: SqlConfig, rest: string)
    requires BracketFreeNames(ev, cfg) && rest != "" && rest[0] != '.'
    ensures ParseIdents(Target(ev, cfg) + rest, ".") == Some(Got(TargetNames(ev, cfg), rest))
  {
    hide Ident, ParseIdents, Database, Schema, BracketFree;
    var s := Ident(Schema(ev)) + ("." + (Ident(ev.table) + rest));
    IdentsLast(ev.table, ".", rest);
    IdentsMore(Schema(ev), ".", Ident(ev.table) + rest);
    assert [Schema(ev)] + [ev.table] == [Schema(ev), ev.table];
    assert Database(ev, cfg) == "" ==> TargetNames(ev, cfg) == [Schema(ev), ev.table];
    if Database(ev, cfg) != "" {
      IdentsMore(Database(ev, cfg), ".", s);
      assert Target(ev, cfg) + rest == Ident(Database(ev, cfg)) + ("." + s);
    } else {
      assert Target(ev, cfg) + rest == s;
    }
  }

  lemma AllColumnsRead(ev: CapturedEvent, cfg: SqlConfig, rest: string)
    requires BracketFreeNames(ev, cfg) && ColumnList(ev.fields, 0) != [] && !(", " <= rest)
    ensures ParseIdents(EventIdColumn(cfg) + ColumnsFrom(ev.fields, 0, true) + rest, ", ")
      == Some(Got(AllColumns(ev, cfg), rest))
  {
    hide Ident, ParseIdents, Database, Schema, BracketFree, ColumnsFrom, ColumnList;
    var columns := ColumnsFrom(ev.fields, 0, true) + rest;
    ColumnsRead(ev.fields, 0, rest);
    match cfg.eventIdColumn {
      case Some(id) =>
        assert EventIdColumn(cfg) + ColumnsFrom(ev.fields, 0, true) + rest == Ident(id) + (", " + columns);
        IdentsMore(id, ", ", columns);
      case None =>
        assert EventIdColumn(cfg) + ColumnsFrom(ev.fields, 0, true) + rest == columns;
        assert AllColumns(ev, cfg) == ColumnList(ev.fields, 0);
    }
  }

  lemma AllValuesRead(ev: CapturedEvent, cfg: SqlConfig, fmt: Formats, rest: string)
    requires |ev.fields| == |ev.values| && PlainFormats(fmt) && Ended(rest) && !(", " <= rest)
    requires LiteralList(fmt, ev.fields, ev.values, 0).Some? && LiteralList(fmt, ev.fields, ev.values, 0).value != []
    ensures ValuesFrom(fmt, ev.fields, ev.values, 0, true).Some?
    ensures ParseValues(EventIdValue(ev, cfg) + ValuesFrom(fmt, ev.fields, ev.values, 0, true).value + rest)
      == Some(Got(AllLiterals(ev, cfg, fmt), rest))
  {
    hide ParseValues, ValuesFrom, LiteralList, PlainFormats, Decimal, Meaning, Ended;
    ValuesRead(fmt, ev.fields, ev.values, 0, rest);
    var values := ValuesFrom(fmt, ev.fields, ev.values, 0, true).value + rest;
    if cfg.eventIdColumn.Some? {
      DecimalPlain(ev.eventId);
      assert EventIdValue(ev, cfg) + ValuesFrom(fmt, ev.fields, ev.values, 0, true).value + rest
        == LiteralText(Bare(Decimal(ev.eventId))) + (", " + values);
      ValuesMore(Bare(Decimal(ev.eventId)), values);
    } else {
      assert EventIdValue(ev, cfg) + ValuesFrom(fmt, ev.fields, ev.values, 0, true).value + rest == values;
      assert AllLiterals(ev, cfg, fmt) == LiteralList(fmt, ev.fields, ev.values, 0).value;
    }
  }

  /** As many literals as columns, and not none: the first field is always kept. */
  lemma {:induction false} EquallyMany(fmt: Formats, fs: seq<FieldMapping>, vs: seq<FieldValue>)
    requires |fs| == |vs| && |fs| > 0 && LiteralList(fmt, fs, vs, 0).Some?
    ensures |LiteralList(fmt, fs, vs, 0).value| == |ColumnList(fs, 0)| > 0
  {
    hide Meaning;
    ListsFollowKept(fmt, fs, vs, 0);
    assert !UsedEarlier(fs, 0);
  }

  /**
   * A generated INSERT reads back as what the event means: the target, the
   * distinct columns in order of first occurrence, and one literal for each.
   */
  lemma InsertReparses(ev: CapturedEvent, cfg: SqlConfig, fmt: Formats)
    requires |ev.fields| == |ev.values| && ev.operation == OP_INSERT
    requires BracketFreeNames(ev, cfg) && PlainFormats(fmt) && Statement(ev, cfg, fmt).Some?
    ensures LiteralList(fmt, ev.fields, ev.values, 0).Some?
    ensures ParseInsert(Statement(ev, cfg, fmt).value)
      == Some(Insert(TargetNames(ev, cfg), AllColumns(ev, cfg), AllLiterals(ev, cfg, fmt)))
    ensures |AllColumns(ev, cfg)| == |AllLiterals(ev, cfg, fmt)|
    ensures ParseInsert(Statement(ev, cfg, fmt).value).value.target
      == (if ev.database != "" then [ev.database] else if cfg.defaultDatabase != "" then [cfg.defaultDatabase] else [])
         + [if ev.schema != "" then ev.schema else "dbo", ev.table]
  {
    hide Target, BracketFreeNames, PlainFormats, ValuesFrom, ColumnsFrom, EventIdColumn, EventIdValue, ParseIdents, ParseValues;
    hide TargetNames, ColumnList, LiteralList, Decimal;
    ValuesGoOn(fmt, ev.fields, ev.values, 0);
    EquallyMany(fmt, ev.fields, ev.values);
    var values := EventIdValue(ev, cfg) + ValuesFrom(fmt, ev.fields, ev.values, 0, true).value;
    var columns := EventIdColumn(cfg) + ColumnsFrom(ev.fields, 0, true);
    var s3 := values + ");";
    var s2 := columns + (") VALUES (" + s3);
    var s1 := Target(ev, cfg) + (" (" + s2);
    assert Statement(ev, cfg, fmt).value == "INSERT INTO " + s1 by { InsertGrouped(ev, cfg, ValuesFrom(fmt, ev.fields, ev.values, 0, true).value); }
    ExpectWord("INSERT INTO ", s1);
    TargetRead(ev, cfg, " (" + s2);
    ExpectWord(" (", s2);
    assert (") VALUES (" + s3)[0] == ')';
    AllColumnsRead(ev, cfg, ") VALUES (" + s3);
    ExpectWord(") VALUES (", s3);
    AllValuesRead(ev, cfg, fmt, ");");
    ListsRead(TargetNames(ev, cfg), s2, ") VALUES (" + s3, s3, AllColumns(ev, cfg), AllLiterals(ev, cfg, fmt));
    TargetIs(ev, cfg);
  }

  lemma InsertGrouped(ev: CapturedEvent, cfg: SqlConfig, values: string)
    ensures InsertText(ev, cfg, values)
      == "INSERT INTO " + (Target(ev, cfg) + (" (" + (EventIdColumn(cfg) + ColumnsFrom(ev.fields, 0, true)
         + (") VALUES (" + (EventIdValue(ev, cfg) + values + ");")))))
  {
    hide Target, EventIdColumn, ColumnsFrom, EventIdValue;
    Serializer.Join([], EventIdValue(ev, cfg), values, ");", "");
    var tail := ") VALUES (" + (EventIdValue(ev, cfg) + (values + ");"));
    assert EventIdValue(ev, cfg) + (values + ");") == EventIdValue(ev, cfg) + values + ");";
    assert EventIdColumn(cfg) + (ColumnsFrom(ev.fields, 0, true) + tail)
      == EventIdColumn(cfg) + ColumnsFrom(ev.fields, 0, true) + tail;
  }

  lemma ListsRead(target: seq<string>, s: string, s1: string, s2: string, columns: seq<string>, values: seq<Literal>)
    requires ParseIdents(s, ", ") == Some(Got(columns, s1)) && Expect(s1, ") VALUES (") == Some(s2)
    requires ParseValues(s2) == Some(Got(values, ");"))
    ensures ParseLists(target, " (" + s) == Some(Insert(target, columns, values))
  {
    hide ParseIdents, ParseValues;
    ExpectWord(" (", s);
  }

  // ----- Through the queue and back -----

  /** How a captured value's type steers its text; types of one class are written alike. */
  datatype Reading = ReadsReal | ReadsText | ReadsBool | ReadsUnsigned | ReadsSigned

  function ReadingOf(f: FieldMapping, v: FieldValue, plcType: byte): Reading {
    if f.sqlType == SQL_BIT then
      if plcType == PLC_REAL then ReadsReal else if plcType == PLC_STRING then ReadsText else ReadsSigned
    else if IsIntType(f.sqlType) then
      if plcType == PLC_REAL then ReadsReal else if plcType == PLC_STRING then ReadsText
      else if IsUnsigned(plcType) then ReadsUnsigned else ReadsSigned
    else if IsFloatType(f.sqlType) then
      if plcType == PLC_REAL then ReadsReal else if plcType == PLC_STRING then ReadsText
      else if plcType == PLC_BOOL then ReadsBool else ReadsSigned
    else if v.text != "" then ReadsText
    else if plcType == PLC_REAL || plcType == PLC_LREAL then ReadsReal
    else if plcType == PLC_BOOL then ReadsBool
    else if IsUnsigned(plcType) then ReadsUnsigned
    else ReadsSigned
  }

  /** The value is written alike under its own type and under its field's type. */
  predicate TypeAgrees(f: FieldMapping, v: FieldValue) {
    !v.valid || v.isNull || ReadingOf(f, v, v.plcType) == ReadingOf(f, v, f.plcType)
  }

  ghost predicate TypesAgree(ev: CapturedEvent)
    requires |ev.fields| == |ev.values|
  {
    forall i :: 0 <= i < |ev.fields| ==> TypeAgrees(ev.fields[i], ev.values[i])
  }

  lemma MeaningKept(fmt: Formats, f: FieldMapping, v: FieldValue)
    requires TypeAgrees(f, v)
    ensures Meaning(fmt, Serializer.PersistedField(f), Serializer.PersistedValue(f, v)) == Meaning(fmt, f, v)
  {
    hide Decimal, SignedDecimal, Trim;
  }

  lemma {:induction false} PersistedAt(fs: seq<FieldMapping>, vs: seq<FieldValue>, i: nat)
    requires i < |fs| == |vs|
    ensures Serializer.PersistedFields(fs)[i] == Serializer.PersistedField(fs[i])
    ensures Serializer.PersistedValues(fs, vs)[i] == Serializer.PersistedValue(fs[i], vs[i])
    decreases |fs|
  {
    hide Serializer.PersistedField, Serializer.PersistedValue;
    if i > 0 {
      PersistedAt(fs[1..], vs[1..], i - 1);
    }
  }

  lemma UsedEarlierKept(fs: seq<FieldMapping>, vs: seq<FieldValue>, i: nat)
    requires i < |fs| == |vs|
    ensures UsedEarlier(Serializer.PersistedFields(fs), i) == UsedEarlier(fs, i)
  {
    hide Serializer.PersistedFields, Serializer.PersistedValues;
    forall j | 0 <= j <= i
      ensures Serializer.PersistedFields(fs)[j].sqlColumn == fs[j].sqlColumn
    {
      PersistedAt(fs, vs, j);
    }
  }

  lemma {:induction false} ListsKept(fmt: Formats, fs: seq<FieldMapping>, vs: seq<FieldValue>, i: nat, first: bool)
    requires i <= |fs| == |vs| && forall k :: 0 <= k < |fs| ==> TypeAgrees(fs[k], vs[k])
    ensures var gs, ws := Serializer.PersistedFields(fs), Serializer.PersistedValues(fs, vs);
      && ColumnsFrom(gs, i, first) == ColumnsFrom(fs, i, first)
      && ValuesFrom(fmt, gs, ws, i, first) == ValuesFrom(fmt, fs, vs, i, first)
    decreases |fs| - i
  {
    hide UsedEarlier, Meaning, LiteralText, Ident, TypeAgrees, Serializer.PersistedFields, Serializer.PersistedValues;
    if i < |fs| {
      PersistedAt(fs, vs, i);
      UsedEarlierKept(fs, vs, i);
      MeaningKept(fmt, fs[i], vs[i]);
      ListsKept(fmt, fs, vs, i + 1, first);
      ListsKept(fmt, fs, vs, i + 1, false);
    }
  }

  lemma {:induction false} PairsKept(fmt: Formats, fs: seq<FieldMapping>, vs: seq<FieldValue>, i: nat, keys: bool,
                                     separator: string, first: bool)
    requires i <= |fs| == |vs| && forall k :: 0 <= k < |fs| ==> TypeAgrees(fs[k], vs[k])
    ensures PairsFrom(fmt, Serializer.PersistedFields(fs), Serializer.PersistedValues(fs, vs), i, keys, separator, first)
      == PairsFrom(fmt, fs, vs, i, keys, separator, first)
    decreases |fs| - i
  {
    hide UsedEarlier, Meaning, LiteralText, Ident, TypeAgrees, Serializer.PersistedFields, Serializer.PersistedValues;
    if i < |fs| {
      PersistedAt(fs, vs, i);
      UsedEarlierKept(fs, vs, i);
      MeaningKept(fmt, fs[i], vs[i]);
      PairsKept(fmt, fs, vs, i + 1, keys, separator, first);
      PairsKept(fmt, fs, vs, i + 1, keys, separator, false);
    }
  }

  lemma HasKeyKept(fs: seq<FieldMapping>, vs: seq<FieldValue>)
    requires |fs| == |vs|
    ensures HasKey(Serializer.PersistedFields(fs)) == HasKey(fs)
  {
    hide Serializer.PersistedFields, Serializer.PersistedValues, UsedEarlier;
    forall i | 0 <= i < |fs|
      ensures Serializer.PersistedFields(fs)[i].isWhereKey == fs[i].isWhereKey
      ensures UsedEarlier(Serializer.PersistedFields(fs), i) == UsedEarlier(fs, i)
    {
      PersistedAt(fs, vs, i);
      UsedEarlierKept(fs, vs, i);
    }
  }

  /** What the queue stores of an event is enough to write the same statement. */
  lemma StatementPersists(ev: CapturedEvent, cfg: SqlConfig, fmt: Formats)
    requires |ev.fields| == |ev.values| && TypesAgree(ev)
    ensures Statement(Serializer.Persisted(ev), cfg, fmt) == Statement(ev, cfg, fmt)
  {
    hide ColumnsFrom, ValuesFrom, PairsFrom, HasKey, TypeAgrees, Serializer.PersistedFields, Serializer.PersistedValues;
    ListsKept(fmt, ev.fields, ev.values, 0, true);
    PairsKept(fmt, ev.fields, ev.values, 0, false, ", ", true);
    PairsKept(fmt, ev.fields, ev.values, 0, true, " AND ", true);
    HasKeyKept(ev.fields, ev.values);
  }

  /** The queue's own decoder returns that event, so the statement survives the queue byte for byte. */
  lemma StatementSurvivesQueue(ev: CapturedEvent, cfg: SqlConfig, fmt: Formats)
    requires ValidEvent(ev) && TypesAgree(ev)
    ensures var back := Serializer.Decode(Serializer.Encode(ev));
      && back.Some? && |back.value.fields| == |back.value.values|
      && Statement(back.value, cfg, fmt) == Statement(ev, cfg, fmt)
  {
    hide Statement, Serializer.Decode, Serializer.Encode, TypesAgree;
    Serializer.DecodeEncode(ev);
    StatementPersists(ev, cfg, fmt);
  }

  /**
   * Where the types do not agree the text can change: minus one read as an
   * unsigned 64-bit value is written as 2^64-1, but comes back from the queue
   * under the mapping's type, as -1.
   */
  lemma TypeLost(fmt: Formats, f: FieldMapping, v: FieldValue)
    requires f.sqlType == SQL_BIGINT && f.plcType == PLC_UNKNOWN
    requires v.valid && !v.isNull && v.plcType == PLC_ULINT && v.i64 == -1
    ensures !TypeAgrees(f, v)
    ensures Meaning(fmt, f, v) != Meaning(fmt, Serializer.PersistedField(f), Serializer.PersistedValue(f, v))
  {
    hide Decimal;
    DecimalPlain(AsUnsigned(v.i64));
    var written := Meaning(fmt, f, v).value.token;
    var after := Meaning(fmt, Serializer.PersistedField(f), Serializer.PersistedValue(f, v)).value.token;
    assert written[0] != '-' && after[0] == '-';
  }
}
