/** Reading a generated UPDATE back. */
module SqlUpdate {
  import opened Bytes
  import opened GatewayTypes
  import opened SqlText
  import opened SqlParse

  datatype Pair = Pair(column: string, value: Literal)

  datatype Update = Update(target: seq<string>, settings: seq<Pair>, keys: seq<Pair>)

  // ----- The parser -----

  function ParsePair(s: string): Option<Got<Pair>> {
    match ParseIdent(s)
    case None => None
    case Some(id) =>
      match Expect(id.rest, "=")
      case None => None
      case Some(s1) =>
        match ParseValue(s1)
        case None => None
        case Some(v) => Some(Got(Pair(id.value, v.value), v.rest))
  }

  function ParsePairs(s: string, separator: string): Option<Got<seq<Pair>>>
    decreases |s|
  {
    match ParsePair(s)
    case None => None
    case Some(p) =>
      if separator <= p.rest && |p.rest[|separator|..]| < |s| then
        match ParsePairs(p.rest[|separator|..], separator)
        case None => None
        case Some(more) => Some(Got([p.value] + more.value, more.rest))
      else Some(Got([p.value], p.rest))
  }

  function ParseUpdate(s: string): Option<Update> {
    match Expect(s, "UPDATE ")
    case None => None
    case Some(s1) =>
      match ParseIdents(s1, ".")
      case None => None
      case Some(target) => ParseBoth(target.value, target.rest)
  }

  function ParseBoth(target: seq<string>, s: string): Option<Update> {
    match Expect(s, " SET ")
    case None => None
    case Some(s1) =>
      match ParsePairs(s1, ", ")
      case None => None
      case Some(settings) =>
        match Expect(settings.rest, " WHERE ")
        case None => None
        case Some(s2) =>
          match ParsePairs(s2, " AND ")
          case None => None
          case Some(keys) =>
            if keys.rest == ";" then Some(Update(target, settings.value, keys.value)) else None
  }

  // ----- What is to be read -----

  predicate Listed(fs: seq<FieldMapping>, i: nat, keys: bool)
    requires i < |fs|
  {
    fs[i].isWhereKey == keys && !UsedEarlier(fs, i)
  }

  /** The pairs of the listed fields from field `i` on; None if a value is refused. */
  function PairList(fmt: Formats, fs: seq<FieldMapping>, vs: seq<FieldValue>, i: nat, keys: bool): Option<seq<Pair>>
    requires i <= |fs| == |vs|
    decreases |fs| - i
  {
    if i == |fs| then Some([])
    else if !Listed(fs, i, keys) then PairList(fmt, fs, vs, i + 1, keys)
    else
      match (Meaning(fmt, fs[i], vs[i]), PairList(fmt, fs, vs, i + 1, keys))
      case (Some(l), Some(more)) => Some([Pair(fs[i].sqlColumn, l)] + more)
      case _ => None
  }

  function Chosen(fs: seq<FieldMapping>, i: nat, keys: bool): (ks: seq<nat>)
    requires i <= |fs|
    ensures forall k :: 0 <= k < |ks| ==> i <= ks[k] < |fs|
    decreases |fs| - i
  {
    if i == |fs| then []
    else if !Listed(fs, i, keys) then Chosen(fs, i + 1, keys)
    else [i] + Chosen(fs, i + 1, keys)
  }

  /** The fields listed are those with that key flag, first of their columns ... */
  lemma {:induction false} ChosenExactly(fs: seq<FieldMapping>, i: nat, keys: bool, n: nat)
    requires i <= n < |fs|
    ensures n in Chosen(fs, i, keys) <==> Listed(fs, n, keys)
    decreases |fs| - i
  {
    hide Listed;
    if i < n {
      ChosenExactly(fs, i + 1, keys, n);
    } else {
      assert i !in Chosen(fs, i + 1, keys);
    }
  }

  /** ... in order ... */
  lemma {:induction false} ChosenInOrder(fs: seq<FieldMapping>, i: nat, keys: bool, j: nat, k: nat)
    requires i <= |fs| && j < k < |Chosen(fs, i, keys)|
    ensures Chosen(fs, i, keys)[j] < Chosen(fs, i, keys)[k]
    decreases |fs| - i
  {
    hide Listed;
    if !Listed(fs, i, keys) {
      ChosenInOrder(fs, i + 1, keys, j, k);
    } else if j > 0 {
      ChosenInOrder(fs, i + 1, keys, j - 1, k - 1);
    }
  }

  ghost predicate PairsFit(fmt: Formats, fs: seq<FieldMapping>, vs: seq<FieldValue>, ks: seq<nat>, ps: seq<Pair>)
    requires |fs| == |vs| && forall k :: 0 <= k < |ks| ==> ks[k] < |fs|
  {
    && |ps| == |ks|
    && (forall k :: 0 <= k < |ks| ==> ps[k].column == fs[ks[k]].sqlColumn)
    && (forall k :: 0 <= k < |ks| ==> Meaning(fmt, fs[ks[k]], vs[ks[k]]) == Some(ps[k].value))
  }

  /** ... each with its own column and value. */
  lemma {:induction false} PairsFollow(fmt: Formats, fs: seq<FieldMapping>, vs: seq<FieldValue>, i: nat, keys: bool)
    requires i <= |fs| == |vs| && PairList(fmt, fs, vs, i, keys).Some?
    ensures PairsFit(fmt, fs, vs, Chosen(fs, i, keys), PairList(fmt, fs, vs, i, keys).value)
    decreases |fs| - i
  {
    hide Listed, Meaning;
    if i < |fs| {
      PairsFollow(fmt, fs, vs, i + 1, keys);
    }
  }

  // ----- Reading the lists -----

  lemma PairRead(id: string, l: Literal, rest: string)
    requires NoBracket(id) && ReadableLiteral(l) && Ended(rest)
    ensures ParsePair(Ident(id) + ("=" + (LiteralText(l) + rest))) == Some(Got(Pair(id, l), rest))
  {
    hide ParseIdent, ParseValue, LiteralText, Ident;
    IdentRead(id, "=" + (LiteralText(l) + rest));
    ExpectWord("=", LiteralText(l) + rest);
    ValueRead(l, rest);
  }

  function PairText(p: Pair): string {
    Ident(p.column) + ("=" + LiteralText(p.value))
  }

  lemma PairTextThen(p: Pair, rest: string)
    ensures PairText(p) + rest == Ident(p.column) + ("=" + (LiteralText(p.value) + rest))
    ensures |PairText(p)| > 0
  {
    hide LiteralText;
  }

  lemma PairsMore(p: Pair, separator: string, rest: string)
    requires NoBracket(p.column) && ReadableLiteral(p.value) && |separator| > 0 && EndsToken(separator[0])
    ensures ParsePairs(PairText(p) + (separator + rest), separator)
      == if ParsePairs(rest, separator).Some?
         then Some(Got([p] + ParsePairs(rest, separator).value.value, ParsePairs(rest, separator).value.rest)) else None
  {
    hide ParsePair, PairText;
    PairTextThen(p, separator + rest);
    PairRead(p.column, p.value, separator + rest);
    assert (separator + rest)[|separator|..] == rest;
  }

  lemma PairsLast(p: Pair, separator: string, rest: string)
    requires NoBracket(p.column) && ReadableLiteral(p.value) && Ended(rest) && !(separator <= rest)
    ensures ParsePairs(PairText(p) + rest, separator) == Some(Got([p], rest))
  {
    hide ParsePair, PairText;
    PairTextThen(p, rest);
    PairRead(p.column, p.value, rest);
  }

  lemma {:induction false} PairsGoOn(fmt: Formats, fs: seq<FieldMapping>, vs: seq<FieldValue>, i: nat, keys: bool, separator: string)
    requires i <= |fs| == |vs|
    ensures PairsFrom(fmt, fs, vs, i, keys, separator, false).Some? <==> PairList(fmt, fs, vs, i, keys).Some?
    ensures PairsFrom(fmt, fs, vs, i, keys, separator, true).Some? <==> PairList(fmt, fs, vs, i, keys).Some?
    ensures PairList(fmt, fs, vs, i, keys) == Some([]) ==> PairsFrom(fmt, fs, vs, i, keys, separator, false) == Some("")
    ensures PairList(fmt, fs, vs, i, keys) == Some([]) ==> PairsFrom(fmt, fs, vs, i, keys, separator, true) == Some("")
    ensures PairList(fmt, fs, vs, i, keys).Some? && PairList(fmt, fs, vs, i, keys).value != []
      ==> PairsFrom(fmt, fs, vs, i, keys, separator, false)
          == Some(separator + PairsFrom(fmt, fs, vs, i, keys, separator, true).value)
    decreases |fs| - i
  {
    hide UsedEarlier, Meaning, LiteralText, Ident;
    if i < |fs| {
      PairsGoOn(fmt, fs, vs, i + 1, keys, separator);
      if Listed(fs, i, keys) && PairList(fmt, fs, vs, i, keys).Some? {
        var l := Meaning(fmt, fs[i], vs[i]).value;
        var text := Ident(fs[i].sqlColumn) + ("=" + (LiteralText(l) + PairsFrom(fmt, fs, vs, i + 1, keys, separator, false).value));
        assert "" + text == text;
      }
    }
  }

  /** The list starts with this pair. */
  lemma PairsHead(fmt: Formats, fs: seq<FieldMapping>, vs: seq<FieldValue>, i: nat, keys: bool, separator: string, rest: string)
    requires i < |fs| == |vs| && Listed(fs, i, keys) && PairList(fmt, fs, vs, i, keys).Some?
    ensures Meaning(fmt, fs[i], vs[i]).Some? && PairList(fmt, fs, vs, i + 1, keys).Some?
    ensures PairsFrom(fmt, fs, vs, i, keys, separator, true).Some? && PairsFrom(fmt, fs, vs, i + 1, keys, separator, true).Some?
    ensures var p, ps := Pair(fs[i].sqlColumn, Meaning(fmt, fs[i], vs[i]).value), PairList(fmt, fs, vs, i + 1, keys).value;
      && PairList(fmt, fs, vs, i, keys).value == [p] + ps
      && PairsFrom(fmt, fs, vs, i, keys, separator, true).value + rest
         == PairText(p) + if ps == [] then rest
                          else separator + (PairsFrom(fmt, fs, vs, i + 1, keys, separator, true).value + rest)
  {
    hide UsedEarlier, Meaning, LiteralText, Ident;
    PairsGoOn(fmt, fs, vs, i + 1, keys, separator);
    PairsGoOn(fmt, fs, vs, i, keys, separator);
    var p := Pair(fs[i].sqlColumn, Meaning(fmt, fs[i], vs[i]).value);
    var below := PairsFrom(fmt, fs, vs, i + 1, keys, separator, false).value;
    PairTextThen(p, below);
    assert PairsFrom(fmt, fs, vs, i, keys, separator, true).value == "" + (PairText(p) + below);
    assert PairText(p) + below + rest == PairText(p) + (below + rest);
  }

  lemma {:induction false} PairsRead(fmt: Formats, fs: seq<FieldMapping>, vs: seq<FieldValue>, i: nat, keys: bool,
                                     separator: string, rest: string)
    requires i <= |fs| == |vs| && PlainFormats(fmt) && BracketFree(fs) && Ended(rest) && !(separator <= rest)
    requires |separator| > 0 && EndsToken(separator[0])
    requires PairList(fmt, fs, vs, i, keys).Some? && PairList(fmt, fs, vs, i, keys).value != []
    ensures PairsFrom(fmt, fs, vs, i, keys, separator, true).Some?
    ensures ParsePairs(PairsFrom(fmt, fs, vs, i, keys, separator, true).value + rest, separator)
      == Some(Got(PairList(fmt, fs, vs, i, keys).value, rest))
    decreases |fs| - i
  {
    hide ParsePairs, Meaning, PairText, ReadableLiteral, PlainFormats, UsedEarlier;
    if !Listed(fs, i, keys) {
      PairsRead(fmt, fs, vs, i + 1, keys, separator, rest);
    } else {
      PairsHead(fmt, fs, vs, i, keys, separator, rest);
      hide PairsFrom, PairList;
      MeaningReadable(fmt, fs[i], vs[i]);
      var p := Pair(fs[i].sqlColumn, Meaning(fmt, fs[i], vs[i]).value);
      if PairList(fmt, fs, vs, i + 1, keys).value == [] {
        assert [p] + PairList(fmt, fs, vs, i + 1, keys).value == [p];
        PairsLast(p, separator, rest);
      } else {
        PairsMore(p, separator, PairsFrom(fmt, fs, vs, i + 1, keys, separator, true).value + rest);
        PairsRead(fmt, fs, vs, i + 1, keys, separator, rest);
      }
    }
  }

  // ----- The whole statement -----

  /** A field to set. */
  predicate HasSetting(fs: seq<FieldMapping>) {
    exists i :: 0 <= i < |fs| && Listed(fs, i, false)
  }

  lemma {:induction false} ListedOrNone(fmt: Formats, fs: seq<FieldMapping>, vs: seq<FieldValue>, i: nat, keys: bool)
    requires i <= |fs| == |vs| && PairList(fmt, fs, vs, i, keys).Some?
    ensures PairList(fmt, fs, vs, i, keys).value != [] <==> exists k :: i <= k < |fs| && Listed(fs, k, keys)
    decreases |fs| - i
  {
    hide Listed, Meaning;
    if i < |fs| {
      ListedOrNone(fmt, fs, vs, i + 1, keys);
    }
  }

  lemma KeysListed(fs: seq<FieldMapping>)
    ensures HasKey(fs) <==> exists k :: 0 <= k < |fs| && Listed(fs, k, true)
  {
    if HasKey(fs) {
      var i :| 0 <= i < |fs| && fs[i].isWhereKey && !UsedEarlier(fs, i);
      assert Listed(fs, i, true);
    }
    if k :| 0 <= k < |fs| && Listed(fs, k, true) {
      assert fs[k].isWhereKey && !UsedEarlier(fs, k);
    }
  }

  ghost predicate Means(u: Update, ev: CapturedEvent, cfg: SqlConfig, fmt: Formats)
    requires |ev.fields| == |ev.values|
  {
    && u.target == (if ev.database != "" then [ev.database] else if cfg.defaultDatabase != "" then [cfg.defaultDatabase] else [])
                   + [if ev.schema != "" then ev.schema else "dbo", ev.table]
    && PairList(fmt, ev.fields, ev.values, 0, false) == Some(u.settings)
    && PairList(fmt, ev.fields, ev.values, 0, true) == Some(u.keys)
  }

  /**
   * A generated UPDATE reads back as what the event means - exactly if there
   * is a field to set. Without one the statement is built all the same, with
   * nothing between SET and WHERE.
   */
  lemma UpdateReparses(ev: CapturedEvent, cfg: SqlConfig, fmt: Formats)
    requires |ev.fields| == |ev.values| && ev.operation != OP_INSERT
    requires BracketFreeNames(ev, cfg) && PlainFormats(fmt) && Statement(ev, cfg, fmt).Some?
    ensures var u := ParseUpdate(Statement(ev, cfg, fmt).value);
      && (u.Some? <==> HasSetting(ev.fields))
      && (u.Some? ==> Means(u.value, ev, cfg, fmt) && u.value.keys != [])
  {
    hide Target, BracketFreeNames, PlainFormats, PairsFrom, PairList, ParseIdents, ParsePairs, TargetNames, Listed, HasKey;
    TargetIs(ev, cfg);
    PairsGoOn(fmt, ev.fields, ev.values, 0, false, ", ");
    PairsGoOn(fmt, ev.fields, ev.values, 0, true, " AND ");
    ListedOrNone(fmt, ev.fields, ev.values, 0, false);
    ListedOrNone(fmt, ev.fields, ev.values, 0, true);
    KeysListed(ev.fields);
    NamesFree(ev, cfg);
    var settings := PairsFrom(fmt, ev.fields, ev.values, 0, false, ", ", true).value;
    var keys := PairsFrom(fmt, ev.fields, ev.values, 0, true, " AND ", true).value;
    var s3 := keys + ";";
    var s2 := settings + (" WHERE " + s3);
    var s1 := Target(ev, cfg) + (" SET " + s2);
    ExpectWord("UPDATE ", s1);
    TargetRead(ev, cfg, " SET " + s2);
    ExpectWord(" SET ", s2);
    ExpectWord(" WHERE ", s3);
    PairsRead(fmt, ev.fields, ev.values, 0, true, " AND ", ";");
    if HasSetting(ev.fields) {
      PairsRead(fmt, ev.fields, ev.values, 0, false, ", ", " WHERE " + s3);
    } else {
      assert settings == "";
      NoPairs(" WHERE " + s3);
      assert s2 == " WHERE " + s3;
    }
  }

  lemma NamesFree(ev: CapturedEvent, cfg: SqlConfig)
    requires BracketFreeNames(ev, cfg)
    ensures BracketFree(ev.fields)
  {
  }

  lemma NoPairs(s: string)
    requires s != "" && s[0] == ' '
    ensures ParsePairs(s, ", ") == None
  {
  }
}
