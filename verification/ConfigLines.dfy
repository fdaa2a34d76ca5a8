/** The lines of the configuration blob as texts. */
module ConfigLines {
  // What each line looks like, and what becomes of a line that says less.

  import opened Bytes
  import opened GatewayTypes
  import opened Decimals
  import opened Strings
  import opened Scanf
  import opened ConfigBlob
  import opened ConfigRoundTrip

  // ----- What is written -----

  /** The parts, each behind a tab. */
  function Tabbed(parts: seq<string>): string {
    if parts == [] then "" else "\t" + parts[0] + Tabbed(parts[1..])
  }

  function OnOff(b: bool): string {
    if b then "1" else "0"
  }

  /** The text of an argument, without what comes before it. */
  function ArgText(a: Arg): string {
    match a
    case Num(v) => Decimal(v)
    case Str(text) => text
  }

  function Texts(args: seq<Arg>): seq<string> {
    if args == [] then [] else [ArgText(args[0])] + Texts(args[1..])
  }

  /** All arguments are separated by tabs. */
  predicate AllTabs(kinds: seq<Kind>, args: seq<Arg>) {
    |kinds| == |args| && forall i :: 0 <= i < |kinds| ==> TabArg(kinds[i], args[i])
  }

  predicate TabArg(kind: Kind, a: Arg) {
    match kind
    case Number(separator) => separator == '\t' && a.Num?
    case Word(_) => a.Str?
  }

  lemma {:induction false} PrintTabbed(kinds: seq<Kind>, args: seq<Arg>)
    requires AllTabs(kinds, args)
    ensures Print(kinds, args) == Tabbed(Texts(args))
    decreases |kinds|
  {
    if kinds != [] {
      PrintTabbed(kinds[1..], args[1..]);
      assert TabArg(kinds[0], args[0]);
      assert Texts(args)[1..] == Texts(args[1..]);
      assert PrintOne(kinds[0], args[0]) == "\t" + ArgText(args[0]);
    }
  }

  lemma {:induction false} PrintConcat(ka: seq<Kind>, a: seq<Arg>, kb: seq<Kind>, b: seq<Arg>)
    requires |ka| == |a| && |kb| == |b|
    ensures Print(ka + kb, a + b) == Print(ka, a) + Print(kb, b)
    decreases |ka|
  {
    hide PrintOne;
    if ka == [] {
      assert ka + kb == kb && a + b == b;
    } else {
      PrintConcat(ka[1..], a[1..], kb, b);
      var kinds, args := ka + kb, a + b;
      assert kinds[1..] == ka[1..] + kb && args[1..] == a[1..] + b && kinds[0] == ka[0] && args[0] == a[0];
      assert Print(kinds, args) == PrintOne(ka[0], a[0]) + Print(kinds[1..], args[1..]);
      Assoc(PrintOne(ka[0], a[0]), Print(ka[1..], a[1..]), Print(kb, b));
    }
  }

  lemma Texts4(a: Arg, b: Arg, c: Arg, d: Arg)
    ensures Texts([a, b, c, d]) == [ArgText(a), ArgText(b), ArgText(c), ArgText(d)]
    ensures Texts([a, b, c]) == [ArgText(a), ArgText(b), ArgText(c)]
  {
    hide ArgText;
    assert [a, b, c, d][1..] == [b, c, d] && [a, b, c][1..] == [b, c] && [b, c, d][1..] == [c, d];
    assert [b, c][1..] == [c] && [c, d][1..] == [d] && [c][1..] == [] && [d][1..] == [];
    assert Texts([c]) == [ArgText(c)] + Texts([]) && Texts([d]) == [ArgText(d)] + Texts([]);
    assert Texts([b, c]) == [ArgText(b)] + Texts([c]) && Texts([c, d]) == [ArgText(c)] + Texts([d]);
    assert Texts([b, c, d]) == [ArgText(b)] + Texts([c, d]);
  }

  lemma OnOffText(b: bool)
    ensures ArgText(Bit(b)) == OnOff(b)
  {
  }

  lemma HeaderLineText(cfg: Config)
    requires |cfg.plcs| <= MAX_PLCS && |cfg.mappings| <= MAX_MAPPINGS
    ensures HeaderLine(cfg) == "V1" + Tabbed([Decimal(|cfg.plcs|), Decimal(|cfg.mappings|), Decimal(cfg.revision)])
  {
    hide Print, Tabbed, Texts, Decimal;
    var args := HeaderArgs(cfg);
    assert AllTabs(HEADER_KINDS, args);
    PrintTabbed(HEADER_KINDS, args);
    Texts4(args[0], args[1], args[2], args[2]);
  }

  lemma FieldLineText(f: FieldMapping)
    ensures FieldLine(f)
      == "F" + Tabbed([f.plcTag, Decimal(f.plcType), f.sqlColumn, Decimal(f.sqlType)]
                      + [OnOff(f.required), OnOff(f.nullable), OnOff(f.isWhereKey)])
  {
    hide Print, Tabbed, Texts, Decimal, Bit, OnOff;
    var args := FieldArgs(f);
    assert AllTabs(FIELD_KINDS, args) by { FieldTabs(f); }
    PrintTabbed(FIELD_KINDS, args);
    assert args == args[..4] + args[4..];
    TextsConcat(args[..4], args[4..]);
    Texts4(args[0], args[1], args[2], args[3]);
    Texts4(args[4], args[5], args[6], args[6]);
    assert args[..4] == [args[0], args[1], args[2], args[3]] && args[4..] == [args[4], args[5], args[6]];
    OnOffText(f.required);
    OnOffText(f.nullable);
    OnOffText(f.isWhereKey);
  }

  lemma FieldTabs(f: FieldMapping)
    ensures AllTabs(FIELD_KINDS, FieldArgs(f))
  {
  }

  lemma {:induction false} TextsConcat(a: seq<Arg>, b: seq<Arg>)
    ensures Texts(a + b) == Texts(a) + Texts(b)
    decreases |a|
  {
    if a == [] {
      assert a + b == b;
    } else {
      TextsConcat(a[1..], b);
      assert (a + b)[1..] == a[1..] + b;
    }
  }

  lemma MappingLineText(m: Mapping)
    requires |m.fields| <= MAX_FIELDS_PER_MAPPING
    ensures MappingLine(m)
      == "M" + (Tabbed([Decimal(m.id), Decimal(m.plcId), OnOff(m.enabled), m.name]
                       + ([m.triggerTag, m.ackTag, Decimal(m.operation), m.database]
                          + [m.schema, m.table, Decimal(|m.fields|), OnOff(m.includePlcName)]))
                + ("\t" + m.plcNameColumn))
  {
    hide Print, Tabbed, Texts, Decimal, Bit, OnOff;
    var args := MappingHeadArgs(m);
    assert AllTabs(MAPPING_HEAD_KINDS, args) by { MappingTabs(m); }
    PrintTabbed(MAPPING_HEAD_KINDS, args);
    var a, b, c := args[..4], args[4..8], args[8..];
    assert args == a + (b + c);
    TextsConcat(a, b + c);
    TextsConcat(b, c);
    Texts4(args[0], args[1], args[2], args[3]);
    Texts4(args[4], args[5], args[6], args[7]);
    Texts4(args[8], args[9], args[10], args[11]);
    assert a == [args[0], args[1], args[2], args[3]] && b == [args[4], args[5], args[6], args[7]];
    assert c == [args[8], args[9], args[10], args[11]];
    OnOffText(m.enabled);
    OnOffText(m.includePlcName);
  }

  lemma MappingTabs(m: Mapping)
    requires |m.fields| <= MAX_FIELDS_PER_MAPPING
    ensures AllTabs(MAPPING_HEAD_KINDS, MappingHeadArgs(m))
  {
  }

  /** The address as four octets, the highest first. */
  function Dotted(ip: u32): string {
    var v: nat := ip;
    Decimal(v / 16777216) + ("." + (Decimal(v / 65536 % 256) + ("." + (Decimal(v / 256 % 256) + ("." + Decimal(v % 256))))))
  }

  lemma PlcLineText(p: Plc)
    ensures PlcLine(p)
      == "P" + (Tabbed([Decimal(p.id), OnOff(p.enabled), p.name])
                + (("\t" + Dotted(p.ip))
                   + Tabbed([Decimal(p.pollIntervalMs), Decimal(p.requestTimeoutMs), Decimal(p.retryDelayMs)])))
  {
    hide Print, Tabbed, Texts, Decimal, Bit, OnOff;
    var args := PlcArgs(p);
    var k1, k2, k3 := PLC_KINDS[..3], PLC_KINDS[3..7], PLC_KINDS[7..];
    var a, b, c := args[..3], args[3..7], args[7..];
    assert PLC_KINDS == k1 + (k2 + k3) && args == a + (b + c);
    PrintConcat(k1, a, k2 + k3, b + c);
    PrintConcat(k2, b, k3, c);
    assert AllTabs(k1, a) && AllTabs(k3, c) by { PlcTabs(p); }
    PrintTabbed(k1, a);
    PrintTabbed(k3, c);
    Texts4(args[0], args[1], args[2], args[2]);
    Texts4(args[7], args[8], args[9], args[9]);
    assert a == [args[0], args[1], args[2]] && c == [args[7], args[8], args[9]];
    OnOffText(p.enabled);
    AddressText(p);
  }

  lemma PlcTabs(p: Plc)
    ensures |PlcArgs(p)| == 10
    ensures AllTabs(PLC_KINDS[..3], PlcArgs(p)[..3]) && AllTabs(PLC_KINDS[7..], PlcArgs(p)[7..])
  {
  }

  lemma NumberPrinted(separator: char, v: u32, kinds: seq<Kind>, args: seq<Arg>)
    requires |kinds| == |args|
    ensures Print([Number(separator)] + kinds, [Num(v)] + args) == [separator] + (Decimal(v) + Print(kinds, args))
  {
    hide Decimal;
    var ks, xs := [Number(separator)] + kinds, [Num(v)] + args;
    assert ks[1..] == kinds && xs[1..] == args;
    assert Print(ks, xs) == PrintOne(ks[0], xs[0]) + Print(ks[1..], xs[1..]);
    Assoc([separator], Decimal(v), Print(kinds, args));
  }

  lemma DottedText(a: u32, b: u32, c: u32, d: u32)
    ensures Print([Number('\t')] + ([Number('.')] + ([Number('.')] + ([Number('.')] + []))), [Num(a)] + ([Num(b)] + ([Num(c)] + ([Num(d)] + []))))
      == "\t" + (Decimal(a) + ("." + (Decimal(b) + ("." + (Decimal(c) + ("." + Decimal(d)))))))
  {
    hide Print, Decimal;
    NumberPrinted('.', d, [], []);
    assert Print([], []) == "" by { NothingPrinted(); }
    assert Decimal(d) + "" == Decimal(d);
    NumberPrinted('.', c, [Number('.')] + [], [Num(d)] + []);
    NumberPrinted('.', b, [Number('.')] + ([Number('.')] + []), [Num(c)] + ([Num(d)] + []));
    NumberPrinted('\t', a, [Number('.')] + ([Number('.')] + ([Number('.')] + [])), [Num(b)] + ([Num(c)] + ([Num(d)] + [])));
  }

  lemma NothingPrinted()
    ensures Print([], []) == ""
  {
  }

  lemma AddressText(p: Plc)
    ensures |PlcArgs(p)| == 10 && Print(PLC_KINDS[3..7], PlcArgs(p)[3..7]) == "\t" + Dotted(p.ip)
  {
    hide Decimal, Print;
    var v: nat := p.ip;
    assert PLC_KINDS[3..7] == [Number('\t')] + ([Number('.')] + ([Number('.')] + ([Number('.')] + [])));
    assert PlcArgs(p)[3..7] == [Num(v / 16777216)] + ([Num(v / 65536 % 256)] + ([Num(v / 256 % 256)] + ([Num(v % 256)] + [])));
    DottedText(v / 16777216, v / 65536 % 256, v / 256 % 256, v % 256);
  }

  // ----- What is read of lines that say less -----

  lemma {:induction false} PartScanned(kinds: seq<Kind>, args: seq<Arg>, n: nat)
    requires n <= |kinds| && AllPrintable(kinds[..n], args) && Separable(kinds)
    ensures Scan(kinds, Print(kinds[..n], args)) == args
  {
    hide Print, Scan, Printable;
    assert kinds == kinds[..n] + kinds[n..];
    assert Print(kinds[..n], args) + "" == Print(kinds[..n], args);
    ScanPrinted(kinds[..n], args, kinds[n..], "");
    NothingScanned(kinds[n..]);
    assert args + [] == args;
  }

  lemma NothingScanned(kinds: seq<Kind>)
    ensures Scan(kinds, "") == []
  {
  }

  /** The interval given, or the default for none and for zero. */
  function Given(args: seq<Arg>, i: nat, missing: u32): u32 {
    if i < |args| && args[i].Num? && args[i].value != 0 then args[i].value else missing
  }

  /**
   * A PLC line with its first `n` parts: without the whole address it is
   * skipped; intervals that are missing or zero are 200, 3000 and 500 ms.
   */
  lemma PlcLineShort(args: seq<Arg>, n: nat, cfg: Config)
    requires n <= 10 && AllPrintable(PLC_KINDS[..n], args) && |cfg.plcs| < 4
    ensures var line := "P" + Print(PLC_KINDS[..n], args);
      n < 7 ==> DecodeLine(line, cfg) == cfg
    ensures n >= 7
      ==> var after := DecodeLine("P" + Print(PLC_KINDS[..n], args), cfg);
          && |after.plcs| == |cfg.plcs| + 1 && after == cfg.(plcs := after.plcs) && after.plcs[..|cfg.plcs|] == cfg.plcs
          && var p := after.plcs[|cfg.plcs|];
          && Num(p.id) == args[0] && (p.enabled <==> args[1] != Num(0)) && Str(p.name) == args[2]
          && p.pollIntervalMs == Given(args, 7, 200) && p.requestTimeoutMs == Given(args, 8, 3000)
          && p.retryDelayMs == Given(args, 9, 500)
  {
    hide Print, Scan, Address;
    KindsSeparable();
    PartScanned(PLC_KINDS, args, n);
    var line := "P" + Print(PLC_KINDS[..n], args);
    assert line[1..] == Print(PLC_KINDS[..n], args);
    if n >= 7 {
      assert Printable(PLC_KINDS[..n][0], args[0]) && Printable(PLC_KINDS[..n][1], args[1]) && Printable(PLC_KINDS[..n][2], args[2]);
    }
  }

  /** A field line: skipped without its first four parts; else the flags that are missing are required, not nullable, no key. */
  lemma FieldLineShort(args: seq<Arg>, n: nat, cfg: Config)
    requires n <= 7 && AllPrintable(FIELD_KINDS[..n], args)
    requires cfg.mappings != [] && |cfg.mappings[|cfg.mappings| - 1].fields| < 16
    ensures n < 4 ==> DecodeLine("F" + Print(FIELD_KINDS[..n], args), cfg) == cfg
    ensures n >= 4
      ==> var k := |cfg.mappings| - 1;
          var m := cfg.mappings[k];
          var f := FieldMapping(args[0].text, args[1].value % 256, args[2].text, args[3].value % 256,
                                n < 5 || args[4] != Num(0), n >= 6 && args[5] != Num(0), n >= 7 && args[6] != Num(0), 1.0, 0.0, 64);
          DecodeLine("F" + Print(FIELD_KINDS[..n], args), cfg) == cfg.(mappings := cfg.mappings[k := m.(fields := m.fields + [f])])
  {
    hide Print, Scan;
    KindsSeparable();
    PartScanned(FIELD_KINDS, args, n);
    assert ("F" + Print(FIELD_KINDS[..n], args))[1..] == Print(FIELD_KINDS[..n], args);
    forall i | 0 <= i < n
      ensures Printable(FIELD_KINDS[i], args[i])
    {
      assert FIELD_KINDS[..n][i] == FIELD_KINDS[i];
    }
  }

  /** A mapping line: skipped without its first ten parts; the PLC's name is stamped only if the twelfth says so. */
  lemma MappingLineShort(args: seq<Arg>, n: nat, cfg: Config)
    requires n <= 12 && AllPrintable(MAPPING_HEAD_KINDS[..n], args) && |cfg.mappings| < 8
    ensures n < 10 ==> DecodeLine("M" + Print(MAPPING_HEAD_KINDS[..n], args), cfg) == cfg
    ensures n >= 10
      ==> var m := Mapping(args[0].value, args[1].value, args[2] != Num(0), args[3].text, args[4].text, args[5].text,
                           if args[6] == Num(1) then 1 else 0, args[7].text, args[8].text, args[9].text, [], 3, 250,
                           n >= 12 && args[11] != Num(0), "");
          DecodeLine("M" + Print(MAPPING_HEAD_KINDS[..n], args), cfg) == cfg.(mappings := cfg.mappings + [m])
  {
    hide Print, Scan;
    KindsSeparable();
    var kinds := MAPPING_HEAD_KINDS + COLUMN_KINDS;
    assert kinds[..n] == MAPPING_HEAD_KINDS[..n];
    MappingKindsSeparable();
    PartScanned(kinds, args, n);
    assert ("M" + Print(MAPPING_HEAD_KINDS[..n], args))[1..] == Print(MAPPING_HEAD_KINDS[..n], args);
    forall i | 0 <= i < n
      ensures Printable(MAPPING_HEAD_KINDS[i], args[i])
    {
      assert MAPPING_HEAD_KINDS[..n][i] == MAPPING_HEAD_KINDS[i];
    }
  }

  lemma MappingKindsSeparable()
    ensures Separable(MAPPING_HEAD_KINDS + COLUMN_KINDS)
  {
  }

  /** The header: its third number is the revision, which is zero if it is not there. */
  lemma HeaderLineShort(args: seq<Arg>, n: nat, cfg: Config)
    requires n <= 3 && AllPrintable(HEADER_KINDS[..n], args)
    ensures DecodeLine("V1" + Print(HEADER_KINDS[..n], args), cfg) == cfg.(revision := if n == 3 then args[2].value else 0)
  {
    hide Print, Scan;
    PartScanned(HEADER_KINDS, args, n);
    assert ("V1" + Print(HEADER_KINDS[..n], args))[2..] == Print(HEADER_KINDS[..n], args);
    assert n == 3 ==> HEADER_KINDS[..n][2] == HEADER_KINDS[2] && Printable(HEADER_KINDS[..n][2], args[2]);
  }

  /** Lines that are skipped: of other letters, a fifth PLC, a ninth mapping, a field without a mapping, a 17th field. */
  lemma LineSkipped(line: string, cfg: Config)
    requires |cfg.plcs| <= 4 && |cfg.mappings| <= 8
    requires cfg.mappings != [] ==> |cfg.mappings[|cfg.mappings| - 1].fields| <= 16
    requires line != ""
      ==> match line[0]
          case 'P' => |cfg.plcs| == 4
          case 'M' => |cfg.mappings| == 8
          case 'F' => cfg.mappings == [] || |cfg.mappings[|cfg.mappings| - 1].fields| == 16
          case c => c != 'V'
    ensures DecodeLine(line, cfg) == cfg
  {
  }

  /** How many characters are taken of a text, by the line's letter and the text's place in it. */
  function Width(letter: char, i: nat): nat {
    match (letter, i)
    case ('P', 2) => 31                             // name
    case ('M', 3) => 31                             // name
    case ('M', 4) => 63                             // trigger tag
    case ('M', 5) => 63                             // ACK tag
    case ('M', 7) => 63                             // database
    case ('M', 8) => 31                             // schema
    case ('M', 9) => 127                            // table
    case ('M', 12) => 63                            // column for the PLC's name
    case ('F', 0) => 63                             // tag
    case ('F', 2) => 63                             // column
    case _ => 0
  }

  function KindsOf(letter: char): seq<Kind> {
    if letter == 'P' then PLC_KINDS else if letter == 'M' then MAPPING_HEAD_KINDS + COLUMN_KINDS else FIELD_KINDS
  }

  /** A text that is too long is cut, and reading goes on with what is left of it: it becomes the next part. */
  lemma LongTextSpills(letter: char, i: nat, args: seq<Arg>, text: string, rest: string)
    requires Width(letter, i) > 0 && AllPrintable(KindsOf(letter)[..i], args)
    requires |text| > Width(letter, i) && '\t' !in text && !IsSpace(text[0])
    ensures Scan(KindsOf(letter), Print(KindsOf(letter)[..i], args) + (['\t'] + (text + rest)))
      == args + ([Str(text[..Width(letter, i)])] + Scan(KindsOf(letter)[i + 1..], text[Width(letter, i)..] + rest))
  {
    hide Print, Scan, ScanOne, Printable, WordLength;
    var kinds, w := KindsOf(letter), Width(letter, i);
    assert kinds[i] == Word(w);
    KindsSeparable();
    MappingKindsSeparable();
    hide Width, KindsOf;
    var tail := ['\t'] + (text + rest);
    assert kinds == kinds[..i] + kinds[i..] && kinds[i..][0] == kinds[i] && kinds[i..][1..] == kinds[i + 1..];
    ScanPrinted(kinds[..i], args, kinds[i..], tail);
    WordCut(text, w, rest);
    ScanStep(kinds[i..], tail);
  }

  lemma ScanStep(kinds: seq<Kind>, s: string)
    requires kinds != [] && ScanOne(kinds[0], s).Some?
    ensures Scan(kinds, s) == [ScanOne(kinds[0], s).value.arg] + Scan(kinds[1..], ScanOne(kinds[0], s).value.rest)
  {
  }

  lemma WordCut(text: string, max: nat, rest: string)
    requires 0 < max < |text| && '\t' !in text && !IsSpace(text[0])
    ensures ScanOne(Word(max), ['\t'] + (text + rest)) == Some(Scanned(Str(text[..max]), text[max..] + rest))
  {
    hide WordLength;
    var t := text + rest;
    assert t[0] == text[0];
    SkipNothing(t);
    WordLengthLong(text, max, rest);
    assert t[..max] == text[..max] && t[max..] == text[max..] + rest;
  }

  lemma {:induction false} WordLengthLong(text: string, max: nat, rest: string)
    requires max <= |text| && '\t' !in text
    ensures WordLength(text + rest, max) == max
    decreases max
  {
    if max > 0 {
      assert text[0] in text && (text + rest)[1..] == text[1..] + rest;
      WordLengthLong(text[1..], max - 1, rest);
    }
  }

  /** What the decoder starts from. */
  lemma DefaultsAre()
    ensures Decoded("") == Config(false, 0, "GatewayEventId", [], [], 0)
  {
  }

  /** A line that fits its 256 bytes with newline and NUL is written whole, a longer one without its end. */
  lemma BufferedIs(line: string)
    ensures |Buffered(line)| <= 255
    ensures |line| <= 254 ==> Buffered(line) == line + "\n"
    ensures |line| >= 255 ==> Buffered(line) == line[..255]
  {
  }

  /** Of a line of the blob the first 319 characters are looked at. */
  lemma CutIs(line: string)
    ensures Cut(line) == if |line| <= 319 then line else line[..319]
  {
  }
}
