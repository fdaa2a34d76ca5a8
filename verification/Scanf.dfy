/** The part of sscanf that reads the configuration blob, and the printing it undoes. */
module Scanf {
  import opened Bytes
  import opened Decimals

  /** "%u" behind a tab or a dot, or "%<max>[^\t]" behind a tab. */
  datatype Kind = Number(separator: char) | Word(max: nat)

  datatype Arg = Num(value: u32) | Str(text: string)

  datatype Scanned = Scanned(arg: Arg, rest: string)

  predicate IsSpace(c: char) {
    c == ' ' || '\t' <= c <= '\r'
  }

  function SkipSpace(s: string): string {
    if s != "" && IsSpace(s[0]) then SkipSpace(s[1..]) else s
  }

  /** What a separator of the format takes: a tab any white space, a dot only itself. */
  function Separated(separator: char, s: string): Option<string> {
    if IsSpace(separator) then Some(SkipSpace(s))
    else if s != "" && s[0] == separator then Some(s[1..])
    else None
  }

  function Saturated(v: nat): u32 {
    if v < 0x1_0000_0000 then v else 0xFFFF_FFFF
  }

  /** "%u": white space, a sign if any, digits. */
  function ScanNumber(s0: string): Option<Scanned> {
    var s := SkipSpace(s0);
    var signed := s != "" && (s[0] == '-' || s[0] == '+');
    var t := if signed then s[1..] else s;
    var n := DigitsOf(t);
    if n == 0 then None
    else
      var v: int := Saturated(Written(t[..n]));
      Some(Scanned(Num(if signed && s[0] == '-' then (0x1_0000_0000 - v) % 0x1_0000_0000 else v), t[n..]))
  }

  /** How many characters other than tabs come first, up to a maximum. */
  function WordLength(s: string, max: nat): (n: nat)
    ensures n <= |s| && n <= max
  {
    if max == 0 || s == "" || s[0] == '\t' then 0 else 1 + WordLength(s[1..], max - 1)
  }

  function ScanOne(kind: Kind, s: string): Option<Scanned> {
    match kind
    case Number(separator) =>
      (match Separated(separator, s)
       case None => None
       case Some(t) => ScanNumber(t))
    case Word(max) =>
      var t := SkipSpace(s);
      var n := WordLength(t, max);
      if n == 0 then None else Some(Scanned(Str(t[..n]), t[n..]))
  }

  /** The arguments converted before the first that fails. */
  function Scan(kinds: seq<Kind>, s: string): (args: seq<Arg>)
    ensures |args| <= |kinds|
  {
    if kinds == [] then []
    else
      match ScanOne(kinds[0], s)
      case None => []
      case Some(r) => [r.arg] + Scan(kinds[1..], r.rest)
  }

  // ----- Printing -----

  function PrintOne(kind: Kind, arg: Arg): string {
    match (kind, arg)
    case (Number(separator), Num(v)) => [separator] + Decimal(v)
    case (Word(_), Str(text)) => ['\t'] + text
    case _ => ""
  }

  function Print(kinds: seq<Kind>, args: seq<Arg>): string
    requires |kinds| == |args|
  {
    if kinds == [] then "" else PrintOne(kinds[0], args[0]) + Print(kinds[1..], args[1..])
  }

  /** A text that the blob can hold: not empty, not too long, no tab or newline, no blank in front. */
  ghost predicate Plain(text: string, max: nat) {
    0 < |text| <= max && !IsSpace(text[0]) && '\t' !in text && '\n' !in text
  }

  ghost predicate Printable(kind: Kind, arg: Arg) {
    match kind
    case Number(_) => arg.Num?
    case Word(max) => arg.Str? && Plain(arg.text, max)
  }

  ghost predicate AllPrintable(kinds: seq<Kind>, args: seq<Arg>) {
    |kinds| == |args| && forall i :: 0 <= i < |kinds| ==> Printable(kinds[i], args[i])
  }

  /** Separators are tabs and dots, and a word is never followed by a dot. */
  ghost predicate Separable(kinds: seq<Kind>) {
    && (forall i :: 0 <= i < |kinds| && kinds[i].Number? ==> kinds[i].separator in {'\t', '.'})
    && (forall i :: 0 < i < |kinds| && kinds[i - 1].Word? ==> kinds[i].Word? || kinds[i].separator == '\t')
  }

  /** What may follow an argument of that kind. */
  ghost predicate MayFollow(kind: Kind, rest: string) {
    rest == "" || rest[0] == '\t' || (kind.Number? && rest[0] == '.')
  }

  lemma SkipNothing(s: string)
    requires s == "" || !IsSpace(s[0])
    ensures SkipSpace(s) == s && SkipSpace(['\t'] + s) == s
  {
    assert (['\t'] + s)[1..] == s;
  }

  /** White space: blank, tab, newline, vertical tab, form feed, carriage return. */
  predicate Blank(c: char) {
    c as int in {32, 9, 10, 11, 12, 13}
  }

  /** All white space in front goes, and nothing else. */
  lemma {:induction false} BlanksSkipped(blanks: string, s: string)
    requires (forall i :: 0 <= i < |blanks| ==> Blank(blanks[i])) && (s == "" || !Blank(s[0]))
    ensures SkipSpace(blanks + s) == s
    decreases |blanks|
  {
    if blanks == "" {
      assert blanks + s == s;
    } else {
      assert Blank(blanks[0]) && (blanks + s)[1..] == blanks[1..] + s;
      BlanksSkipped(blanks[1..], s);
    }
  }

  /** A number of any length behind white space and a sign, if there is one: 2^32-1 at most, and negated modulo 2^32. */
  lemma NumberScanned(blanks: string, sign: string, digits: string, rest: string)
    requires (forall i :: 0 <= i < |blanks| ==> Blank(blanks[i])) && sign in {"", "+", "-"}
    requires AllDigits(digits) && digits != "" && (rest == "" || !IsDigit(rest[0]))
    ensures var v := if Written(digits) < 4294967296 then Written(digits) else 4294967295;
      ScanNumber(blanks + (sign + (digits + rest)))
      == Some(Scanned(Num(if sign == "-" then (4294967296 - v) % 4294967296 else v), rest))
  {
    hide Written, DigitsOf, SkipSpace;
    var t := digits + rest;
    var s := sign + t;
    assert IsDigit(t[0]) by { assert t[0] == digits[0]; }
    assert s[0] == (if sign == "" then t[0] else sign[0]);
    BlanksSkipped(blanks, s);
    assert s[|sign|..] == t && s[0..] == s;
    DigitsOfRun(digits, rest);
    assert t[..|digits|] == digits && t[|digits|..] == rest;
  }

  lemma UnsignedRead(v: u32, rest: string)
    requires rest == "" || rest[0] == '\t' || rest[0] == '.'
    ensures IsDigit((Decimal(v) + rest)[0])
    ensures ScanNumber(Decimal(v) + rest) == Some(Scanned(Num(v), rest))
  {
    hide Decimal, DigitsOf, Written;
    WrittenDecimal(v);
    DigitsOfRun(Decimal(v), rest);
    var t := Decimal(v) + rest;
    assert t[0] == Decimal(v)[0];
    SkipNothing(t);
    assert t[..|Decimal(v)|] == Decimal(v) && t[|Decimal(v)|..] == rest;
  }

  lemma NumberRead(separator: char, v: u32, rest: string)
    requires separator in {'\t', '.'} && (rest == "" || rest[0] == '\t' || rest[0] == '.')
    ensures ScanOne(Number(separator), [separator] + Decimal(v) + rest) == Some(Scanned(Num(v), rest))
  {
    hide Decimal, ScanNumber;
    var t := Decimal(v) + rest;
    UnsignedRead(v, rest);
    assert [separator] + Decimal(v) + rest == [separator] + t && ([separator] + t)[1..] == t;
    SkipNothing(t);
  }

  lemma {:induction false} WordLengthRun(text: string, max: nat, rest: string)
    requires |text| <= max && '\t' !in text && (rest == "" || rest[0] == '\t')
    ensures WordLength(text + rest, max) == |text|
    decreases |text|
  {
    if text == "" {
      assert text + rest == rest;
    } else {
      assert text[0] in text && (text + rest)[1..] == text[1..] + rest;
      WordLengthRun(text[1..], max - 1, rest);
    }
  }

  lemma WordRead(text: string, max: nat, rest: string)
    requires Plain(text, max) && (rest == "" || rest[0] == '\t')
    ensures ScanOne(Word(max), ['\t'] + text + rest) == Some(Scanned(Str(text), rest))
  {
    var t := text + rest;
    assert ['\t'] + text + rest == ['\t'] + t && t[0] == text[0];
    SkipNothing(t);
    WordLengthRun(text, max, rest);
  }

  lemma OneRead(kind: Kind, arg: Arg, rest: string)
    requires Printable(kind, arg) && MayFollow(kind, rest) && (kind.Number? ==> kind.separator in {'\t', '.'})
    ensures ScanOne(kind, PrintOne(kind, arg) + rest) == Some(Scanned(arg, rest))
  {
    hide ScanOne, Plain;
    match kind {
      case Number(separator) => NumberRead(separator, arg.value, rest);
      case Word(max) => WordRead(arg.text, max, rest);
    }
  }

  /** Printed arguments are read back in full, and reading goes on behind them. */
  lemma {:induction false} ScanPrinted(kinds: seq<Kind>, args: seq<Arg>, more: seq<Kind>, rest: string)
    requires AllPrintable(kinds, args) && Separable(kinds)
    requires kinds != [] ==> MayFollow(kinds[|kinds| - 1], rest)
    ensures Scan(kinds + more, Print(kinds, args) + rest) == args + Scan(more, rest)
    decreases |kinds|
  {
    hide ScanOne, Printable, PrintOne;
    if kinds == [] {
      assert kinds + more == more && Print(kinds, args) + rest == rest;
    } else {
      var tail := Print(kinds[1..], args[1..]) + rest;
      assert (kinds + more)[0] == kinds[0] && (kinds + more)[1..] == kinds[1..] + more;
      assert Print(kinds, args) + rest == PrintOne(kinds[0], args[0]) + tail;
      assert MayFollow(kinds[0], tail) by {
        if |kinds| > 1 {
          StartsWithSeparator(kinds[1], args[1]);
        }
      }
      OneRead(kinds[0], args[0], tail);
      ScanPrinted(kinds[1..], args[1..], more, rest);
      assert [args[0]] + args[1..] == args;
    }
  }

  lemma StartsWithSeparator(kind: Kind, arg: Arg)
    requires Printable(kind, arg)
    ensures PrintOne(kind, arg) != "" && PrintOne(kind, arg)[0] == if kind.Number? then kind.separator else '\t'
  {
  }

  /** Nothing printed breaks a line. */
  lemma {:induction false} PrintedNoNewline(kinds: seq<Kind>, args: seq<Arg>)
    requires AllPrintable(kinds, args) && Separable(kinds)
    ensures '\n' !in Print(kinds, args)
    decreases |kinds|
  {
    hide PrintOne, Printable;
    if kinds != [] {
      PrintedNoNewline(kinds[1..], args[1..]);
      OneNoNewline(kinds[0], args[0]);
    }
  }

  lemma OneNoNewline(kind: Kind, arg: Arg)
    requires Printable(kind, arg) && (kind.Number? ==> kind.separator in {'\t', '.'})
    ensures '\n' !in PrintOne(kind, arg)
  {
    hide Decimal;
    if kind.Number? {
      WrittenDecimal(arg.value);
      assert forall i :: 0 <= i < |Decimal(arg.value)| ==> IsDigit(Decimal(arg.value)[i]);
    }
  }
}
