/** The layout of row fields in numbers. */
module TdsLayout {
  // Every column type's field as the protocol lays it out (MS-TDS, section
  // 2.2.5.4), and that the reader, which goes by a table of properties, agrees.

  import opened Bytes
  import opened TdsTokens

  /** `n` bytes and nothing else. */
  function Plain(n: nat, s: seq<byte>): Read<Field> {
    if |s| < n then Short else Ok(Value(s[..n]), n)
  }

  /** A count in one byte; `legal` are the counts other than zero that the type has. */
  function Counted8(legal: set<int>, zero: Field, s: seq<byte>): Read<Field> {
    if |s| < 1 then Short
    else if s[0] == 0 then Ok(zero, 1)
    else if s[0] !in legal then Bad
    else
      var n: nat := s[0];
      if |s| < 1 + n then Short else Ok(Value(s[1..1 + n]), 1 + n)
  }

  /** A count in two bytes, 65535 for null. */
  function Counted16(s: seq<byte>): Read<Field> {
    if |s| < 2 then Short
    else
      var lo: nat, hi: nat := s[0], s[1];
      var n := lo + 256 * hi;
      if n == 65535 then Ok(Null, 2) else if |s| < 2 + n then Short else Ok(Value(s[2..2 + n]), 2 + n)
  }

  /** A count in four bytes, 4294967295 for null, `at` bytes into the field. */
  function Counted32(s: seq<byte>, at: nat): Read<Field> {
    if |s| < at + 4 then Short
    else
      var a: nat, b: nat, c: nat, d: nat := s[at], s[at + 1], s[at + 2], s[at + 3];
      var n := a + 256 * b + 65536 * c + 16777216 * d;
      if n == 4294967295 then Ok(Null, at + 4)
      else if |s| < at + 4 + n then Short
      else Ok(Value(s[at + 4..at + 4 + n]), at + 4 + n)
  }

  /** A text pointer of its own length and eight bytes of timestamp come first; 255 stands for none. */
  function Pointed(s: seq<byte>): Read<Field> {
    if |s| < 1 then Short
    else
      var n: nat := s[0];
      if n == 255 then Counted32(s, 0) else if |s| < 1 + n + 8 then Short else Counted32(s, 1 + n + 8)
  }

  /** The field of a column of type `t` at the front of the bytes; a type of no other code has none. */
  function FieldAt(t: byte, s: seq<byte>): Read<Field> {
    match t
    case 0x01 => Plain(0, s)                                          // NULL
    case 0x30 | 0x32 => Plain(1, s)                                   // INT1, BIT
    case 0x34 => Plain(2, s)                                          // INT2
    case 0x38 | 0x3A | 0x3B | 0x7A => Plain(4, s)                     // INT4, DATETIM4, FLT4, MONEY4
    case 0x7F | 0x3D | 0x3E | 0x3C => Plain(8, s)                     // INT8, DATETIME, FLT8, MONEY
    case 0x24 => Counted8({16}, Null, s)                              // GUID
    case 0x26 => Counted8({1, 2, 4, 8}, Null, s)                      // INTN
    case 0x68 => Counted8({1}, Null, s)                               // BITN
    case 0x6D | 0x6E | 0x6F => Counted8({4, 8}, Null, s)              // FLTN, MONEYN, DATETIMN
    case 0x6A | 0x6C => Counted8({5, 9, 13, 17}, Value([]), s)        // DECIMALN, NUMERICN
    case 0xAF | 0xA7 | 0xE7 | 0xEF | 0xAD | 0xA5 => Counted16(s)      // the character and binary types
    case 0x63 | 0x23 | 0x22 => Pointed(s)                             // NTEXT, TEXT, IMAGE
    case _ => Bad
  }

  // ----- The reader agrees -----

  /** A slice, and that it starts where the count ends. */
  lemma BehindCount(s: seq<byte>, k: nat, n: nat)
    requires k + n <= |s|
    ensures s[k..][..n] == s[k..k + n]
  {
  }

  lemma CountedBy8(t: byte, p: TypeProps, legal: set<int>, s: seq<byte>)
    requires p.size in {Length8, Precision} && forall n: nat :: n < 256 ==> (ValidLength(t, n) <==> n == 0 || n in legal)
    ensures ReadSized(t, p, s) == Counted8(legal, if p.zeroIsNull then Null else Value([]), s)
  {
    hide ValidLength;
    if |s| >= 1 {
      var n: nat := s[0];
      if 1 + n <= |s| {
        BehindCount(s, 1, n);
      }
    }
  }

  lemma CountedBy16(t: byte, p: TypeProps, s: seq<byte>)
    requires p.size == Length16 && p.maxIsNull && forall n: nat :: ValidLength(t, n)
    ensures ReadSized(t, p, s) == Counted16(s)
  {
    hide ValidLength;
    if |s| >= 2 && 2 + Get16(s) <= |s| {
      BehindCount(s, 2, Get16(s));
    }
  }

  lemma CountedBy32(t: byte, p: TypeProps, s: seq<byte>, at: nat)
    requires p.size == Length32 && p.maxIsNull && (forall n: nat :: ValidLength(t, n)) && at <= |s|
    ensures var r := ReadSized(t, p, s[at..]);
      Counted32(s, at) == if r.Ok? then Ok(r.value, at + r.size) else r
  {
    hide ValidLength;
    if |s| >= at + 4 {
      var n := Get32(s[at..]);
      assert s[at..][2..] == s[at + 2..] && s[at..][4..] == s[at + 4..];
      if at + 4 + n <= |s| {
        BehindCount(s, at + 4, n);
      }
    }
  }

  lemma PointedRead(t: byte, s: seq<byte>)
    requires t in {0x63, 0x23, 0x22}
    ensures ReadField(t, s) == Pointed(s)
  {
    hide ReadSized, Counted32;
    assert s[0..] == s;
    var p := PropsOf(t).value;
    if |s| >= 1 {
      var n: nat := s[0];
      CountedBy32(t, p, s, if n == 255 then 0 else if |s| < 1 + n + 8 then 0 else 1 + n + 8);
    }
  }

  lemma PlainRead(t: byte, p: TypeProps, n: nat, s: seq<byte>)
    requires p.size == FixedSize(n)
    ensures ReadSized(t, p, s) == Plain(n, s)
  {
    hide ValidLength;
    assert s[0..] == s;
  }

  lemma CountedRead(t: byte, s: seq<byte>)
    requires t in {0x24, 0x26, 0x68, 0x6D, 0x6E, 0x6F, 0x6A, 0x6C}
    ensures ReadField(t, s) == FieldAt(t, s)
  {
    hide ReadSized, Counted8;
    var legal := if t == 0x24 then {16} else if t == 0x26 then {1, 2, 4, 8} else if t == 0x68 then {1}
                 else if t in {0x6A, 0x6C} then {5, 9, 13, 17} else {4, 8};
    CountedBy8(t, PropsOf(t).value, legal, s);
  }

  lemma CharactersRead(t: byte, s: seq<byte>)
    requires t in {0xAF, 0xA7, 0xE7, 0xEF, 0xAD, 0xA5}
    ensures ReadField(t, s) == FieldAt(t, s)
  {
    hide ReadSized, Counted16;
    CountedBy16(t, PropsOf(t).value, s);
  }

  lemma FixedRead(t: byte, s: seq<byte>)
    requires PropsOf(t).Some? && PropsOf(t).value.size.FixedSize?
    ensures ReadField(t, s) == FieldAt(t, s)
  {
    hide ReadSized, Plain;
    PlainRead(t, PropsOf(t).value, PropsOf(t).value.size.n, s);
  }

  /** Whatever the type code and the bytes, the field read is the one laid out there. */
  lemma FieldLaidOut(t: byte, s: seq<byte>)
    ensures ReadField(t, s) == FieldAt(t, s)
  {
    if t in {0x63, 0x23, 0x22} {
      PointedRead(t, s);
    } else if t in {0x24, 0x26, 0x68, 0x6D, 0x6E, 0x6F, 0x6A, 0x6C} {
      hide ReadField, FieldAt;
      CountedRead(t, s);
    } else if t in {0xAF, 0xA7, 0xE7, 0xEF, 0xAD, 0xA5} {
      hide ReadField, FieldAt;
      CharactersRead(t, s);
    } else if PropsOf(t).Some? {
      hide ReadField, FieldAt;
      FixedRead(t, s);
    }
  }

  /** A NULL of a decimal type is handed over as a value, an empty one; a NULL of any other type is not. */
  lemma NullDecimal(t: byte, s: seq<byte>)
    requires |s| > 0 && s[0] == 0
    ensures t in {0x6A, 0x6C} ==> ReadField(t, s) == Ok(Value([]), 1)
    ensures t in {0x24, 0x26, 0x68, 0x6D, 0x6E, 0x6F} ==> ReadField(t, s) == Ok(Null, 1)
  {
    hide ReadField;
    FieldLaidOut(t, s);
  }

  // ----- Tokens that are too short for their contents -----

  /** A counted text: where it ends, if its count is there. */
  function EndOfText8(t: seq<byte>, at: nat): nat
    requires at < |t|
  {
    var n: nat := t[at];
    at + 1 + 2 * n
  }

  /** ENVCHANGE: nothing but the types 1 to 4 is looked at; two texts are wanted. */
  lemma EnvCut(t: seq<byte>)
    requires t != []
    ensures t[0] !in {1, 2, 3, 4} ==> HandleEnvChange(t) == Finished(None)
    ensures t[0] in {1, 2, 3, 4} && |t| == 1 ==> HandleEnvChange(t) == WantsMore
    ensures t[0] in {1, 2, 3, 4} && |t| > 1
      ==> var a := EndOfText8(t, 1); HandleEnvChange(t).Finished? <==> a < |t| && EndOfText8(t, a) <= |t|
    ensures t[0] in {1, 2, 3, 4} && !HandleEnvChange(t).Finished? ==> HandleEnvChange(t) == WantsMore
  {
    if t[0] in {1, 2, 3, 4} && |t| > 1 {
      var n: nat := t[1];
      if 2 + 2 * n < |t| {
        var rest := t[2 + 2 * n..];
        assert rest[0] == t[2 + 2 * n];
      }
    }
  }

  /**
   * INFO and ERROR: 14 bytes at least, then the message, two names and a line. A
   * text that is cut is waited for; a name whose count is missing traps, and so
   * does a line that is cut.
   */
  lemma InfoCut(t: seq<byte>)
    requires |t| >= 8
    ensures |t| < 14 ==> HandleInfo(t) == WantsMore
    ensures |t| >= 14
      ==> var lo: nat, hi: nat := t[6], t[7];
          var a := 8 + 2 * (lo + 256 * hi);
          HandleInfo(t) == (if |t| < a then WantsMore else NamesAt(t, a))
  {
    if |t| >= 14 {
      var lo: nat, hi: nat := t[6], t[7];
      var n := 2 * (lo + 256 * hi);
      assert t[6..][0] == t[6] && t[6..][1] == t[7];
      assert Get16(t[6..]) == lo + 256 * hi;
      if 8 + n <= |t| {
        var a := 8 + n;
        assert t[6..][2..2 + n] == t[8..a];
        Text8At(t, a);
        if a < |t| && EndOfText8(t, a) <= |t| {
          var b := EndOfText8(t, a);
          Text8At(t, b);
        }
      }
    }
  }

  lemma Text8At(t: seq<byte>, at: nat)
    requires at <= |t|
    ensures TakeText8(t[at..])
      == if at == |t| then Bad
         else if |t| < EndOfText8(t, at) then Short
         else Ok(t[at + 1..EndOfText8(t, at)], EndOfText8(t, at) - at)
  {
    if at < |t| && EndOfText8(t, at) <= |t| {
      assert t[at..][1..EndOfText8(t, at) - at] == t[at + 1..EndOfText8(t, at)];
    }
  }

  /** What the two names and the line make of an INFO token, behind its message. */
  function NamesAt(t: seq<byte>, a: nat): Handled
    requires 8 <= a <= |t|
  {
    if a == |t| then Trapped
    else
      var b := EndOfText8(t, a);
      if |t| < b then WantsMore
      else if |t| == b then Trapped
      else
        var c := EndOfText8(t, b);
        if |t| < c then WantsMore
        else if |t| < c + 2 then Trapped
        else Finished(Some(Info(Get32(t), t[4], t[5], t[8..a], t[a + 1..b], t[b + 1..c], Get16(t[c..]))))
  }

  /** LOGINACK: ten bytes at least, the program's name, and four more; whatever is cut is waited for. */
  lemma LoginCut(t: seq<byte>)
    requires |t| >= 6
    ensures HandleLoginAck(t).Finished? <==> |t| >= 10 && |t| >= EndOfText8(t, 5) + 4
    ensures !HandleLoginAck(t).Finished? ==> HandleLoginAck(t) == WantsMore
  {
    Text8At(t, 5);
  }

  /** DONE: eight bytes. */
  lemma DoneCut(t: seq<byte>)
    ensures HandleDone(t).Finished? <==> |t| >= 8
    ensures |t| < 8 ==> HandleDone(t) == WantsMore
  {
  }
}
