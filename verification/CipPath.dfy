/** CIP tag paths as EPATH segments (CIP Volume 1, Appendix C). */
module CipPath {
  import opened Bytes
  import opened Arithmetic
  import opened Decimals
  import opened Strings

  const SEGMENT_BUFFER: nat := 80
  const MAX_INDEX: nat := 0xFFFF
  const MIN_PATH_CAP: nat := 4

  datatype Part = Name(name: string) | Index(index: nat)

  // ----- The text -----

  /** The index as a 32-bit accumulator computes it. */
  function Accumulated(digits: string): (v: u32)
    requires AllDigits(digits)
  {
    if digits == "" then 0
    else
      var n := |digits| - 1;
      var before: int := Accumulated(digits[..n]);
      (before * 10 + DigitValue(digits[n])) % 0x1_0000_0000
  }

  /** Bracketed indices up to the end of the segment. */
  function ParseIndices(s: string): Option<seq<Part>>
    decreases |s|
  {
    if s == "" then Some([])
    else if s[0] != '[' then None
    else
      var n := DigitsOf(s[1..]);
      if n == 0 || 1 + n >= |s| || s[1 + n] != ']' then None
      else
        var v: int := Accumulated(s[1..][..n]);
        if v > MAX_INDEX then None
        else
          match ParseIndices(s[n + 2..])
          case None => None
          case Some(more) => Some([Index(v)] + more)
  }

  /** A name and its indices. */
  function ParseSegment(s: string): Option<seq<Part>> {
    var n := UpTo(s, '[');
    if n == 0 then None
    else
      match ParseIndices(s[n..])
      case None => None
      case Some(more) => Some([Name(s[..n])] + more)
  }

  /** Segments separated by dots; a dot at the very end is let through. */
  function ParsePath(s: string): Option<seq<Part>>
    decreases |s|
  {
    if s == "" then Some([])
    else
      var n := UpTo(s, '.');
      if n >= SEGMENT_BUFFER then None
      else
        match ParseSegment(s[..n])
        case None => None
        case Some(parts) =>
          match ParsePath(s[if n < |s| then n + 1 else n..])
          case None => None
          case Some(more) => Some(parts + more)
  }

  // ----- The bytes -----

  ghost predicate PartOk(p: Part) {
    match p
    case Name(name) => IsText(name) && 0 < |name| < 0x100
    case Index(i) => i <= MAX_INDEX
  }

  ghost predicate PartsOk(ps: seq<Part>) {
    forall i :: 0 <= i < |ps| ==> PartOk(ps[i])
  }

  function PartBytes(p: Part): (b: seq<byte>)
    requires PartOk(p)
    ensures |b| >= 2
  {
    match p
    case Name(name) => [0x91, |name|] + (TextBytes(name) + if |name| % 2 == 1 then [0] else [])
    case Index(i) => if i <= 0xFF then [0x28, i] else [0x29, 0, i % 256, i / 256]
  }

  /** A name is 0x91, its length, its characters and a zero to an even length; an index takes one byte up to 255, two from 256. */
  lemma SegmentLayout(p: Part)
    requires PartOk(p)
    ensures p.Name?
      ==> var b, n := PartBytes(p), |p.name|;
          && |b| == 2 + n + n % 2 && b[0] == 0x91 && b[1] == n && (n % 2 == 1 ==> b[2 + n] == 0)
          && forall i :: 0 <= i < n ==> b[2 + i] == p.name[i] as int
    ensures p.Index? && p.index <= 255 ==> PartBytes(p) == [0x28, p.index]
    ensures p.Index? && p.index >= 256 ==> PartBytes(p) == [0x29, 0, p.index % 256, p.index / 256]
  {
    if p.Name? {
      TextBytesAt(p.name);
    }
  }

  function PathBytes(ps: seq<Part>): (b: seq<byte>)
    requires PartsOk(ps)
  {
    if ps == [] then [] else PartBytes(ps[0]) + PathBytes(ps[1..])
  }

  datatype Decoded = Decoded(part: Part, size: nat)

  function DecodePart(b: seq<byte>): (d: Option<Decoded>)
    ensures d.Some? ==> 0 < d.value.size <= |b|
  {
    if |b| < 2 then None
    else if b[0] == 0x91 then
      var n: nat := b[1];
      if |b| < 2 + n + n % 2 then None else Some(Decoded(Name(BytesText(b[2..2 + n])), 2 + n + n % 2))
    else if b[0] == 0x28 then Some(Decoded(Index(b[1]), 2))
    else if b[0] == 0x29 && |b| >= 4 then
      var lo: nat, hi: nat := b[2], b[3];
      Some(Decoded(Index(lo + 256 * hi), 4))
    else None
  }

  function DecodePath(b: seq<byte>): Option<seq<Part>> {
    if b == [] then Some([])
    else
      match DecodePart(b)
      case None => None
      case Some(d) =>
        match DecodePath(b[d.size..])
        case None => None
        case Some(more) => Some([d.part] + more)
  }

  /** The length is always even, and not zero unless nothing was encoded. */
  lemma {:induction false} PathEven(ps: seq<Part>)
    requires PartsOk(ps)
    ensures |PathBytes(ps)| % 2 == 0 && (ps != [] ==> |PathBytes(ps)| > 0)
    decreases |ps|
  {
    hide PartBytes, PartOk;
    if ps != [] {
      PartEven(ps[0]);
      PathEven(ps[1..]);
    }
  }

  lemma PartEven(p: Part)
    requires PartOk(p)
    ensures |PartBytes(p)| % 2 == 0
  {
  }

  // ----- Round trip -----

  lemma DecodePartBytes(p: Part, tail: seq<byte>)
    requires PartOk(p)
    ensures DecodePart(PartBytes(p) + tail) == Some(Decoded(p, |PartBytes(p)|))
    ensures (PartBytes(p) + tail)[|PartBytes(p)|..] == tail
  {
    hide TextBytes, BytesText;
    match p {
      case Name(name) =>
        var b := PartBytes(p) + tail;
        assert b[2..2 + |name|] == TextBytes(name);
        BytesTextInverse(name);
      case Index(i) =>
    }
  }

  /** Decoding the emitted segments gives back the names and indices, in order. */
  lemma {:induction false} DecodePathBytes(ps: seq<Part>)
    requires PartsOk(ps)
    ensures DecodePath(PathBytes(ps)) == Some(ps)
    decreases |ps|
  {
    hide DecodePart, PartBytes, PartOk;
    if ps != [] {
      DecodePartBytes(ps[0], PathBytes(ps[1..]));
      DecodePathBytes(ps[1..]);
      assert [ps[0]] + ps[1..] == ps;
    }
  }

  lemma {:induction false} PathBytesConcat(a: seq<Part>, b: seq<Part>)
    requires PartsOk(a) && PartsOk(b)
    ensures PartsOk(a + b) && PathBytes(a + b) == PathBytes(a) + PathBytes(b)
    decreases |a|
  {
    hide PartBytes, PartOk;
    if a == [] {
      assert a + b == b;
    } else {
      var whole := a + b;
      assert whole[0] == a[0] && whole[1..] == a[1..] + b;
      PathBytesConcat(a[1..], b);
      assert PathBytes(whole) == PartBytes(a[0]) + PathBytes(whole[1..]);
    }
  }

  /** What a path parses into can always be encoded. */
  lemma {:induction false} IndicesOk(s: string)
    requires ParseIndices(s).Some?
    ensures PartsOk(ParseIndices(s).value)
    decreases |s|
  {
    hide DigitsOf, Accumulated;
    if s != "" {
      IndicesOk(s[DigitsOf(s[1..]) + 2..]);
    }
  }

  lemma SegmentOk(s: string)
    requires IsText(s) && |s| < SEGMENT_BUFFER && ParseSegment(s).Some?
    ensures PartsOk(ParseSegment(s).value) && ParseSegment(s).value != []
  {
    hide ParseIndices, UpTo;
    IndicesOk(s[UpTo(s, '[')..]);
  }

  lemma {:induction false} PathOk(s: string)
    requires IsText(s) && ParsePath(s).Some?
    ensures PartsOk(ParsePath(s).value)
    ensures s != "" ==> ParsePath(s).value != []
    decreases |s|
  {
    hide ParseSegment, UpTo, PartOk;
    if s != "" {
      var n := UpTo(s, '.');
      SegmentOk(s[..n]);
      PathOk(s[if n < |s| then n + 1 else n..]);
    }
  }

  lemma WrapTens(w: nat, a: u32, d: nat)
    requires a == w % 0x1_0000_0000
    ensures var v: int := a; (w * 10 + d) % 0x1_0000_0000 == (v * 10 + d) % 0x1_0000_0000
  {
    var v: int := a;
    var q, x := w / 0x1_0000_0000, v * 10 + d;
    DivModUnique(w * 10 + d, 10 * q + x / 0x1_0000_0000, x % 0x1_0000_0000, 0x1_0000_0000);
  }

  /** The accumulator holds the written index modulo 2^32. */
  lemma {:induction false} AccumulatedIsWritten(digits: string)
    requires AllDigits(digits)
    ensures Accumulated(digits) == Written(digits) % 0x1_0000_0000
    decreases |digits|
  {
    if digits != "" {
      var n := |digits| - 1;
      AccumulatedIsWritten(digits[..n]);
      WrapTens(Written(digits[..n]), Accumulated(digits[..n]), DigitValue(digits[n]));
    }
  }

  // ----- The encoder -----

  /** An append succeeds exactly if the bytes fit; what was written before stays. */
  twostate predicate Appended(path: array<byte>, len: nat, bytes: seq<byte>, ok: bool, newLen: nat)
    requires len <= path.Length
    reads path
  {
    && (ok <==> len + |bytes| <= path.Length)
    && (ok ==> newLen == len + |bytes| && path[..newLen] == old(path[..len]) + bytes)
  }

  method AppendCipSymbolSegment(seg: string, path: array<byte>, len: nat) returns (ok: bool, newLen: nat)
    requires PartOk(Name(seg)) && len <= path.Length
    modifies path
    ensures Appended(path, len, PartBytes(Name(seg)), ok, newLen)
  {
    hide TextBytes;
    var need := 2 + |seg| + if |seg| % 2 == 1 then 1 else 0;
    newLen := len;
    ok := len + need <= path.Length;
    if !ok {
      return;
    }
    path[len], path[len + 1] := 0x91, |seg|;
    assert path[..len + 2] == old(path[..len]) + [0x91, |seg|];
    var text := TextBytes(seg);
    CopyIn(path, len + 2, text);
    newLen := len + 2 + |seg|;
    ghost var named := path[..newLen];
    if |seg| % 2 == 1 {
      path[newLen] := 0;
      newLen := newLen + 1;
    }
    ghost var pad := if |seg| % 2 == 1 then [0] else [];
    assert path[..newLen] == named + pad;
    SymbolGrouped(old(path[..len]), [0x91, |seg|], text, pad);
  }

  lemma SymbolGrouped(before: seq<byte>, head: seq<byte>, text: seq<byte>, pad: seq<byte>)
    ensures ((before + head) + text) + pad == before + (head + (text + pad))
  {
  }

  method AppendCipArrayIndex(idx: u32, path: array<byte>, len: nat) returns (ok: bool, newLen: nat)
    requires len <= path.Length
    modifies path
    ensures idx > 65535 ==> !ok
    ensures idx <= 65535 ==> Appended(path, len, PartBytes(Index(idx)), ok, newLen)
  {
    ok, newLen := false, len;
    if idx <= 0xFF {
      if len + 2 > path.Length {
        return;
      }
      path[len], path[len + 1] := 0x28, idx;
      newLen, ok := len + 2, true;
      assert path[..newLen] == old(path[..len]) + [0x28, idx];
    } else if idx <= 0xFFFF {
      if len + 4 > path.Length {
        return;
      }
      path[len], path[len + 1], path[len + 2], path[len + 3] := 0x29, 0x00, idx % 256, idx / 256;
      newLen, ok := len + 4, true;
      assert path[..newLen] == old(path[..len]) + [0x29, 0x00, idx % 256, idx / 256];
    }
  }

  /** The whole list is what was done and what is still to come. */
  ghost predicate Goes(all: Option<seq<Part>>, done: seq<Part>, rest: Option<seq<Part>>) {
    match rest
    case None => all == None
    case Some(more) => all == Some(done + more)
  }

  lemma GoesStart(all: Option<seq<Part>>)
    ensures Goes(all, [], all)
  {
    assert all.Some? ==> [] + all.value == all.value;
  }

  lemma GoesOn(all: Option<seq<Part>>, done: seq<Part>, parts: seq<Part>, rest: Option<seq<Part>>, next: Option<seq<Part>>)
    requires Goes(all, done, rest)
    requires rest == match next { case None => None case Some(more) => Some(parts + more) }
    ensures Goes(all, done + parts, next)
  {
    if next.Some? {
      assert done + (parts + next.value) == (done + parts) + next.value;
    }
  }

  /** What is written so far fits; a list that starts with more than fits does not fit. */
  lemma TooLong(all: Option<seq<Part>>, done: seq<Part>, rest: Option<seq<Part>>, cap: nat)
    requires Goes(all, done, rest) && PartsOk(done) && |PathBytes(done)| > cap
    requires all.Some? ==> PartsOk(all.value)
    ensures all.Some? ==> |PathBytes(all.value)| > cap
  {
    hide PathBytes, PartOk;
    if rest.Some? {
      assert forall i :: 0 <= i < |rest.value| ==> rest.value[i] == all.value[|done| + i];
      PathBytesConcat(done, rest.value);
    }
  }

  lemma OneMore(done: seq<Part>, p: Part)
    requires PartsOk(done) && PartOk(p)
    ensures PartsOk(done + [p]) && PathBytes(done + [p]) == PathBytes(done) + PartBytes(p)
  {
    hide PartBytes, PartOk;
    PathBytesConcat(done, [p]);
    assert [p][1..] == [] && PathBytes([]) == [];
    assert PathBytes([p]) == PartBytes(p) + PathBytes([p][1..]);
  }

  /** The bytes of the parts done so far are written. */
  ghost predicate Wrote(path: seq<byte>, len: nat, done: seq<Part>) {
    len <= |path| && PartsOk(done) && path[..len] == PathBytes(done)
  }

  /** Success: all parts are written. Failure: there is no such list of parts, or it does not fit. */
  ghost predicate Encoded(path: seq<byte>, len: nat, done: seq<Part>, parts: Option<seq<Part>>, ok: bool) {
    if ok then parts.Some? && Wrote(path, len, done + parts.value)
    else parts == None || (PartsOk(done + parts.value) && |PathBytes(done + parts.value)| > |path|)
  }

  method ScanIndex(s: string, start: nat) returns (idx: u32, q: nat)
    requires start <= |s|
    ensures q == start + DigitsOf(s[start..]) && q <= |s|
    ensures AllDigits(s[start..q]) && idx == Accumulated(s[start..q])
  {
    hide Accumulated;
    q := start;
    ghost var n := DigitsOf(s[start..]);
    DigitsHere(s, start);
    idx := 0;
    assert s[start..start] == "" && Accumulated("") == 0 by { NoDigits(); }
    while q < |s| && IsDigit(s[q])
      invariant start <= q <= start + n && AllDigits(s[start..q]) && idx == Accumulated(s[start..q])
    {
      AccumulatedStep(s[start..q + 1]);
      assert s[start..q + 1][..q - start] == s[start..q];
      var v: int := idx;
      idx := (v * 10 + DigitValue(s[q])) % 0x1_0000_0000;
      q := q + 1;
    }
  }

  lemma DigitsHere(s: string, start: nat)
    requires start <= |s|
    ensures var n := start + DigitsOf(s[start..]);
      && n <= |s| && (forall i :: start <= i < n ==> IsDigit(s[i])) && (n < |s| ==> !IsDigit(s[n]))
  {
    var t := s[start..];
    forall i | start <= i < |s|
      ensures s[i] == t[i - start]
    {
    }
  }

  lemma NoDigits()
    ensures Accumulated("") == 0
  {
  }

  lemma AccumulatedStep(digits: string)
    requires digits != "" && AllDigits(digits)
    ensures AllDigits(digits[..|digits| - 1])
    ensures var n := |digits| - 1;
      var before: int := Accumulated(digits[..n]);
      Accumulated(digits) == (before * 10 + DigitValue(digits[n])) % 0x1_0000_0000
  {
  }

  /** One bracketed index of the text at `q`, whose digits end at `e`. */
  lemma IndexStep(s: string, q: nat, e: nat, idx: u32, all: Option<seq<Part>>, did: seq<Part>)
    requires q < |s| && s[q] == '[' && e == q + 1 + DigitsOf(s[q + 1..]) && e <= |s|
    requires AllDigits(s[q + 1..e]) && idx == Accumulated(s[q + 1..e])
    requires Goes(all, did, ParseIndices(s[q..]))
    ensures e == q + 1 || e == |s| || s[e] != ']' || idx > MAX_INDEX ==> all == None
    ensures e > q + 1 && e < |s| && s[e] == ']' && idx <= MAX_INDEX
      ==> Goes(all, did + [Index(idx)], ParseIndices(s[e + 1..]))
  {
    hide DigitsOf, Accumulated, Goes;
    var t := s[q..];
    var n := e - q - 1;
    assert t[1..] == s[q + 1..] && t[0] == s[q];
    assert t[1..][..n] == s[q + 1..e];
    if e > q + 1 && e < |s| && s[e] == ']' && idx <= MAX_INDEX {
      assert t[1 + n] == s[e] && t[n + 2..] == s[e + 1..];
      GoesOn(all, did, [Index(idx)], ParseIndices(t), ParseIndices(s[e + 1..]));
    } else {
      assert e < |s| ==> t[1 + n] == s[e];
      assert ParseIndices(t) == None;
      GoesNone(all, did);
    }
  }

  lemma GoesNone(all: Option<seq<Part>>, did: seq<Part>)
    ensures Goes(all, did, None) ==> all == None
  {
  }

  /** A part that does not fit: then the whole list does not fit either. */
  lemma NoRoom(path: seq<byte>, len: nat, done: seq<Part>, all: Option<seq<Part>>, did: seq<Part>, p: Part, next: Option<seq<Part>>)
    requires Wrote(path, len, done + did) && PartsOk(done) && PartOk(p) && len + |PartBytes(p)| > |path|
    requires Goes(all, did + [p], next) && (all.Some? ==> PartsOk(all.value))
    ensures all.Some? ==> PartsOk(done + all.value) && |PathBytes(done + all.value)| > |path|
  {
    hide PathBytes, PartBytes, PartOk;
    OneMore(done + did, p);
    if all.Some? {
      Regroup(done, did, p, next.value);
      assert PartsOk(done + all.value);
      assert forall i :: 0 <= i < |next.value| ==> next.value[i] == (done + all.value)[|done| + |did| + 1 + i];
      PathBytesConcat((done + did) + [p], next.value);
    }
  }

  lemma Regroup(done: seq<Part>, did: seq<Part>, p: Part, more: seq<Part>)
    ensures (done + did) + [p] == done + (did + [p])
    ensures done + ((did + [p]) + more) == ((done + did) + [p]) + more
  {
  }

  method EncodeIndices(s: string, path: array<byte>, len: nat, ghost done: seq<Part>) returns (ok: bool, newLen: nat)
    requires PartsOk(done) && Wrote(path[..], len, done)
    modifies path
    ensures Encoded(path[..], newLen, done, ParseIndices(s), ok)
  {
    hide ParseIndices, Accumulated, DigitsOf, Goes, PartsOk, PathBytes, PartBytes;
    ok, newLen := false, len;
    ghost var all, did := ParseIndices(s), [];
    GoesStart(all);
    NoParts();
    assert s[0..] == s && done + did == done;
    var q := 0;
    while q < |s|
      invariant q <= |s| && !ok
      invariant Goes(all, did, ParseIndices(s[q..]))
      invariant PartsOk(did) && Wrote(path[..], newLen, done + did)
    {
      if s[q] != '[' {
        NotBracket(s, q, all, did);
        return;
      }
      var idx, e := ScanIndex(s, q + 1);
      IndexStep(s, q, e, idx, all, did);
      if e == q + 1 || e == |s| || s[e] != ']' {
        return;
      }
      ghost var before := path[..];
      var fits, l := AppendCipArrayIndex(idx, path, newLen);
      if !fits {
        if idx <= MAX_INDEX {
          AllOk(s);
          NoRoom(before, newLen, done, all, did, Index(idx), ParseIndices(s[e + 1..]));
        }
        return;
      }
      WroteMore(before, newLen, done + did, Index(idx), path[..], l);
      assert (done + did) + [Index(idx)] == done + (did + [Index(idx)]);
      newLen, did, q := l, did + [Index(idx)], e + 1;
      assert PartsOk(did) by { OneMorePart(did[..|did| - 1], Index(idx)); }
    }
    IndicesEnd(s, q, all, did);
    ok := true;
  }

  lemma NoParts()
    ensures PartsOk([]) && PathBytes([]) == []
  {
  }

  lemma OneMorePart(done: seq<Part>, p: Part)
    ensures PartsOk(done) && PartOk(p) ==> PartsOk(done + [p])
  {
  }

  lemma NotBracket(s: string, q: nat, all: Option<seq<Part>>, did: seq<Part>)
    requires q < |s| && s[q] != '[' && Goes(all, did, ParseIndices(s[q..]))
    ensures all == None
  {
    assert s[q..][0] == s[q];
  }

  lemma IndicesEnd(s: string, q: nat, all: Option<seq<Part>>, did: seq<Part>)
    requires q == |s| && Goes(all, did, ParseIndices(s[q..]))
    ensures all == Some(did)
  {
    assert s[q..] == "";
    assert did + [] == did;
  }

  lemma AllOk(s: string)
    ensures ParseIndices(s).Some? ==> PartsOk(ParseIndices(s).value)
  {
    if ParseIndices(s).Some? {
      IndicesOk(s);
    }
  }

  lemma WroteMore(before: seq<byte>, len: nat, done: seq<Part>, p: Part, after: seq<byte>, newLen: nat)
    requires Wrote(before, len, done) && PartOk(p) && newLen <= |after|
    requires after[..newLen] == before[..len] + PartBytes(p)
    ensures Wrote(after, newLen, done + [p])
  {
    hide PartBytes, PathBytes;
    OneMore(done, p);
  }

  lemma SegmentGoes(s: string)
    ensures var n := UpTo(s, '[');
      n > 0 ==> Goes(ParseSegment(s), [Name(s[..n])], ParseIndices(s[n..]))
  {
    hide ParseIndices, UpTo;
  }

  lemma SegmentPartsOk(s: string)
    requires IsText(s) && |s| < SEGMENT_BUFFER
    ensures ParseSegment(s).Some? ==> PartsOk(ParseSegment(s).value)
    ensures UpTo(s, '[') > 0 ==> PartOk(Name(s[..UpTo(s, '[')]))
  {
    hide ParseSegment;
    if ParseSegment(s).Some? {
      SegmentOk(s);
    }
  }

  method EncodeSegment(seg: string, path: array<byte>, len: nat, ghost done: seq<Part>) returns (ok: bool, newLen: nat)
    requires IsText(seg) && |seg| < SEGMENT_BUFFER && PartsOk(done) && Wrote(path[..], len, done)
    modifies path
    ensures Encoded(path[..], newLen, done, ParseSegment(seg), ok)
  {
    hide ParseSegment, ParseIndices, UpTo, Goes, PartsOk, PathBytes, PartBytes, IsText, PartOk;
    ok, newLen := false, len;
    var n := IndexOf(seg, '[');
    SegmentGoes(seg);
    SegmentPartsOk(seg);
    if n == 0 {
      NoName(seg);
      return;
    }
    ghost var name, all, rest := Name(seg[..n]), ParseSegment(seg), ParseIndices(seg[n..]);
    ghost var before := path[..];
    assert done + [] == done && [] + [name] == [name];
    var fits, l := AppendCipSymbolSegment(seg[..n], path, newLen);
    if !fits {
      NoRoom(before, newLen, done, all, [], name, rest);
      return;
    }
    WroteMore(before, newLen, done, name, path[..], l);
    OneMorePart(done, name);
    ok, newLen := EncodeIndices(seg[n..], path, l, done + [name]);
    SegmentDone(path[..], newLen, done, name, all, rest, ok);
  }

  lemma NoName(s: string)
    requires UpTo(s, '[') == 0
    ensures ParseSegment(s) == None
  {
  }

  lemma SegmentDone(path: seq<byte>, len: nat, done: seq<Part>, name: Part, all: Option<seq<Part>>, rest: Option<seq<Part>>, ok: bool)
    requires Goes(all, [name], rest) && Encoded(path, len, done + [name], rest, ok)
    ensures Encoded(path, len, done, all, ok)
  {
    hide PathBytes, PartOk, PartsOk;
    if rest.Some? {
      assert (done + [name]) + rest.value == done + ([name] + rest.value);
    }
  }

  /** The characters up to the next dot; false if they overflow the segment buffer. */
  method CopySegment(s: string, p: nat) returns (ok: bool, q: nat)
    requires p <= |s|
    ensures ok <==> UpTo(s[p..], '.') < 80
    ensures ok ==> q == p + UpTo(s[p..], '.') && q <= |s|
  {
    q := p;
    while q < |s| && s[q] != '.'
      invariant p <= q <= |s| && q - p < SEGMENT_BUFFER && UpTo(s[p..], '.') == q - p + UpTo(s[q..], '.')
    {
      assert s[q..][1..] == s[q + 1..] && s[q..][0] == s[q];
      if q - p + 1 >= SEGMENT_BUFFER {
        return false, q;
      }
      q := q + 1;
    }
    ok := true;
  }

  lemma PathUnfold(t: string)
    requires t != ""
    ensures var n := UpTo(t, '.');
      if n >= SEGMENT_BUFFER || ParseSegment(t[..n]) == None then ParsePath(t) == None
      else ParsePath(t) == match ParsePath(t[if n < |t| then n + 1 else n..])
                           case None => None
                           case Some(more) => Some(ParseSegment(t[..n]).value + more)
  {
    hide ParseSegment, UpTo;
  }

  /** One dotted segment of the path at `p`. */
  lemma PathStep(s: string, p: nat, all: Option<seq<Part>>, did: seq<Part>)
    requires p < |s| && Goes(all, did, ParsePath(s[p..]))
    ensures var n := UpTo(s[p..], '.');
      var next := p + n + if p + n < |s| then 1 else 0;
      && p + n <= |s| && next <= |s| && next > p
      && (n >= SEGMENT_BUFFER || ParseSegment(s[p..p + n]) == None ==> all == None)
      && (n < SEGMENT_BUFFER && ParseSegment(s[p..p + n]).Some?
          ==> Goes(all, did + ParseSegment(s[p..p + n]).value, ParsePath(s[next..])))
  {
    hide ParseSegment, Goes, ParsePath, UpTo;
    var t := s[p..];
    var n := UpTo(t, '.');
    var next := p + n + if p + n < |s| then 1 else 0;
    PathUnfold(t);
    Slices(s, p, n, next);
    if n < SEGMENT_BUFFER && ParseSegment(t[..n]).Some? {
      GoesOn(all, did, ParseSegment(t[..n]).value, ParsePath(t), ParsePath(s[next..]));
    } else {
      GoesNone(all, did);
    }
    NextBeyond(t, p, n);
  }

  lemma NextBeyond(t: string, p: nat, n: nat)
    requires t != "" && n == UpTo(t, '.')
    ensures n > 0 || n < |t|
  {
    hide UpTo;
  }

  /** A segment that does not fit: then the whole path does not fit either. */
  lemma NoRoomForSegment(path: seq<byte>, did: seq<Part>, parts: seq<Part>, all: Option<seq<Part>>, next: Option<seq<Part>>)
    requires Goes(all, did + parts, next) && PartsOk(did + parts) && |PathBytes(did + parts)| > |path|
    requires all.Some? ==> PartsOk(all.value)
    ensures all.Some? ==> |PathBytes(all.value)| > |path|
  {
    hide PathBytes, PartOk;
    TooLong(all, did + parts, next, |path|);
  }

  lemma TextSlice(s: string, i: nat, j: nat)
    requires IsText(s) && i <= j <= |s|
    ensures IsText(s[i..j])
  {
  }

  /**
   * EncodeCipTagPath: accepts exactly the paths that parse and fit, and then
   * writes their segments. The closing parity test never fails.
   */
  method EncodeCipTagPath(tagPath: string, path: array<byte>) returns (ok: bool, len: nat)
    requires IsText(tagPath)
    modifies path
    ensures ParsePath(tagPath).Some? ==> PartsOk(ParsePath(tagPath).value)
    ensures ok <==> tagPath != "" && path.Length >= 4 && ParsePath(tagPath).Some?
                    && |PathBytes(ParsePath(tagPath).value)| <= path.Length
    ensures ok ==> len <= path.Length && path[..len] == PathBytes(ParsePath(tagPath).value)
  {
    hide ParsePath, ParseSegment, UpTo, Goes, PartsOk, PathBytes, IsText, PartOk;
    ok, len := false, 0;
    ghost var all, did := ParsePath(tagPath), [];
    if all.Some? {
      PathOk(tagPath);
    }
    if tagPath == "" || path.Length < MIN_PATH_CAP {
      return;
    }
    GoesStart(all);
    NoParts();
    assert tagPath[0..] == tagPath;
    var p := 0;
    while p < |tagPath|
      invariant p <= |tagPath| && !ok && Goes(all, did, ParsePath(tagPath[p..]))
      invariant PartsOk(did) && Wrote(path[..], len, did)
      decreases |tagPath| - p
    {
      PathStep(tagPath, p, all, did);
      var fits, q := CopySegment(tagPath, p);
      if !fits {
        return;
      }
      var seg := tagPath[p..q];
      p := if q < |tagPath| then q + 1 else q;
      TextSlice(tagPath, q - |seg|, q);
      var l: nat;
      fits, l := EncodeSegment(seg, path, len, did);
      if !fits {
        if ParseSegment(seg).Some? {
          NoRoomForSegment(path[..], did, ParseSegment(seg).value, all, ParsePath(tagPath[p..]));
        }
        return;
      }
      len, did := l, did + ParseSegment(seg).value;
    }
    PathEnd(tagPath, p, all, did);
    PathEven(did);
    PathOk(tagPath);
    ok := len > 0 && len % 2 == 0;
  }

  lemma PathEnd(s: string, p: nat, all: Option<seq<Part>>, did: seq<Part>)
    requires p == |s| && Goes(all, did, ParsePath(s[p..]))
    ensures all == Some(did)
  {
    assert s[p..] == "";
    assert did + [] == did;
  }
}
