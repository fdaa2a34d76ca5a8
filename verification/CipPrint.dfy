/** Tag paths as they are written. */
module CipPrint {
  // Printing a path and parsing it again: what an accepted path is encoded as.

  import opened Bytes
  import opened Decimals
  import opened Strings
  import opened CipPath

  const WRAP: nat := 0x1_0000_0000

  /** A name and the digits of its indices. */
  datatype Segment = Segment(name: string, indices: seq<string>)

  function IndicesText(indices: seq<string>): string {
    if indices == [] then "" else ("[" + (indices[0] + "]")) + IndicesText(indices[1..])
  }

  function SegmentText(g: Segment): string {
    g.name + IndicesText(g.indices)
  }

  /** The segments joined by dots, with one more dot at the end or not. */
  function PathText(gs: seq<Segment>, dot: bool): string {
    if gs == [] then ""
    else SegmentText(gs[0]) + if |gs| > 1 then "." + PathText(gs[1..], dot) else if dot then "." else ""
  }

  predicate IsNumber(digits: string) {
    digits != "" && AllDigits(digits)
  }

  predicate AreNumbers(indices: seq<string>) {
    forall i :: 0 <= i < |indices| ==> IsNumber(indices[i])
  }

  predicate IsSegment(g: Segment) {
    && g.name != "" && '.' !in g.name && '[' !in g.name && AreNumbers(g.indices)
    && |SegmentText(g)| < SEGMENT_BUFFER
  }

  predicate AreSegments(gs: seq<Segment>) {
    forall i :: 0 <= i < |gs| ==> IsSegment(gs[i])
  }

  predicate IsPath(gs: seq<Segment>) {
    gs != [] && AreSegments(gs)
  }

  // ----- What the indices are -----

  /** The numbers as they are written, and as the encoder computes them. */
  function IndexParts(indices: seq<string>, wrap: bool): seq<Part>
    requires AreNumbers(indices)
  {
    if indices == [] then []
    else [Index(if wrap then Written(indices[0]) % WRAP else Written(indices[0]))] + IndexParts(indices[1..], wrap)
  }

  function SegmentParts(g: Segment, wrap: bool): seq<Part>
    requires IsSegment(g)
  {
    [Name(g.name)] + IndexParts(g.indices, wrap)
  }

  function PathParts(gs: seq<Segment>, wrap: bool): seq<Part>
    requires AreSegments(gs)
  {
    if gs == [] then [] else SegmentParts(gs[0], wrap) + PathParts(gs[1..], wrap)
  }

  /** Every index is small enough once it has wrapped around. */
  predicate SmallIndices(indices: seq<string>)
    requires AreNumbers(indices)
  {
    forall i :: 0 <= i < |indices| ==> Written(indices[i]) % WRAP <= MAX_INDEX
  }

  predicate SmallSegment(g: Segment)
    requires IsSegment(g)
  {
    SmallIndices(g.indices)
  }

  predicate SmallPath(gs: seq<Segment>)
    requires AreSegments(gs)
  {
    forall i :: 0 <= i < |gs| ==> SmallSegment(gs[i])
  }

  /** No index wraps around. */
  predicate ExactIndices(indices: seq<string>)
    requires AreNumbers(indices)
  {
    forall i :: 0 <= i < |indices| ==> Written(indices[i]) < WRAP
  }

  predicate ExactSegment(g: Segment)
    requires IsSegment(g)
  {
    ExactIndices(g.indices)
  }

  predicate ExactPath(gs: seq<Segment>)
    requires AreSegments(gs)
  {
    forall i :: 0 <= i < |gs| ==> ExactSegment(gs[i])
  }

  // ----- Printed, then parsed -----

  lemma IndexParsed(digits: string, rest: string)
    requires IsNumber(digits)
    ensures var s := "[" + (digits + "]") + rest;
      var v := Written(digits) % WRAP;
      ParseIndices(s) == if v > MAX_INDEX then None
                         else match ParseIndices(rest) case None => None case Some(more) => Some([Index(v)] + more)
  {
    hide DigitsOf, Accumulated, Written;
    var s := "[" + (digits + "]") + rest;
    assert s[1..] == digits + ("]" + rest);
    DigitsOfRun(digits, "]" + rest);
    AccumulatedIsWritten(digits);
    assert s[1..][..|digits|] == digits && s[|digits| + 2..] == rest;
  }

  lemma {:induction false} IndicesParsed(indices: seq<string>)
    requires AreNumbers(indices)
    ensures ParseIndices(IndicesText(indices))
      == if SmallIndices(indices) then Some(IndexParts(indices, true)) else None
    decreases |indices|
  {
    hide ParseIndices, IsNumber, Written;
    if indices == [] {
      assert ParseIndices("") == Some([]) by { NoIndices(); }
    } else {
      IndexParsed(indices[0], IndicesText(indices[1..]));
      IndicesParsed(indices[1..]);
      SmallStep(indices);
    }
  }

  lemma NoIndices()
    ensures ParseIndices("") == Some([])
  {
  }

  lemma SmallStep(indices: seq<string>)
    requires AreNumbers(indices) && indices != []
    ensures SmallIndices(indices) <==> Written(indices[0]) % WRAP <= MAX_INDEX && SmallIndices(indices[1..])
    ensures ExactIndices(indices) <==> Written(indices[0]) < WRAP && ExactIndices(indices[1..])
  {
    hide IsNumber, Written;
    forall i | 0 < i < |indices|
      ensures indices[i] == indices[1..][i - 1]
    {
    }
  }

  lemma SegmentParsed(g: Segment)
    requires IsSegment(g)
    ensures ParseSegment(SegmentText(g))
      == if SmallSegment(g) then Some(SegmentParts(g, true)) else None
  {
    hide ParseIndices, SmallIndices, IndexParts, AreNumbers;
    var s := SegmentText(g);
    NameEnds(g);
    assert s[..|g.name|] == g.name && s[|g.name|..] == IndicesText(g.indices);
    IndicesParsed(g.indices);
  }

  lemma NameEnds(g: Segment)
    requires '[' !in g.name
    ensures UpTo(SegmentText(g), '[') == |g.name|
  {
    hide UpTo;
    if g.indices == [] {
      assert SegmentText(g) == g.name;
      NoStop(g.name, '[');
    } else {
      var behind := (g.indices[0] + "]") + IndicesText(g.indices[1..]);
      assert IndicesText(g.indices) == ['['] + behind;
      UpToConcat(g.name, '[', behind);
    }
  }

  lemma NoStop(s: string, stop: char)
    requires stop !in s
    ensures UpTo(s, stop) == |s|
  {
    hide UpTo;
    forall i | 0 <= i < |s|
      ensures s[i] != stop
    {
      assert s[i] in s;
    }
  }

  lemma {:induction false} NoDotInIndices(indices: seq<string>)
    requires AreNumbers(indices)
    ensures '.' !in IndicesText(indices)
    decreases |indices|
  {
    if indices != [] {
      assert '.' !in indices[0] by { assert IsNumber(indices[0]); }
      NoDotInIndices(indices[1..]);
    }
  }

  lemma NoDot(g: Segment)
    requires IsSegment(g)
    ensures '.' !in SegmentText(g)
  {
    NoDotInIndices(g.indices);
  }

  /** A printed path parses exactly if its wrapped indices are small, and then into them. */
  lemma {:induction false} PathParsed(gs: seq<Segment>, dot: bool)
    requires IsPath(gs)
    ensures ParsePath(PathText(gs, dot)) == if SmallPath(gs) then Some(PathParts(gs, true)) else None
    decreases |gs|
  {
    hide ParseSegment, IsSegment, SegmentParts, SegmentText, SmallSegment, UpTo, ParsePath;
    var g, s := gs[0], PathText(gs, dot);
    var t := SegmentText(g);
    assert IsSegment(g);
    NoDot(g);
    SegmentParsed(g);
    SegmentLong(g);
    var rest := if |gs| > 1 then PathText(gs[1..], dot) else "";
    if s == t {
      NoStop(t, '.');
    } else {
      assert s == t + (['.'] + rest);
      UpToConcat(t, '.', rest);
    }
    assert s[..|t|] == t && s[if |t| < |s| then |t| + 1 else |t|..] == rest;
    PathUnfold(s);
    SmallPathStep(gs);
    if |gs| > 1 {
      PathParsed(gs[1..], dot);
    } else {
      assert ParsePath("") == Some([]) by { NoPath(); }
      assert PathParts(gs[1..], true) == [];
    }
  }

  lemma NoPath()
    ensures ParsePath("") == Some([])
  {
  }

  lemma SegmentLong(g: Segment)
    requires IsSegment(g)
    ensures SegmentText(g) != "" && |SegmentText(g)| < SEGMENT_BUFFER && AreNumbers(g.indices)
  {
  }

  lemma SmallPathStep(gs: seq<Segment>)
    requires IsPath(gs)
    ensures SmallPath(gs) <==> SmallSegment(gs[0]) && SmallPath(gs[1..])
    ensures ExactPath(gs) <==> ExactSegment(gs[0]) && ExactPath(gs[1..])
  {
    hide IsSegment, SmallSegment, ExactSegment;
    forall i | 0 < i < |gs|
      ensures gs[i] == gs[1..][i - 1]
    {
    }
  }

  // ----- Every accepted path is one -----

  lemma Bracketed(s: string, n: nat)
    requires n + 2 <= |s| && s[0] == '[' && s[1 + n] == ']'
    ensures s == ("[" + (s[1..][..n] + "]")) + s[n + 2..]
  {
  }

  lemma {:induction false} IndicesPrinted(s: string) returns (indices: seq<string>)
    requires ParseIndices(s).Some?
    ensures AreNumbers(indices) && s == IndicesText(indices)
    decreases |s|
  {
    hide Accumulated;
    indices := [];
    if s != "" {
      var n := DigitsOf(s[1..]);
      var digits := s[1..][..n];
      var more := IndicesPrinted(s[n + 2..]);
      indices := [digits] + more;
      assert indices[1..] == more;
      Bracketed(s, n);
    }
  }

  lemma SegmentPrinted(s: string) returns (g: Segment)
    requires ParseSegment(s).Some? && |s| < SEGMENT_BUFFER && '.' !in s
    ensures IsSegment(g) && s == SegmentText(g)
  {
    hide ParseIndices;
    var n := UpTo(s, '[');
    var indices := IndicesPrinted(s[n..]);
    g := Segment(s[..n], indices);
    assert s == s[..n] + s[n..];
  }

  /** Nothing else is accepted. */
  lemma {:induction false} PathPrinted(s: string) returns (gs: seq<Segment>, dot: bool)
    requires s != "" && ParsePath(s).Some?
    ensures IsPath(gs) && s == PathText(gs, dot)
    decreases |s|
  {
    hide ParseSegment, IsSegment, SegmentText, UpTo, ParsePath;
    var n := UpTo(s, '.');
    PathUnfold(s);
    var g := SegmentPrinted(s[..n]);
    var rest := s[if n < |s| then n + 1 else n..];
    assert s == s[..n] + if n < |s| then ['.'] + rest else "";
    if rest == "" {
      gs, dot := [g], n < |s|;
      assert s == SegmentText(g) + if dot then "." else "";
    } else {
      var more;
      more, dot := PathPrinted(rest);
      gs := [g] + more;
      assert gs[1..] == more;
    }
  }

  // ----- What is encoded -----

  lemma {:induction false} SamePartsIndices(indices: seq<string>)
    requires AreNumbers(indices)
    ensures |IndexParts(indices, true)| == |IndexParts(indices, false)| == |indices|
    ensures IndexParts(indices, true) == IndexParts(indices, false) <==> ExactIndices(indices)
    decreases |indices|
  {
    hide IsNumber, Written;
    if indices != [] {
      SamePartsIndices(indices[1..]);
      SmallStep(indices);
      Heads(IndexParts(indices, true), IndexParts(indices, false));
    }
  }

  lemma Heads<T>(a: seq<T>, b: seq<T>)
    requires a != [] && b != []
    ensures a == b <==> a[0] == b[0] && a[1..] == b[1..]
  {
    assert a == [a[0]] + a[1..] && b == [b[0]] + b[1..];
  }

  lemma {:induction false} SameParts(gs: seq<Segment>)
    requires AreSegments(gs)
    ensures PathParts(gs, true) == PathParts(gs, false) <==> ExactPath(gs)
    decreases |gs|
  {
    hide IndexParts, ExactIndices, IsSegment, AreNumbers;
    if gs != [] {
      var g := gs[0];
      SegmentLong(g);
      SamePartsIndices(g.indices);
      SameParts(gs[1..]);
      SmallPathStep(gs);
      var name, a, b := [Name(g.name)], IndexParts(g.indices, true), IndexParts(g.indices, false);
      SameFront(name + a, name + b, PathParts(gs[1..], true), PathParts(gs[1..], false));
      SameFront(name, name, a, b);
    }
  }

  lemma SameFront<T>(a: seq<T>, b: seq<T>, c: seq<T>, d: seq<T>)
    requires |a| == |b|
    ensures a + c == b + d <==> a == b && c == d
  {
    assert (a + c)[..|a|] == a && (a + c)[|a|..] == c;
    assert (b + d)[..|a|] == b && (b + d)[|a|..] == d;
  }

  /**
   * The encoder accepts a written path exactly if every index is at most 65535
   * modulo 2^32, and the bytes then name the elements that were written exactly
   * if every index is below 2^32.
   */
  lemma EncodedAsWritten(gs: seq<Segment>, dot: bool)
    requires IsPath(gs) && IsText(PathText(gs, dot))
    ensures ParsePath(PathText(gs, dot)).Some? <==> SmallPath(gs)
    ensures SmallPath(gs)
      ==> PartsOk(ParsePath(PathText(gs, dot)).value)
          && (DecodePath(PathBytes(ParsePath(PathText(gs, dot)).value)) == Some(PathParts(gs, false)) <==> ExactPath(gs))
  {
    hide ParsePath, IsSegment, PathParts, PathBytes, DecodePath, PartsOk, SmallPath, ExactPath, PathText;
    PathParsed(gs, dot);
    SameParts(gs);
    if SmallPath(gs) {
      PathOk(PathText(gs, dot));
      DecodePathBytes(PathParts(gs, true));
    }
  }

  /** An accepted path that names another element: its index is encoded as zero. */
  lemma WrapsAround(path: string)
    requires path == "A[4294967296]"
    ensures ParsePath(path) == Some([Name("A"), Index(0)])
  {
    hide ParsePath, Written, PathParts, IndexParts, ParseIndices;
    WrittenOut();
    var digits := "4294967296";
    var g := Segment("A", [digits]);
    assert [digits][1..] == [] && IndicesText([]) == "";
    assert IndicesText([digits]) == ("[" + (digits + "]")) + "";
    assert SegmentText(g) == path && PathText([g], false) == path;
    assert IsNumber(digits) && AreNumbers([digits]);
    assert IsSegment(g);
    PathParsed([g], false);
    assert Written(digits) % WRAP == 0;
    assert SmallIndices([digits]);
    OnePart("A", digits);
  }

  lemma OnePart(name: string, digits: string)
    requires IsSegment(Segment(name, [digits])) && IsNumber(digits)
    ensures PathParts([Segment(name, [digits])], true) == [Name(name), Index(Written(digits) % WRAP)]
  {
    hide Written, IsSegment;
    var g := Segment(name, [digits]);
    SegmentLong(g);
    assert IndexParts([digits][1..], true) == [];
    assert IndexParts([digits], true) == [Index(Written(digits) % WRAP)];
    assert PathParts([g][1..], true) == [];
    assert SegmentParts(g, true) == [Name(name), Index(Written(digits) % WRAP)];
    assert SegmentParts(g, true) + [] == SegmentParts(g, true);
  }

  lemma OneMoreDigit(before: string, digit: char)
    requires AllDigits(before) && IsDigit(digit)
    ensures Written(before + [digit]) == Written(before) * 10 + DigitValue(digit)
  {
    assert (before + [digit])[..|before|] == before;
  }

  lemma WrittenOut()
    ensures Written("4294967296") == WRAP
  {
    hide Written;
    assert Written("42") == 42 by { Two(); }
    OneMoreDigit("42", '9');
    OneMoreDigit("429", '4');
    OneMoreDigit("4294", '9');
    OneMoreDigit("42949", '6');
    OneMoreDigit("429496", '7');
    OneMoreDigit("4294967", '2');
    OneMoreDigit("42949672", '9');
    OneMoreDigit("429496729", '6');
    Appended10();
  }

  lemma Two()
    ensures Written("42") == 42
  {
    assert "42"[..1] == "4" && "4"[..0] == "";
    assert Written("4") == 4;
  }

  lemma Appended10()
    ensures "42" + ['9'] == "429" && "429" + ['4'] == "4294" && "4294" + ['9'] == "42949" && "42949" + ['6'] == "429496"
    ensures "429496" + ['7'] == "4294967" && "4294967" + ['2'] == "42949672" && "42949672" + ['9'] == "429496729"
    ensures "429496729" + ['6'] == "4294967296"
  {
  }
}
