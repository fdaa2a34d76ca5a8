/** The configuration's loops: validating, encoding, decoding, and dropping duplicate columns in place. */
module ConfigCodec {
  import opened Bytes
  import opened GatewayTypes
  import opened Strings
  import opened Scanf
  import opened ConfigBlob
  import opened ConfigRoundTrip

  const MIN_BLOB_CAP: nat := 8

  // ----- Validation -----

  method HasDuplicate(fs: seq<FieldMapping>, f: nat) returns (dup: bool)
    requires f < |fs|
    ensures dup <==> exists j :: 0 <= j < f && fs[j].sqlColumn == fs[f].sqlColumn
  {
    for earlier := 0 to f
      invariant forall j :: 0 <= j < earlier ==> fs[j].sqlColumn != fs[f].sqlColumn
    {
      if fs[earlier].sqlColumn == fs[f].sqlColumn {
        return true;
      }
    }
    dup := false;
  }

  method ValidateFields(m: Mapping) returns (ok: bool, hasKey: bool)
    ensures ok <==> (forall i :: 0 <= i < |m.fields| ==> FieldAccepted(m, m.fields[i])) && DistinctColumns(m.fields)
    ensures ok ==> (hasKey <==> exists i :: 0 <= i < |m.fields| && m.fields[i].isWhereKey)
  {
    hide IsSafeSqlIdent;
    hasKey := false;
    for f := 0 to |m.fields|
      invariant forall i :: 0 <= i < f ==> FieldAccepted(m, m.fields[i])
      invariant forall i, j :: 0 <= i < j < f ==> m.fields[i].sqlColumn != m.fields[j].sqlColumn
      invariant hasKey <==> exists i :: 0 <= i < f && m.fields[i].isWhereKey
    {
      if !FieldAccepted(m, m.fields[f]) {
        return false, hasKey;
      }
      var dup := HasDuplicate(m.fields, f);
      if dup {
        return false, hasKey;
      }
      if m.fields[f].isWhereKey {
        hasKey := true;
      }
    }
    ok := true;
  }

  method FindPlc(plcs: seq<Plc>, id: u32) returns (found: bool)
    ensures found <==> exists i :: 0 <= i < |plcs| && plcs[i].id == id
  {
    for p := 0 to |plcs|
      invariant forall i :: 0 <= i < p ==> plcs[i].id != id
    {
      if plcs[p].id == id {
        return true;
      }
    }
    found := false;
  }

  method ConfigValidate(cfg: Config) returns (ok: bool)
    ensures ok <==> Accepted(cfg)
  {
    hide NamesAccepted, FieldAccepted, DistinctColumns;
    if |cfg.plcs| > MAX_PLCS || |cfg.mappings| > MAX_MAPPINGS {
      return false;
    }
    for i := 0 to |cfg.mappings|
      invariant forall k :: 0 <= k < i ==> MappingAccepted(cfg.mappings[k], cfg.plcs)
    {
      var m := cfg.mappings[i];
      if !NamesAccepted(m) {
        return false;
      }
      var fieldsOk, hasKey := ValidateFields(m);
      if !fieldsOk || (m.operation == OP_UPDATE && !hasKey) {
        return false;
      }
      var plcOk := FindPlc(cfg.plcs, m.plcId);
      if !plcOk {
        return false;
      }
    }
    ok := true;
  }

  // ----- Dropping duplicates -----

  lemma DedupedStep(fs: seq<FieldMapping>, n: nat)
    requires n < |fs|
    ensures var kept := Deduped(fs[..n]);
      Deduped(fs[..n + 1])
      == if exists j :: 0 <= j < |kept| && kept[j].sqlColumn == fs[n].sqlColumn then kept else kept + [fs[n]]
    ensures |Deduped(fs[..n])| <= n
    decreases n
  {
    assert fs[..n + 1][..n] == fs[..n];
    DedupedShort(fs[..n]);
  }

  lemma {:induction false} DedupedShort(fs: seq<FieldMapping>)
    ensures |Deduped(fs)| <= |fs|
    decreases |fs|
  {
    if fs != [] {
      DedupedShort(fs[..|fs| - 1]);
    }
  }

  /** DedupeMappingSqlColumns: the fields kept move to the front, and their number is returned. */
  method DedupeMappingSqlColumns(fields: array<FieldMapping>) returns (kept: nat)
    modifies fields
    ensures kept <= fields.Length && fields[..kept] == Deduped(old(fields[..]))
  {
    hide Deduped;
    kept := 0;
    ghost var all := fields[..];
    assert all[..0] == [] && Deduped([]) == [] by { DedupedShort([]); }
    for i := 0 to fields.Length
      invariant kept <= i && fields[..kept] == Deduped(all[..i])
      invariant forall k :: i <= k < fields.Length ==> fields[k] == all[k]
    {
      DedupedStep(all, i);
      var dup := false;
      for j := 0 to kept
        invariant dup <==> exists k :: 0 <= k < j && fields[k].sqlColumn == fields[i].sqlColumn
      {
        if fields[j].sqlColumn == fields[i].sqlColumn {
          dup := true;
        }
      }
      ghost var front := fields[..kept];
      if !dup {
        if kept != i {
          fields[kept] := fields[i];
        }
        kept := kept + 1;
        assert fields[..kept] == front + [all[i]];
      }
    }
    assert all[..fields.Length] == all;
  }

  // ----- Encoding -----

  lemma {:induction false} JoinedConcat(a: seq<string>, b: seq<string>)
    ensures Joined(a + b) == Joined(a) + Joined(b)
    decreases |a|
  {
    hide Buffered;
    if a == [] {
      assert a + b == b;
    } else {
      assert (a + b)[1..] == a[1..] + b && (a + b)[0] == a[0];
      JoinedConcat(a[1..], b);
    }
  }

  /** The text so far, one more line, and what is still to come. */
  lemma JoinedNext(text: string, line: string, rest: seq<string>)
    ensures text + Joined([line] + rest) == (text + Buffered(line)) + Joined(rest)
  {
    hide Buffered;
    assert ([line] + rest)[1..] == rest;
  }

  method AppendLine(text: string, line: string, cap: nat) returns (ok: bool, after: string)
    ensures ok <==> |text| + |Buffered(line)| + 1 < cap
    ensures ok ==> after == text + Buffered(line)
  {
    var buffered := Buffered(line);
    after := text;
    ok := |text| + |buffered| + 1 < cap;
    if ok {
      after := text + buffered;
    }
  }

  /** Appending `lines` succeeds exactly if they fit. */
  ghost predicate Extends(text: string, lines: seq<string>, cap: nat, ok: bool, after: string) {
    && (ok ==> after == text + Joined(lines) && |after| + 1 < cap)
    && (!ok ==> |text + Joined(lines)| + 1 >= cap)
  }

  method AppendPlcs(text: string, ps: seq<Plc>, cap: nat) returns (ok: bool, after: string)
    requires |text| + 1 < cap
    ensures Extends(text, PlcLines(ps), cap, ok, after)
  {
    hide Joined, PlcLine, Buffered, PlcLines;
    ok, after := true, text;
    assert ps[0..] == ps;
    for i := 0 to |ps|
      invariant ok && |after| + 1 < cap
      invariant after + Joined(PlcLines(ps[i..])) == text + Joined(PlcLines(ps))
    {
      PlcLinesStep(ps, i);
      JoinedNext(after, PlcLine(ps[i]), PlcLines(ps[i + 1..]));
      ok, after := AppendLine(after, PlcLine(ps[i]), cap);
      if !ok {
        return;
      }
    }
    NoLines();
    assert ps[|ps|..] == [];
  }

  lemma PlcLinesStep(ps: seq<Plc>, i: nat)
    requires i < |ps|
    ensures PlcLines(ps[i..]) == [PlcLine(ps[i])] + PlcLines(ps[i + 1..])
  {
    assert ps[i..][1..] == ps[i + 1..];
  }

  lemma NoLines()
    ensures PlcLines([]) == [] && FieldLines([]) == [] && MappingLines([]) == [] && Joined([]) == ""
  {
  }

  method AppendFields(text: string, fs: seq<FieldMapping>, cap: nat) returns (ok: bool, after: string)
    requires |text| + 1 < cap
    ensures Extends(text, FieldLines(fs), cap, ok, after)
  {
    hide Joined, FieldLine, Buffered, FieldLines;
    ok, after := true, text;
    assert fs[0..] == fs;
    for i := 0 to |fs|
      invariant ok && |after| + 1 < cap
      invariant after + Joined(FieldLines(fs[i..])) == text + Joined(FieldLines(fs))
    {
      FieldLinesStep(fs, i);
      JoinedNext(after, FieldLine(fs[i]), FieldLines(fs[i + 1..]));
      ok, after := AppendLine(after, FieldLine(fs[i]), cap);
      if !ok {
        return;
      }
    }
    NoLines();
    assert fs[|fs|..] == [];
  }

  lemma FieldLinesStep(fs: seq<FieldMapping>, i: nat)
    requires i < |fs|
    ensures FieldLines(fs[i..]) == [FieldLine(fs[i])] + FieldLines(fs[i + 1..])
  {
    assert fs[i..][1..] == fs[i + 1..];
  }

  method AppendMappings(text: string, ms: seq<Mapping>, cap: nat) returns (ok: bool, after: string)
    requires |text| + 1 < cap && Sized(ms)
    ensures Extends(text, MappingLines(ms), cap, ok, after)
  {
    hide Joined, MappingLine, Buffered, MappingLines, FieldLines;
    ok, after := true, text;
    assert ms[0..] == ms;
    for i := 0 to |ms|
      invariant ok && |after| + 1 < cap
      invariant after + Joined(MappingLines(ms[i..])) == text + Joined(MappingLines(ms))
    {
      MappingLinesStep(ms, i, after);
      ok, after := AppendLine(after, MappingLine(ms[i]), cap);
      if !ok {
        return;
      }
      ok, after := AppendFields(after, ms[i].fields, cap);
      if !ok {
        return;
      }
    }
    NoLines();
    assert ms[|ms|..] == [];
  }

  lemma MappingLinesStep(ms: seq<Mapping>, i: nat, text: string)
    requires i < |ms| && Sized(ms)
    ensures text + Joined(MappingLines(ms[i..]))
      == ((text + Buffered(MappingLine(ms[i]))) + Joined(FieldLines(ms[i].fields))) + Joined(MappingLines(ms[i + 1..]))
  {
    hide Joined, MappingLine, Buffered, FieldLines;
    var m, rest := ms[i], MappingLines(ms[i + 1..]);
    assert ms[i..][1..] == ms[i + 1..];
    assert MappingLines(ms[i..]) == [MappingLine(m)] + (FieldLines(m.fields) + rest);
    JoinedNext(text, MappingLine(m), FieldLines(m.fields) + rest);
    JoinedConcat(FieldLines(m.fields), rest);
  }

  /** EncodeBlob */
  method EncodeBlob(cfg: Config, cap: nat) returns (ok: bool, blob: string)
    requires |cfg.plcs| <= MAX_PLCS && |cfg.mappings| <= MAX_MAPPINGS && Sized(cfg.mappings)
    ensures ok <==> cap >= 8 && |Joined(AllLines(cfg))| + 1 < cap
    ensures ok ==> blob == Joined(AllLines(cfg))
  {
    hide Joined, HeaderLine, Buffered, PlcLines, MappingLines;
    ok, blob := false, "";
    var plcs, mappings := PlcLines(cfg.plcs), MappingLines(cfg.mappings);
    assert AllLines(cfg) == [HeaderLine(cfg)] + (plcs + mappings);
    JoinedNext("", HeaderLine(cfg), plcs + mappings);
    JoinedConcat(plcs, mappings);
    ghost var header := "" + Buffered(HeaderLine(cfg));
    Grouped(Joined(AllLines(cfg)), header, Joined(plcs), Joined(mappings));
    if cap < MIN_BLOB_CAP {
      return;
    }
    ok, blob := AppendLine("", HeaderLine(cfg), cap);
    if !ok {
      return;
    }
    ok, blob := AppendPlcs(blob, cfg.plcs, cap);
    if !ok {
      return;
    }
    ok, blob := AppendMappings(blob, cfg.mappings, cap);
  }

  lemma Grouped(all: string, a: string, b: string, c: string)
    ensures "" + all == all && a + (b + c) == (a + b) + c
  {
  }

  // ----- Decoding -----

  lemma LinesUnfold(t: string)
    requires t != ""
    ensures var n := UpTo(t, '\n');
      Lines(t) == [Cut(t[..n])] + Lines(t[if n < |t| then n + 1 else n..])
  {
    hide Cut, UpTo;
  }

  lemma LinesStep(s: string, p: nat)
    requires p < |s|
    ensures var n := UpTo(s[p..], '\n');
      var next := p + n + if p + n < |s| then 1 else 0;
      && p + n <= |s| && p < next <= |s|
      && Lines(s[p..]) == [Cut(s[p..p + n])] + Lines(s[next..])
  {
    hide Cut, Lines, UpTo;
    var n := UpTo(s[p..], '\n');
    var next := p + n + if p + n < |s| then 1 else 0;
    LinesUnfold(s[p..]);
    Slices(s, p, n, next);
  }

  /** DecodeBlob: line by line, then the pass over duplicate columns. */
  method DecodeBlob(blob: string) returns (cfg: Config)
    ensures cfg == Decoded(blob)
  {
    hide DecodeLine, Lines, UpTo, Deduped, DedupedMappings, Cut;
    cfg := DEFAULT_CONFIG;
    var p := 0;
    assert blob[0..] == blob;
    while p < |blob|
      invariant p <= |blob|
      invariant DecodeLines(Lines(blob), DEFAULT_CONFIG) == DecodeLines(Lines(blob[p..]), cfg)
    {
      LinesStep(blob, p);
      var n := IndexOf(blob[p..], '\n');
      var line := Cut(blob[p..p + n]);
      var next := p + n + if p + n < |blob| then 1 else 0;
      assert ([line] + Lines(blob[next..]))[1..] == Lines(blob[next..]);
      cfg := DecodeLine(line, cfg);
      p := next;
    }
    assert blob[|blob|..] == "" && Lines("") == [] by { NoText(); }
    var mappings := DedupeAll(cfg.mappings);
    cfg := cfg.(mappings := mappings);
  }

  lemma NoText()
    ensures Lines("") == []
  {
  }

  method DedupeAll(ms: seq<Mapping>) returns (out: seq<Mapping>)
    ensures out == DedupedMappings(ms)
  {
    hide Deduped, DedupedMappings;
    out := [];
    assert ms[0..] == ms;
    for i := 0 to |ms|
      invariant out + DedupedMappings(ms[i..]) == DedupedMappings(ms)
    {
      var fields := new FieldMapping[|ms[i].fields|](k requires 0 <= k < |ms[i].fields| => ms[i].fields[k]);
      assert fields[..] == ms[i].fields;
      var kept := DedupeMappingSqlColumns(fields);
      DedupedMappingsStep(ms, i);
      out := out + [ms[i].(fields := fields[..kept])];
    }
    NoMappings();
    assert ms[|ms|..] == [];
  }

  lemma DedupedMappingsStep(ms: seq<Mapping>, i: nat)
    requires i < |ms|
    ensures DedupedMappings(ms[i..]) == [ms[i].(fields := Deduped(ms[i].fields))] + DedupedMappings(ms[i + 1..])
  {
    hide Deduped;
    assert ms[i..][1..] == ms[i + 1..];
  }

  lemma NoMappings()
    ensures DedupedMappings([]) == []
  {
  }
}
