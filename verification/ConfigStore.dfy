/** The configuration in use and its copy in flash. */
module ConfigStore {
  // Saving and loading it: what a restart leaves of a configuration that was saved.

  import opened Bytes
  import opened GatewayTypes
  import opened ConfigBlob
  import opened ConfigRoundTrip
  import opened ConfigCodec
  import SqlText

  const BLOB_CAP: nat := 4096

  /** The blob fits the buffer it is written into. */
  ghost predicate BlobFits(cfg: Config) {
    && |cfg.plcs| <= MAX_PLCS && |cfg.mappings| <= MAX_MAPPINGS && Sized(cfg.mappings)
    && |Joined(AllLines(cfg))| + 1 < 4096
  }

  /** What a load makes of the flash entries: the decoder starts over, and `enabled` alone is put back after it. */
  function Loaded(enabled: bool, blob: string): Config {
    Decoded(blob).(enabled := enabled)
  }

  // ----- Which configurations come back -----

  predicate FieldStandard(f: FieldMapping) {
    f.scale == 1.0 && f.offset == 0.0 && f.maxStringLength == MAX_STRING_VALUE_LEN
  }

  predicate MappingStandard(m: Mapping) {
    && m.maxCaptureRetries == DEFAULT_CAPTURE_RETRIES && m.captureRetryDelayMs == DEFAULT_CAPTURE_RETRY_DELAY
    && forall i :: 0 <= i < |m.fields| ==> FieldStandard(m.fields[i])
  }

  /** Everything that the loader leaves at its default is at its default. */
  predicate Standard(cfg: Config) {
    && cfg.idempotency == IDEMPOTENCY_NONE && cfg.eventIdColumn == DEFAULT_EVENT_ID_COLUMN
    && forall i :: 0 <= i < |cfg.mappings| ==> MappingStandard(cfg.mappings[i])
  }

  lemma {:induction false} KeptFieldAt(fs: seq<FieldMapping>, i: nat)
    requires i < |fs|
    ensures KeptFields(fs)[i] == KeptField(fs[i])
    decreases i
  {
    hide KeptField;
    if i > 0 {
      KeptFieldAt(fs[1..], i - 1);
    }
  }

  lemma KeptIfStandard(m: Mapping)
    ensures KeptMapping(m) == m <==> MappingStandard(m)
  {
    hide KeptFields;
    forall i | 0 <= i < |m.fields|
      ensures KeptFields(m.fields)[i] == m.fields[i] <==> FieldStandard(m.fields[i])
    {
      KeptFieldAt(m.fields, i);
    }
    if MappingStandard(m) {
      assert KeptFields(m.fields) == m.fields;
    }
  }

  lemma KeptExactlyStandard(cfg: Config)
    ensures Kept(cfg).(enabled := cfg.enabled) == cfg <==> Standard(cfg)
  {
    hide KeptMapping, MappingStandard, KeptMappings;
    var kept := KeptMappings(cfg.mappings);
    KeptAt(cfg.mappings, 0);
    forall i | 0 <= i < |cfg.mappings|
      ensures kept[i] == cfg.mappings[i] <==> MappingStandard(cfg.mappings[i])
    {
      KeptAt(cfg.mappings, i);
      KeptIfStandard(cfg.mappings[i]);
    }
    if Standard(cfg) {
      assert kept == cfg.mappings;
    }
  }

  /**
   * An accepted configuration whose texts fit is loaded as it was saved exactly
   * if no name, database or schema is empty, no interval is zero, and the
   * event id mode and column, the retry limits and each field's scaling and
   * text length are the defaults.
   */
  lemma LoadedAsSaved(cfg: Config)
    requires Accepted(cfg) && TextsFit(cfg)
    ensures |cfg.plcs| <= MAX_PLCS && |cfg.mappings| <= MAX_MAPPINGS && Sized(cfg.mappings)
    ensures Loaded(cfg.enabled, Joined(AllLines(cfg))) == cfg <==> AllGiven(cfg) && Standard(cfg)
  {
    hide Accepted, TextsFit, PlcGiven, MappingGiven, Decoded, Joined, AllLines, KeptMappings, MappingStandard;
    RoundTripExactly(cfg);
    KeptExactlyStandard(cfg);
    DecodedGiven(Joined(AllLines(cfg)));
  }

  // ----- The event id -----

  /** No line of a blob touches the settings outside it. */
  lemma {:induction false} LinesKeepSettings(lines: seq<string>, cfg: Config)
    ensures var after := DecodeLines(lines, cfg);
      after.idempotency == cfg.idempotency && after.eventIdColumn == cfg.eventIdColumn && after.enabled == cfg.enabled
    decreases |lines|
  {
    hide PlcOf, MappingOf, FieldOf;
    if lines != [] {
      LinesKeepSettings(lines[1..], DecodeLine(lines[0], cfg));
    }
  }

  /** The part of the configuration that the SQL builder asks for. */
  function SqlConfigOf(cfg: Config, defaultDatabase: string): SqlText.SqlConfig {
    SqlText.SqlConfig(
      defaultDatabase,
      if cfg.idempotency == IDEMPOTENCY_EVENT_ID_COLUMN then Some(cfg.eventIdColumn) else None)
  }

  /** Whatever is in flash, no statement built after a load carries the event's id. */
  lemma NoEventIdAfterLoad(enabled: bool, blob: string, defaultDatabase: string)
    ensures SqlConfigOf(Loaded(enabled, blob), defaultDatabase).eventIdColumn.None?
  {
    hide Lines, DedupedMappings, DecodeLines;
    LinesKeepSettings(Lines(blob), DEFAULT_CONFIG);
  }

  const WITH_EVENT_ID := Config(true, IDEMPOTENCY_EVENT_ID_COLUMN, "EventId", [], [], 1)

  /** The same without the event id. */
  const WITHOUT_EVENT_ID := WITH_EVENT_ID.(idempotency := IDEMPOTENCY_NONE, eventIdColumn := DEFAULT_EVENT_ID_COLUMN)

  /** An input for which it matters: accepted, and every statement built before the restart carries the id. */
  lemma EventIdLost()
    ensures Accepted(WITH_EVENT_ID) && TextsFit(WITH_EVENT_ID) && AllGiven(WITH_EVENT_ID) && BlobFits(WITH_EVENT_ID)
    ensures WITH_EVENT_ID.enabled && WITH_EVENT_ID.idempotency == 1 && WITH_EVENT_ID.eventIdColumn == "EventId"
    ensures SqlConfigOf(WITH_EVENT_ID, "").eventIdColumn == Some("EventId")
    ensures Loaded(true, Joined(AllLines(WITH_EVENT_ID))) == WITHOUT_EVENT_ID != WITH_EVENT_ID
  {
    hide HeaderLine;
    var plain := WITHOUT_EVENT_ID;
    HeaderShort(plain);
    assert AllLines(plain) == [HeaderLine(plain)];
    assert AllLines(WITH_EVENT_ID) == AllLines(plain) by { SameHeader(); }
    assert Joined([HeaderLine(plain)][1..]) == "";
    LoadedAsSaved(plain);
  }

  lemma SameHeader()
    ensures HeaderLine(WITH_EVENT_ID) == HeaderLine(WITHOUT_EVENT_ID)
  {
    hide Scanf.Print;
  }

  // ----- The store -----

  type i32 = x: int | -0x8000_0000 <= x < 0x8000_0000

  function ToSigned(v: u32): i32 {
    if v < 0x8000_0000 then v else v - 0x1_0000_0000
  }

  function ToUnsigned(v: i32): u32 {
    v % 0x1_0000_0000
  }

  /** CopyStr into the column's buffer. */
  function CutColumn(s: string): string {
    if |s| < MAX_SQL_IDENT_LEN then s else s[..MAX_SQL_IDENT_LEN - 1]
  }

  class FlashConfig {
    var cfg: Config
    var nvValid: bool
    var nvEnabled: bool
    var nvRevision: i32
    var nvIdempotency: i32
    var nvEventColumn: string
    var nvBlob: string

    /** A device that has never been configured. */
    constructor ()
      ensures cfg == DEFAULT_CONFIG && !nvValid && !nvEnabled && nvBlob == ""
    {
      cfg := DEFAULT_CONFIG;
      nvValid, nvEnabled, nvRevision, nvIdempotency := false, false, 0, 0;
      nvEventColumn, nvBlob := DEFAULT_EVENT_ID_COLUMN, "";
    }

    /** The configuration in use is what its flash entries say. */
    ghost predicate InFlash()
      reads this
    {
      && BlobFits(cfg) && nvValid && nvEnabled == cfg.enabled && nvRevision == ToSigned(cfg.revision)
      && nvIdempotency == cfg.idempotency && nvEventColumn == cfg.eventIdColumn && nvBlob == Joined(AllLines(cfg))
    }

    method ConfigSave(newCfg: Config) returns (ok: bool)
      modifies this
      ensures ok <==> Accepted(newCfg) && BlobFits(newCfg)
      ensures ok ==> cfg == newCfg && InFlash()
      ensures !ok ==> unchanged(this)
    {
      hide Joined, AllLines, MappingAccepted;
      ok := ConfigValidate(newCfg);
      if !ok {
        return;
      }
      AcceptedSized(newCfg);
      var blob: string;
      ok, blob := EncodeBlob(newCfg, BLOB_CAP);
      if !ok {
        return;
      }
      cfg := newCfg;
      nvEnabled := newCfg.enabled;
      nvRevision := ToSigned(newCfg.revision);
      nvIdempotency := newCfg.idempotency;
      nvEventColumn := newCfg.eventIdColumn;
      nvBlob := blob;
      nvValid := true;
    }

    /** Four settings are read back, and the decoder then resets all but the first of them. */
    method ConfigLoad() returns (ok: bool)
      modifies this`cfg
      ensures ok <==> nvValid || nvBlob != ""
      ensures cfg == if ok then Loaded(nvEnabled, nvBlob) else DEFAULT_CONFIG
    {
      hide Decoded;
      cfg := DEFAULT_CONFIG;
      if !nvValid && |nvBlob| == 0 {
        return false;
      }
      cfg := cfg.(enabled := nvEnabled);
      cfg := cfg.(revision := ToUnsigned(nvRevision));
      cfg := cfg.(idempotency := nvIdempotency % 0x100);
      cfg := cfg.(eventIdColumn := CutColumn(nvEventColumn));
      cfg := DecodeBlob(nvBlob);
      cfg := cfg.(enabled := nvEnabled);
      ok := true;
    }

    /** A save and the next start. */
    method SaveAndRestart(newCfg: Config) returns (saved: bool)
      requires TextsFit(newCfg)
      modifies this
      ensures saved <==> Accepted(newCfg) && BlobFits(newCfg)
      ensures saved ==> (cfg == newCfg <==> AllGiven(newCfg) && Standard(newCfg))
      ensures saved ==> SqlConfigOf(cfg, "").eventIdColumn.None?
      ensures !saved ==> unchanged(this)
    {
      hide Accepted, TextsFit, AllGiven, Standard, Decoded, Joined, AllLines;
      saved := ConfigSave(newCfg);
      if saved {
        LoadedAsSaved(newCfg);
        NoEventIdAfterLoad(nvEnabled, nvBlob, "");
        var loaded := ConfigLoad();
      }
    }
  }

  lemma AcceptedSized(cfg: Config)
    requires Accepted(cfg)
    ensures |cfg.plcs| <= MAX_PLCS && |cfg.mappings| <= MAX_MAPPINGS && Sized(cfg.mappings)
  {
    hide FieldAccepted;
    forall i | 0 <= i < |cfg.mappings|
      ensures |cfg.mappings[i].fields| <= MAX_FIELDS_PER_MAPPING
    {
      assert MappingAccepted(cfg.mappings[i], cfg.plcs);
    }
  }
}
