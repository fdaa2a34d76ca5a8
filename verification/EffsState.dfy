/**
 * The state of the flash-backed queue as values: the segment files with the
 * records they hold, and the live records in append order as the reference.
 */
module EffsState {
  import opened Bytes
  import opened GatewayTypes
  import opened EffsLog
  import Crc
  import Serializer

  const MAX_QUEUE_RECORDS: nat := 64
  const SEGMENT_BYTES: nat := 65536
  const BUDGET_BYTES: nat := 524288
  const SEGMENTS: nat := 256

  datatype Meta = Meta(nextId: u64, active: nat, bytesUsed: nat)

  // ----- Live records -----

  /** The live records of all segments, in segment and file order. */
  function AllLive(segs: seq<seq<Rec>>): seq<Placed> {
    if segs == [] then []
    else
      var n := |segs| - 1;
      AllLive(segs[..n]) + LiveOf(segs[n], n, 0)
  }

  function SumSize(ps: seq<Placed>): nat {
    if ps == [] then 0 else Size(ps[0].rec) + SumSize(ps[1..])
  }

  /** The reference step for a flag rewrite: relabel the record of that id, or drop it if it stops being live. */
  function Marked(ps: seq<Placed>, id: u64, flag: byte): seq<Placed> {
    if ps == [] then [] else MarkedOne(ps[0], id, flag) + Marked(ps[1..], id, flag)
  }

  function MarkedOne(p: Placed, id: u64, flag: byte): seq<Placed> {
    if p.rec.id != id then [p]
    else if IsLive(flag) then [p.(rec := p.rec.(flag := flag))]
    else []
  }

  ghost predicate HasId(ps: seq<Placed>, id: u64) {
    exists p :: p in ps && p.rec.id == id
  }

  ghost predicate UniqueIds(ps: seq<Placed>) {
    forall i, j :: 0 <= i < j < |ps| ==> ps[i].rec.id != ps[j].rec.id
  }

  lemma {:induction false} MarkedAbsent(ps: seq<Placed>, id: u64, flag: byte)
    requires forall p :: p in ps ==> p.rec.id != id
    ensures Marked(ps, id, flag) == ps
    decreases |ps|
  {
    if ps != [] {
      MarkedAbsent(ps[1..], id, flag);
    }
  }

  lemma {:induction false} MarkedConcat(a: seq<Placed>, b: seq<Placed>, id: u64, flag: byte)
    ensures Marked(a + b, id, flag) == Marked(a, id, flag) + Marked(b, id, flag)
    decreases |a|
  {
    hide MarkedOne;
    if a == [] {
      assert a + b == b;
    } else {
      MarkedConcat(a[1..], b, id, flag);
      var whole := a + b;
      assert whole != [] && whole[0] == a[0] && whole[1..] == a[1..] + b;
      assert Marked(whole, id, flag) == MarkedOne(a[0], id, flag) + Marked(whole[1..], id, flag);
    }
  }

  // ----- Rewriting a flag in place -----

  /** A live record starts at that offset of the log. */
  ghost predicate LiveAt(rs: seq<Rec>, offset: nat) {
    rs != [] && if offset == 0 then IsLive(rs[0].flag)
                else offset >= Size(rs[0]) && LiveAt(rs[1..], offset - Size(rs[0]))
  }

  function SetFlagAt(rs: seq<Rec>, offset: nat, flag: byte): (after: seq<Rec>)
    ensures |after| == |rs|
  {
    if rs == [] then []
    else if offset == 0 then [rs[0].(flag := flag)] + rs[1..]
    else if offset < Size(rs[0]) then rs
    else [rs[0]] + SetFlagAt(rs[1..], offset - Size(rs[0]), flag)
  }

  lemma UpdateConcat(a: seq<byte>, b: seq<byte>, i: nat, v: byte)
    requires i < |a| + |b|
    ensures i < |a| ==> (a + b)[i := v] == a[i := v] + b
    ensures i >= |a| ==> (a + b)[i := v] == a + b[i - |a| := v]
  {
  }

  /** Overwriting the one flag byte is setting the record's flag. */
  lemma {:induction false} RewriteFlag(rs: seq<Rec>, offset: nat, flag: byte)
    requires LogOk(rs) && LiveAt(rs, offset)
    ensures offset + REC_HEADER_SIZE <= LogSize(rs)
    ensures LogOk(SetFlagAt(rs, offset, flag)) && LogSize(SetFlagAt(rs, offset, flag)) == LogSize(rs)
    ensures EncodeLog(rs)[offset + 4 := flag] == EncodeLog(SetFlagAt(rs, offset, flag))
    decreases |rs|
  {
    hide EncodeRec, IsLive, EncodeLog, LogSize;
    var r, rest := rs[0], rs[1..];
    assert rs == [r] + rest;
    EncodeCons(r, rest);
    if offset == 0 {
      HeaderFlag(r, flag);
      EncodeCons(r.(flag := flag), rest);
      UpdateConcat(EncodeRec(r), EncodeLog(rest), 4, flag);
    } else {
      RewriteFlag(rest, offset - Size(r), flag);
      EncodeCons(r, SetFlagAt(rest, offset - Size(r), flag));
      UpdateConcat(EncodeRec(r), EncodeLog(rest), offset + 4, flag);
    }
  }

  lemma HeaderFlag(r: Rec, flag: byte)
    requires RecOk(r)
    ensures EncodeRec(r)[4 := flag] == EncodeRec(r.(flag := flag))
  {
    hide Le64, Le32;
    var tail := Le64(r.id) + (Le32(|r.payload|) + Le32(Crc.Checksum(r.payload)));
    SetFifth(Le32(REC_MAGIC), [r.flag, 0, 0, 0], tail, r.payload, flag);
    assert [r.flag, 0, 0, 0][0 := flag] == [flag, 0, 0, 0];
  }

  lemma SetFifth(m: seq<byte>, a: seq<byte>, tail: seq<byte>, payload: seq<byte>, b: byte)
    requires |m| == 4 && |a| == 4
    ensures (m + (a + tail) + payload)[4 := b] == m + (a[0 := b] + tail) + payload
  {
  }

  lemma {:induction false} LiveOfPlaces(rs: seq<Rec>, seg: nat, base: nat)
    ensures forall p :: p in LiveOf(rs, seg, base) ==> p.seg == seg && p.offset >= base
    decreases |rs|
  {
    hide IsLive;
    if rs != [] {
      LiveOfPlaces(rs[1..], seg, base + Size(rs[0]));
    }
  }

  /** The live records of a log that starts with `r`. */
  lemma LiveOfCons(r: Rec, rest: seq<Rec>, seg: nat, base: nat)
    ensures LiveOf([r] + rest, seg, base)
      == (if IsLive(r.flag) then [Placed(r, seg, base)] else []) + LiveOf(rest, seg, base + Size(r))
  {
    hide IsLive;
    assert ([r] + rest)[1..] == rest;
  }

  lemma MarkedSingle(p: Placed, id: u64, flag: byte)
    ensures Marked([p], id, flag) == MarkedOne(p, id, flag)
  {
    hide MarkedOne;
    assert [p][1..] == [];
    assert Marked([p][1..], id, flag) == [];
  }

  /** Setting the flag of the record with that id marks it among the live ones. */
  lemma {:induction false} LiveSetFlag(rs: seq<Rec>, offset: nat, flag: byte, id: u64, seg: nat, base: nat)
    requires LiveAt(rs, offset)
    requires forall p :: p in LiveOf(rs, seg, base) ==> (p.rec.id == id <==> p.offset == base + offset)
    ensures LiveOf(SetFlagAt(rs, offset, flag), seg, base) == Marked(LiveOf(rs, seg, base), id, flag)
    decreases |rs|
  {
    hide IsLive, LiveOf, Marked;
    var r, next := rs[0], base + Size(rs[0]);
    var tail := LiveOf(rs[1..], seg, next);
    var head := if IsLive(r.flag) then [Placed(r, seg, base)] else [];
    assert rs == [r] + rs[1..];
    LiveOfCons(r, rs[1..], seg, base);
    MarkedConcat(head, tail, id, flag);
    LiveOfPlaces(rs[1..], seg, next);
    if offset == 0 {
      assert Placed(r, seg, base) in head + tail;
      MarkedAbsent(tail, id, flag);
      LiveOfCons(r.(flag := flag), rs[1..], seg, base);
      MarkedSingle(Placed(r, seg, base), id, flag);
    } else {
      LiveSetFlag(rs[1..], offset - Size(r), flag, id, seg, next);
      LiveOfCons(r, SetFlagAt(rs[1..], offset - Size(r), flag), seg, base);
      assert forall p :: p in head ==> p in head + tail;
      MarkedAbsent(head, id, flag);
    }
  }

  /** A live record can be found where its entry says, with its payload behind the header. */
  lemma {:induction false} LiveOfAt(rs: seq<Rec>, seg: nat, base: nat, p: Placed)
    requires LogOk(rs) && p in LiveOf(rs, seg, base)
    ensures p.seg == seg && base <= p.offset && LiveAt(rs, p.offset - base)
    ensures RecOk(p.rec) && p.offset - base + Size(p.rec) <= LogSize(rs)
    ensures EncodeLog(rs)[p.offset - base + REC_HEADER_SIZE..p.offset - base + Size(p.rec)] == p.rec.payload
    decreases |rs|
  {
    hide IsLive, LiveOf, EncodeRec;
    assert rs != [] by { NoneLiveAt(rs, seg, base); }
    var r := rs[0];
    assert rs == [r] + rs[1..];
    LiveOfCons(r, rs[1..], seg, base);
    var next := base + Size(r);
    if p in LiveOf(rs[1..], seg, next) {
      LiveOfAt(rs[1..], seg, next, p);
      var at := p.offset - next;
      PayloadBelow(EncodeRec(r), EncodeLog(rs[1..]), at + REC_HEADER_SIZE, at + Size(p.rec));
    } else {
      assert p == Placed(r, seg, base);
      PayloadHere(r, EncodeLog(rs[1..]));
    }
  }

  lemma NoneLiveAt(rs: seq<Rec>, seg: nat, base: nat)
    ensures rs == [] ==> LiveOf(rs, seg, base) == []
  {
  }

  lemma PayloadBelow(a: seq<byte>, b: seq<byte>, i: nat, j: nat)
    requires i <= j <= |b|
    ensures (a + b)[|a| + i..|a| + j] == b[i..j]
  {
  }

  lemma PayloadHere(r: Rec, rest: seq<byte>)
    requires RecOk(r)
    ensures (EncodeRec(r) + rest)[REC_HEADER_SIZE..Size(r)] == r.payload
  {
    hide RecHeader;
  }

  lemma {:induction false} AllLiveAt(segs: seq<seq<Rec>>, p: Placed)
    ensures p in AllLive(segs) <==> p.seg < |segs| && p in LiveOf(segs[p.seg], p.seg, 0)
    decreases |segs|
  {
    hide LiveOf;
    if segs != [] {
      var n := |segs| - 1;
      AllLiveAt(segs[..n], p);
      if p in LiveOf(segs[n], n, 0) {
        LiveOfPlaces(segs[n], n, 0);
      }
    }
  }

  lemma {:induction false} AllLiveSame(segs: seq<seq<Rec>>, k: nat, rs: seq<Rec>)
    requires k < |segs| && LiveOf(rs, k, 0) == LiveOf(segs[k], k, 0)
    ensures AllLive(segs[k := rs]) == AllLive(segs)
    decreases |segs|
  {
    hide LiveOf;
    var n := |segs| - 1;
    if k == n {
      assert segs[k := rs][..n] == segs[..n];
    } else {
      AllLiveSame(segs[..n], k, rs);
      assert segs[k := rs][..n] == segs[..n][k := rs];
    }
  }

  lemma {:induction false} AllLiveSetFlag(segs: seq<seq<Rec>>, k: nat, offset: nat, flag: byte, id: u64)
    requires k < |segs| && LiveAt(segs[k], offset)
    requires forall p :: p in AllLive(segs) ==> (p.rec.id == id <==> p.seg == k && p.offset == offset)
    ensures AllLive(segs[k := SetFlagAt(segs[k], offset, flag)]) == Marked(AllLive(segs), id, flag)
    decreases |segs|
  {
    hide LiveOf, LiveAt, SetFlagAt, Marked;
    var n := |segs| - 1;
    var changed := SetFlagAt(segs[k], offset, flag);
    var last := LiveOf(segs[n], n, 0);
    MarkedConcat(AllLive(segs[..n]), last, id, flag);
    LiveOfPlaces(segs[n], n, 0);
    if k == n {
      assert segs[k := changed][..n] == segs[..n];
      LiveSetFlag(segs[k], offset, flag, id, k, 0);
      forall p | p in AllLive(segs[..n])
        ensures p.rec.id != id
      {
        AllLiveAt(segs[..n], p);
      }
      MarkedAbsent(AllLive(segs[..n]), id, flag);
    } else {
      assert segs[k := changed][..n] == segs[..n][k := changed];
      AllLiveSetFlag(segs[..n], k, offset, flag, id);
      MarkedAbsent(last, id, flag);
    }
  }

  /** A record appended to the last segment in use becomes the last live record. */
  lemma {:induction false} AllLiveAppend(segs: seq<seq<Rec>>, k: nat, r: Rec)
    requires k < |segs| && IsLive(r.flag)
    requires forall j :: k < j < |segs| ==> segs[j] == []
    ensures AllLive(segs[k := segs[k] + [r]]) == AllLive(segs) + [Placed(r, k, LogSize(segs[k]))]
    decreases |segs|
  {
    hide LiveOf, IsLive, LogSize;
    var n := |segs| - 1;
    if k == n {
      assert segs[k := segs[k] + [r]][..n] == segs[..n];
      LiveOfAppend(segs[k], r, k, 0);
    } else {
      AllLiveAppend(segs[..n], k, r);
      assert segs[k := segs[k] + [r]][..n] == segs[..n][k := segs[k] + [r]];
      assert LiveOf(segs[n], n, 0) == [] by { NoneLive(n); }
    }
  }

  lemma NoneLive(seg: nat)
    ensures LiveOf([], seg, 0) == []
  {
  }

  lemma {:induction false} LiveOfAppend(rs: seq<Rec>, r: Rec, seg: nat, base: nat)
    requires IsLive(r.flag)
    ensures LiveOf(rs + [r], seg, base) == LiveOf(rs, seg, base) + [Placed(r, seg, base + LogSize(rs))]
    decreases |rs|
  {
    hide IsLive, LiveOf;
    NoneLiveAt([], seg, base + LogSize(rs) + Size(r));
    if rs == [] {
      NoneLiveAt(rs, seg, base);
      assert rs + [r] == [r] + [];
      LiveOfCons(r, [], seg, base);
    } else {
      assert rs + [r] == [rs[0]] + (rs[1..] + [r]) && rs == [rs[0]] + rs[1..];
      LiveOfCons(rs[0], rs[1..], seg, base);
      LiveOfCons(rs[0], rs[1..] + [r], seg, base);
      LiveOfAppend(rs[1..], r, seg, base + Size(rs[0]));
    }
  }

  lemma {:induction false} EncodeAppend(rs: seq<Rec>, r: Rec)
    requires LogOk(rs) && RecOk(r)
    ensures LogOk(rs + [r]) && EncodeLog(rs + [r]) == EncodeLog(rs) + EncodeRec(r)
    ensures LogSize(rs + [r]) == LogSize(rs) + Size(r)
    decreases |rs|
  {
    hide EncodeRec;
    if rs == [] {
      assert rs + [r] == [r] && [r][1..] == [];
      assert EncodeLog([r]) == EncodeRec(r) + EncodeLog([]);
    } else {
      var whole := rs + [r];
      assert whole[1..] == rs[1..] + [r] && whole[0] == rs[0];
      EncodeAppend(rs[1..], r);
      assert EncodeLog(whole) == EncodeRec(rs[0]) + EncodeLog(whole[1..]);
    }
  }

  // ----- The index as a bag of entries -----

  function Bag(ps: seq<Placed>): multiset<Option<Entry>> {
    if ps == [] then multiset{} else multiset{Some(EntryOf(ps[0]))} + Bag(ps[1..])
  }

  function FreeSlots(n: nat): multiset<Option<Entry>> {
    multiset{}[None := n]
  }

  /** The index holds each live record's entry once, in whatever slots. */
  ghost predicate IndexOk(index: seq<Option<Entry>>, live: seq<Placed>) {
    |index| == MAX_QUEUE_RECORDS && |live| <= MAX_QUEUE_RECORDS
    && multiset(index) == Bag(live) + FreeSlots(MAX_QUEUE_RECORDS - |live|)
  }

  lemma BagCons(p: Placed, rest: seq<Placed>)
    ensures Bag([p] + rest) == multiset{Some(EntryOf(p))} + Bag(rest)
  {
    hide EntryOf;
    assert ([p] + rest)[1..] == rest;
  }

  lemma {:induction false} BagConcat(a: seq<Placed>, b: seq<Placed>)
    ensures Bag(a + b) == Bag(a) + Bag(b)
    decreases |a|
  {
    hide EntryOf, Bag;
    if a == [] {
      assert a + b == b;
      BagNone();
    } else {
      BagConcat(a[1..], b);
      assert a == [a[0]] + a[1..] && a + b == [a[0]] + (a[1..] + b);
      BagCons(a[0], a[1..]);
      BagCons(a[0], a[1..] + b);
    }
  }

  lemma {:induction false} SumConcat(a: seq<Placed>, b: seq<Placed>)
    ensures SumSize(a + b) == SumSize(a) + SumSize(b)
    decreases |a|
  {
    if a == [] {
      assert a + b == b;
    } else {
      SumConcat(a[1..], b);
      var whole := a + b;
      assert whole != [] && whole[0] == a[0] && whole[1..] == a[1..] + b;
    }
  }

  /** The entry of that id among the live records. */
  lemma {:induction false} BagHas(ps: seq<Placed>, e: Entry)
    ensures Some(e) in Bag(ps) <==> exists i :: 0 <= i < |ps| && EntryOf(ps[i]) == e
    ensures None !in Bag(ps)
    decreases |ps|
  {
    hide EntryOf;
    if ps != [] {
      BagHas(ps[1..], e);
      if Some(e) in Bag(ps[1..]) {
        var i :| 0 <= i < |ps[1..]| && EntryOf(ps[1..][i]) == e;
        assert EntryOf(ps[i + 1]) == e;
      } else if i :| 0 <= i < |ps| && EntryOf(ps[i]) == e {
        assert i > 0 ==> EntryOf(ps[1..][i - 1]) == e;
      }
    }
  }

  /** Slot and record find each other. */
  lemma IndexHas(index: seq<Option<Entry>>, live: seq<Placed>, e: Entry)
    requires IndexOk(index, live)
    ensures Some(e) in index <==> exists i :: 0 <= i < |live| && EntryOf(live[i]) == e
    ensures None in index <==> |live| < MAX_QUEUE_RECORDS
  {
    hide Bag, EntryOf;
    BagHas(live, e);
    assert Some(e) in index <==> Some(e) in multiset(index);
    assert None in index <==> None in multiset(index);
  }

  lemma BagSingle(p: Placed)
    ensures Bag([p]) == multiset{Some(EntryOf(p))} && SumSize([p]) == Size(p.rec)
  {
    assert [p][1..] == [];
    assert Bag([p][1..]) == multiset{} && SumSize([p][1..]) == 0;
  }

  lemma IndexAppend(index: seq<Option<Entry>>, live: seq<Placed>, i: nat, p: Placed)
    requires IndexOk(index, live) && i < |index| && index[i] == None
    ensures IndexOk(index[i := Some(EntryOf(p))], live + [p])
    ensures SumSize(live + [p]) == SumSize(live) + Size(p.rec)
  {
    hide Bag, EntryOf;
    IndexHas(index, live, EntryOf(p));
    BagConcat(live, [p]);
    SumConcat(live, [p]);
    BagSingle(p);
  }

  /** The marked list, seen from the place of the record. */
  lemma MarkedAt(live: seq<Placed>, k: nat, flag: byte)
    requires k < |live| && UniqueIds(live)
    ensures Marked(live, live[k].rec.id, flag) == live[..k] + MarkedOne(live[k], live[k].rec.id, flag) + live[k + 1..]
  {
    hide Marked, MarkedOne;
    var a, p, b := live[..k], live[k], live[k + 1..];
    var id := p.rec.id;
    assert live == a + [p] + b;
    MarkedConcat(a + [p], b, id, flag);
    MarkedConcat(a, [p], id, flag);
    MarkedSingle(p, id, flag);
    MarkedAbsent(a, id, flag);
    MarkedAbsent(b, id, flag);
  }

  lemma SwapSlot(index: seq<Option<Entry>>, i: nat, rest: multiset<Option<Entry>>, b: Option<Entry>)
    requires i < |index| && multiset(index) == rest + multiset{index[i]}
    ensures multiset(index[i := b]) == rest + multiset{b}
  {
  }

  /** The list without its record at `k`. */
  lemma BagWithout(live: seq<Placed>, k: nat, m: seq<Placed>)
    requires k < |live|
    ensures Bag(live) == Bag(live[..k]) + Bag(live[k + 1..]) + multiset{Some(EntryOf(live[k]))}
    ensures Bag(live[..k] + m + live[k + 1..]) == Bag(live[..k]) + Bag(live[k + 1..]) + Bag(m)
    ensures SumSize(live[..k] + m + live[k + 1..]) == SumSize(live) - Size(live[k].rec) + SumSize(m)
  {
    hide Bag, SumSize, EntryOf;
    assert live == live[..k] + [live[k]] + live[k + 1..];
    BagSingle(live[k]);
    BagParts(live[..k], [live[k]], live[k + 1..]);
    BagParts(live[..k], m, live[k + 1..]);
  }

  /** Dropping or relabelling the entry in its slot keeps the index a bag of the marked list. */
  lemma IndexMark(index: seq<Option<Entry>>, live: seq<Placed>, i: nat, k: nat, flag: byte)
    requires IndexOk(index, live) && UniqueIds(live)
    requires i < |index| && k < |live| && index[i] == Some(EntryOf(live[k]))
    ensures var slot := if IsLive(flag) then Some(EntryOf(live[k]).(flag := flag)) else None;
      IndexOk(index[i := slot], Marked(live, live[k].rec.id, flag))
    ensures SumSize(Marked(live, live[k].rec.id, flag))
      == SumSize(live) - if IsLive(flag) then 0 else Size(live[k].rec)
  {
    hide Bag, SumSize, Marked, IsLive, EntryOf, FreeSlots, UniqueIds;
    var p := live[k];
    var m := MarkedOne(p, p.rec.id, flag);
    MarkedAt(live, k, flag);
    BagWithout(live, k, m);
    var others := Bag(live[..k]) + Bag(live[k + 1..]);
    var free := FreeSlots(MAX_QUEUE_RECORDS - |live|);
    var slot := if IsLive(flag) then Some(EntryOf(p).(flag := flag)) else None;
    assert multiset(index) == others + free + multiset{index[i]};
    SwapSlot(index, i, others + free, slot);
    if IsLive(flag) {
      BagSingle(m[0]);
      assert EntryOf(m[0]) == EntryOf(p).(flag := flag) by { Relabelled(p, flag); }
    } else {
      BagNone();
      OneMoreFree(MAX_QUEUE_RECORDS - |live|);
    }
  }

  lemma Relabelled(p: Placed, flag: byte)
    ensures EntryOf(p.(rec := p.rec.(flag := flag))) == EntryOf(p).(flag := flag)
  {
  }

  lemma OneMoreFree(n: nat)
    ensures FreeSlots(n + 1) == FreeSlots(n) + multiset{None}
  {
  }

  lemma BagNone()
    ensures Bag([]) == multiset{} && SumSize([]) == 0
  {
  }

  lemma BagParts(a: seq<Placed>, m: seq<Placed>, b: seq<Placed>)
    ensures Bag(a + m + b) == Bag(a) + Bag(m) + Bag(b)
    ensures SumSize(a + m + b) == SumSize(a) + SumSize(m) + SumSize(b)
  {
    hide Bag, SumSize;
    BagConcat(a + m, b);
    BagConcat(a, m);
    SumConcat(a + m, b);
    SumConcat(a, m);
  }

  // ----- A freshly filled index -----

  /** `es` in the first slots, the other ones free. */
  function Packed(es: seq<Entry>, n: nat): (slots: seq<Option<Entry>>)
    requires |es| <= n
    ensures |slots| == n
    decreases n
  {
    if n == 0 then []
    else if es == [] then [None] + Packed([], n - 1)
    else [Some(es[0])] + Packed(es[1..], n - 1)
  }

  lemma {:induction false} PackedAt(es: seq<Entry>, n: nat, i: nat)
    requires |es| <= n && i < n
    ensures Packed(es, n)[i] == if i < |es| then Some(es[i]) else None
    decreases n
  {
    if i > 0 {
      if es == [] {
        PackedAt([], n - 1, i - 1);
      } else {
        PackedAt(es[1..], n - 1, i - 1);
      }
    }
  }

  /** The next entry goes to the first free slot. */
  lemma PackedAppend(es: seq<Entry>, n: nat, e: Entry)
    requires |es| < n
    ensures Packed(es + [e], n) == Packed(es, n)[|es| := Some(e)]
  {
    hide Packed;
    forall i | 0 <= i < n
      ensures Packed(es + [e], n)[i] == Packed(es, n)[|es| := Some(e)][i]
    {
      PackedAt(es + [e], n, i);
      PackedAt(es, n, i);
    }
  }

  /** The bytes of the records that an index holds. */
  function SumSlots(index: seq<Option<Entry>>): nat {
    if index == [] then 0
    else SumSlots(index[..|index| - 1])
         + match index[|index| - 1] { case None => 0 case Some(e) => REC_HEADER_SIZE + e.len }
  }

  lemma {:induction false} SumSlotsConcat(a: seq<Option<Entry>>, b: seq<Option<Entry>>)
    ensures SumSlots(a + b) == SumSlots(a) + SumSlots(b)
    decreases |b|
  {
    if b == [] {
      assert a + b == a;
    } else {
      var n := |b| - 1;
      SumSlotsConcat(a, b[..n]);
      assert (a + b)[..|a| + n] == a + b[..n];
    }
  }

  lemma PackedUnfold(live: seq<Placed>, n: nat)
    requires |live| <= n && n > 0
    ensures live == [] ==> Packed(EntriesOf(live), n) == [None] + Packed(EntriesOf([]), n - 1)
    ensures live != [] ==> |live[1..]| <= n - 1
    ensures live != [] ==> Packed(EntriesOf(live), n) == [Some(EntryOf(live[0]))] + Packed(EntriesOf(live[1..]), n - 1)
  {
    hide EntryOf;
    assert live != [] ==> EntriesOf(live)[1..] == EntriesOf(live[1..]);
  }

  lemma ConsBag<T>(x: T, rest: seq<T>)
    ensures multiset([x] + rest) == multiset{x} + multiset(rest)
  {
  }

  lemma {:induction false} PackedBag(live: seq<Placed>, n: nat)
    requires |live| <= n
    ensures multiset(Packed(EntriesOf(live), n)) == Bag(live) + FreeSlots(n - |live|)
    decreases n
  {
    hide EntryOf, FreeSlots, Packed, EntriesOf, Bag;
    if n == 0 {
      NoFreeSlots();
      BagNone();
      assert Packed(EntriesOf(live), n) == [] && live == [];
    } else if live == [] {
      PackedBag([], n - 1);
      OneMoreFree(n - 1);
      PackedUnfold(live, n);
      ConsBag(None, Packed(EntriesOf([]), n - 1));
    } else {
      PackedBag(live[1..], n - 1);
      PackedUnfold(live, n);
      ConsBag(Some(EntryOf(live[0])), Packed(EntriesOf(live[1..]), n - 1));
      BagCons(live[0], live[1..]);
      assert live == [live[0]] + live[1..];
    }
  }

  lemma NoFreeSlots()
    ensures FreeSlots(0) == multiset{}
  {
  }

  lemma {:induction false} PackedSum(live: seq<Placed>, n: nat)
    requires |live| <= n
    ensures SumSlots(Packed(EntriesOf(live), n)) == SumSize(live)
    decreases n
  {
    hide EntryOf, SumSlots;
    if n == 0 {
      SumSlotOne(None);
    } else if live == [] {
      PackedSum([], n - 1);
      SumSlotsConcat([None], Packed([], n - 1));
      SumSlotOne(None);
    } else {
      PackedSum(live[1..], n - 1);
      var e := Some(EntryOf(live[0]));
      assert EntriesOf(live)[1..] == EntriesOf(live[1..]);
      SumSlotsConcat([e], Packed(EntriesOf(live[1..]), n - 1));
      SumSlotOne(e);
      EntryLength(live[0]);
    }
  }

  lemma EntryLength(p: Placed)
    ensures EntryOf(p).len == |p.rec.payload|
  {
  }

  lemma SumSlotOne(o: Option<Entry>)
    ensures SumSlots([o]) == (if o.Some? then REC_HEADER_SIZE + o.value.len else 0) && SumSlots([]) == 0
  {
    assert [o][..0] == [];
  }
}
