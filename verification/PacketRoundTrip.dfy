/** Whole packets: what the dispatcher writes, the parser's loops read back, question by question and record by
 * record, as long as the names are correct steps (PacketNames) and everything fits. */
module PacketRoundTrip {
  import opened Bytes
  import NameReader
  import opened NameWriter
  import opened NameRoundTrip
  import opened PacketNames
  import opened PacketReader
  import TxtCodec
  import W = RecordWriter

  // ---------- Record writers as steps of PacketNames ----------

  function DataWrites(data: W.Rdata): seq<Write> {
    match data
    case NameData(strings) => [NameOf(strings)]
    case ServiceData(priority, weight, port, strings) =>
      [Raw(U16(priority)), Raw(U16(weight)), Raw(U16(port)), NameOf(strings)]
    case TextData(items) => [Raw(TxtCodec.Data(items))]
    case V4Data(address) => [Raw(address)]
    case V6Data(address) => [Raw(address)]
  }

  function NameEnd(o: Out, r: W.Record): nat
    requires o.Valid()
  {
    W.AppendName(o, r.owner).0.index
  }

  /** The name, the fixed fields, the data, and the data length set last. */
  function RecordWrites(o: Out, r: W.Record): seq<Write>
    requires o.Valid()
  {
    var end := W.AppendRecord(o, r).0.index;
    var len := if end >= NameEnd(o, r) + 10 then end - NameEnd(o, r) - 10 else 0;
    [NameOf(r.owner)] + ([Raw(W.TypeBytes(r.kind, r.flush, r.ttl))]
      + (DataWrites(r.data) + [Patch(NameEnd(o, r) + 8, len)]))
  }

  function SectionWrites(o: Out, rs: seq<W.Record>): seq<Write>
    requires o.Valid()
    decreases |rs|
  {
    if rs == [] then [] else RecordWrites(o, rs[0]) + SectionWrites(W.AppendRecord(o, rs[0]).0, rs[1..])
  }

  lemma {:induction false} RunAppend(d: Doc, a: seq<Write>, b: seq<Write>)
    requires d.out.Valid() && AllowedRun(d, a + b)
    ensures AllowedRun(d, a) && AllowedRun(Run(d, a), b) && Run(d, a + b) == Run(Run(d, a), b)
    decreases |a|
  {
    hide Allowed, Do;
    if a == [] {
      assert a + b == b;
    } else {
      assert (a + b)[0] == a[0] && (a + b)[1..] == a[1..] + b;
      RunAppend(Do(d, a[0]), a[1..], b);
    }
  }

  lemma RunOne(d: Doc, w: Write)
    requires d.out.Valid() && AllowedRun(d, [w])
    ensures Allowed(d, w) && Run(d, [w]) == Do(d, w)
  {
    assert [w][1..] == [];
  }

  lemma {:induction false} NamesGrow(d: Doc, ws: seq<Write>)
    requires d.out.Valid() && AllowedRun(d, ws)
    ensures d.names <= Run(d, ws).names
    decreases |ws|
  {
    hide Allowed, Fqdn, OwnStarts;
    if ws != [] {
      NamesGrow(Do(d, ws[0]), ws[1..]);
    }
  }

  lemma {:induction false} ItemsAre(o: Out, items: seq<TxtCodec.Item>)
    requires o.Valid() && W.AppendItems(o, items).1 && o.index + |TxtCodec.Entries(items)| <= MAX_PACKET
    ensures W.AppendItems(o, items).0 == o.Put(TxtCodec.Entries(items))
    decreases |items|
  {
    hide TxtCodec.Entry;
    if items == [] {
      assert o.bytes[..o.index] + [] + o.bytes[o.index..] == o.bytes;
    } else {
      var e := TxtCodec.Entry(items[0]);
      ItemsAre(o.Put(e), items[1..]);
      PutTwice(o, e, TxtCodec.Entries(items[1..]));
    }
  }

  lemma TextIs(o: Out, items: seq<TxtCodec.Item>)
    requires o.Valid() && o.index < MAX_PACKET && W.AppendRdata(o, W.TextData(items)).1 > 0
    requires o.index + |TxtCodec.Data(items)| <= MAX_PACKET
    ensures W.AppendRdata(o, W.TextData(items)).0 == o.Put(TxtCodec.Data(items))
  {
    hide Out.Put, W.AppendItems, TxtCodec.Entries;
    W.ItemsLength(o, items);
    ItemsAre(o, items);
  }

  /** The data part of a record at `at`, written up to `end`. */
  predicate DataWritten(b: seq<byte>, names: seq<WrittenName>, at: nat, end: nat, data: W.Rdata)
    requires end <= |b|
  {
    && at <= end
    && match data
       case NameData(strings) => WrittenName(at, end, strings) in names
       case ServiceData(priority, weight, port, strings) =>
         && at + 6 <= end && b[at..at + 6] == U16(priority) + U16(weight) + U16(port)
         && WrittenName(at + 6, end, strings) in names
       case TextData(items) => b[at..end] == TxtCodec.Data(items)
       case V4Data(address) => b[at..end] == address
       case V6Data(address) => b[at..end] == address
  }

  lemma FieldsStay(o: Out, a: nat, b: nat, c: nat, o': Out)
    requires o.Valid() && o.index + 6 <= MAX_PACKET && W.Grew(o.Put(U16(a)).Put(U16(b)).Put(U16(c)), o')
    ensures o.index + 6 <= o'.index && o'.bytes[o.index..o.index + 6] == U16(a) + U16(b) + U16(c)
  {
    PutTwice(o, U16(a), U16(b));
    PutTwice(o, U16(a) + U16(b), U16(c));
    var q := o.Put(U16(a) + U16(b) + U16(c));
    assert q.bytes[o.index..o.index + 6] == U16(a) + U16(b) + U16(c);
    assert forall k :: o.index <= k < o.index + 6 ==> o'.bytes[k] == q.bytes[k];
  }

  /** Three 16-bit fields one after the other. */
  lemma ThreeFields(o: Out, a: nat, b: nat, c: nat, strings: seq<CString>)
    requires o.Valid() && o.index + 6 <= MAX_PACKET && GoodLabels(strings)
    ensures var o' := Fqdn(o.Put(U16(a)).Put(U16(b)).Put(U16(c)), strings).0;
            o.index + 6 <= o'.index <= MAX_PACKET && o'.bytes[o.index..o.index + 6] == U16(a) + U16(b) + U16(c)
  {
    hide Fqdn, GoodLabels;
    var o3 := o.Put(U16(a)).Put(U16(b)).Put(U16(c));
    W.NameGrows(o3, strings);
    FieldsStay(o, a, b, c, Fqdn(o3, strings).0);
  }

  lemma PutIsThere(o: Out, data: seq<byte>)
    requires o.Valid() && o.index + |data| <= MAX_PACKET
    ensures var o' := o.Put(data);
            o'.index == o.index + |data| && |o'.bytes| == MAX_PACKET && o'.bytes[o.index..o'.index] == data
  {}

  lemma NameIsLast(d: Doc, strings: seq<CString>)
    requires d.out.Valid() && Allowed(d, NameOf(strings))
    ensures var e := Do(d, NameOf(strings)); WrittenName(d.out.index, e.out.index, strings) in e.names
  {
    hide Fqdn, LayoutOf, OwnStarts, Fits, GoodLabels;
  }

  lemma FourSteps(d: Doc, a: Write, b: Write, c: Write, e: Write)
    requires d.out.Valid() && AllowedRun(d, [a] + ([b] + ([c] + [e])))
    ensures Allowed(d, a) && Allowed(Do(d, a), b) && Allowed(Do(Do(d, a), b), c) && Allowed(Do(Do(Do(d, a), b), c), e)
    ensures Run(d, [a] + ([b] + ([c] + [e]))) == Do(Do(Do(Do(d, a), b), c), e)
  {
    hide Allowed, Do, AllowedRun, Run;
    RunAppend(d, [a], [b] + ([c] + [e]));
    RunOne(d, a);
    RunAppend(Do(d, a), [b], [c] + [e]);
    RunOne(Do(d, a), b);
    RunAppend(Do(Do(d, a), b), [c], [e]);
    RunOne(Do(Do(d, a), b), c);
    RunOne(Do(Do(Do(d, a), b), c), e);
  }

  /** The data part of an SRV record. */
  lemma ServiceRuns(d: Doc, priority: nat, weight: nat, port: nat, strings: seq<CString>)
    requires var data := W.ServiceData(priority, weight, port, strings);
             d.out.Valid() && AllowedRun(d, DataWrites(data)) && W.AppendRdata(d.out, data).1 > 0
    ensures var data := W.ServiceData(priority, weight, port, strings); var e := Run(d, DataWrites(data));
            && e.out == W.AppendRdata(d.out, data).0
            && DataWritten(e.out.bytes, e.names, d.out.index, e.out.index, data)
  {
    hide Out.Put, Fqdn, U16, LayoutOf, OwnStarts, W.AppendItems, Fits, GoodLabels, AllowedRun, Run;
    var data := W.ServiceData(priority, weight, port, strings);
    var a, b, c, e := Raw(U16(priority)), Raw(U16(weight)), Raw(U16(port)), NameOf(strings);
    assert DataWrites(data) == [a] + ([b] + ([c] + [e]));
    FourSteps(d, a, b, c, e);
    ThreeFields(d.out, priority, weight, port, strings);
    NameIsLast(Do(Do(Do(d, a), b), c), strings);
  }

  /** The data part of a counted record, as steps. */
  lemma DataRuns(d: Doc, data: W.Rdata)
    requires d.out.Valid() && d.out.index < MAX_PACKET && AllowedRun(d, DataWrites(data))
    requires W.AppendRdata(d.out, data).1 > 0
    ensures var e := Run(d, DataWrites(data));
            && e.out == W.AppendRdata(d.out, data).0
            && DataWritten(e.out.bytes, e.names, d.out.index, e.out.index, data)
  {
    hide Out.Put, Fqdn, U16, LayoutOf, OwnStarts, W.AppendItems, Fits;
    match data
    case NameData(strings) =>
      RunOne(d, NameOf(strings));
      W.NameGrows(d.out, strings);
    case ServiceData(priority, weight, port, strings) =>
      ServiceRuns(d, priority, weight, port, strings);
    case TextData(items) =>
      RunOne(d, Raw(TxtCodec.Data(items)));
      TextIs(d.out, items);
      PutIsThere(d.out, TxtCodec.Data(items));
    case V4Data(address) =>
      RunOne(d, Raw(address));
      PutIsThere(d.out, address);
    case V6Data(address) =>
      RunOne(d, Raw(address));
      PutIsThere(d.out, address);
  }

  lemma StepByStep(d: Doc, w0: Write, w1: Write, ws: seq<Write>, last: Write)
    requires d.out.Valid() && AllowedRun(d, [w0] + ([w1] + (ws + [last])))
    ensures Allowed(d, w0) && Allowed(Do(d, w0), w1)
    ensures var d2 := Do(Do(d, w0), w1);
            && AllowedRun(d2, ws) && Allowed(Run(d2, ws), last)
            && Run(d, [w0] + ([w1] + (ws + [last]))) == Do(Run(d2, ws), last)
  {
    hide Allowed, Do, AllowedRun, Run;
    RunAppend(d, [w0], [w1] + (ws + [last]));
    RunOne(d, w0);
    var d1 := Do(d, w0);
    RunAppend(d1, [w1], ws + [last]);
    RunOne(d1, w1);
    var d2 := Do(d1, w1);
    RunAppend(d2, ws, [last]);
    RunOne(Run(d2, ws), last);
  }

  /** The steps of a record, up to its data and after. */
  lemma RecordSplits(d: Doc, r: W.Record) returns (d2: Doc, last: Write)
    requires d.out.Valid() && W.GoodRecord(r) && W.Sized(r) && W.AppendRecord(d.out, r).1 > 0
    requires AllowedRun(d, RecordWrites(d.out, r))
    ensures d2.out.Valid() && d2.out == W.AppendType(W.AppendName(d.out, r.owner).0, r.kind, r.flush, r.ttl).0
    ensures d2.out.index == NameEnd(d.out, r) + 10 < MAX_PACKET
    ensures d2.names == d.names + [WrittenName(d.out.index, NameEnd(d.out, r), r.owner)]
    ensures W.AppendRdata(d2.out, r.data).1 > 0 && AllowedRun(d2, DataWrites(r.data))
    ensures last.Patch? && last.at == NameEnd(d.out, r) + 8
            && last.value == W.AppendRecord(d.out, r).0.index - last.at - 2
    ensures Allowed(Run(d2, DataWrites(r.data)), last)
            && Run(d, RecordWrites(d.out, r)) == Do(Run(d2, DataWrites(r.data)), last)
  {
    hide Out.Put, Fqdn, U16, LayoutOf, OwnStarts, W.AppendRdata, Fits, DataWrites, W.TypeBytes, W.GoodRecord, W.Sized,
         GoodLabels;
    var o := d.out;
    var (o1, n1) := W.AppendName(o, r.owner);
    var w0, w1, ws := NameOf(r.owner), Raw(W.TypeBytes(r.kind, r.flush, r.ttl)), DataWrites(r.data);
    W.RecordIsFramed(o, r);
    W.RecordHead(o, r);
    var end := W.AppendRecord(o, r).0.index;
    last := Patch(o1.index + 8, end - o1.index - 10);
    assert RecordWrites(o, r) == [w0] + ([w1] + (ws + [last]));
    StepByStep(d, w0, w1, ws, last);
    d2 := Do(Do(d, w0), w1);
    W.TypeLeavesRoom(o1, r.kind, r.flush, r.ttl);
  }

  /** A counted record is its steps, the first name they add is its owner's, and its data are written. */
  lemma RecordRuns(d: Doc, r: W.Record)
    requires d.out.Valid() && W.GoodRecord(r) && W.Sized(r) && W.AppendRecord(d.out, r).1 > 0
    requires AllowedRun(d, RecordWrites(d.out, r))
    ensures var e := Run(d, RecordWrites(d.out, r));
            && e.out == W.AppendRecord(d.out, r).0
            && d.names + [WrittenName(d.out.index, NameEnd(d.out, r), r.owner)] <= e.names
            && DataWritten(e.out.bytes, e.names, NameEnd(d.out, r) + 10, e.out.index, r.data)
  {
    hide W.AppendName, W.AppendType, W.AppendRdata, DataWrites, W.GoodRecord, W.Sized, Allowed, DataWritten,
         RecordWrites, AllowedRun, Run, Out.Put;
    var d2, last := RecordSplits(d, r);
    DataRuns(d2, r.data);
    var d3 := Run(d2, DataWrites(r.data));
    NamesGrow(d2, DataWrites(r.data));
    LengthIs(d2.out, d3.out, r, W.AppendRdata(d2.out, r.data).1, d3.out.index - d2.out.index);
    DataPatched(d3, last.at, last.value, d3.out.index, r.data);
  }

  lemma DataPatched(d: Doc, at: nat, v: nat, end: nat, data: W.Rdata)
    requires d.out.Valid() && Allowed(d, Patch(at, v)) && end <= MAX_PACKET
    requires DataWritten(d.out.bytes, d.names, at + 2, end, data)
    ensures var e := Do(d, Patch(at, v)); DataWritten(e.out.bytes, e.names, at + 2, end, data)
  {
    hide U16, TxtCodec.Data;
    var b, b' := d.out.bytes, Do(d, Patch(at, v)).out.bytes;
    assert b'[at + 2..end] == b[at + 2..end];
    if data.ServiceData? {
      assert b'[at + 2..at + 8] == b[at + 2..at + 8];
    }
  }

  /** The length set is the length counted. */
  lemma LengthIs(o2: Out, o3: Out, r: W.Record, n: nat, len: int)
    requires o2.Valid() && o2.index < MAX_PACKET && W.GoodRecord(r) && W.Sized(r) && n > 0
    requires (o3, n) == W.AppendRdata(o2, r.data)
    requires len == o3.index - o2.index
    ensures len == n
  {
    W.RdataLength(o2, r);
  }

  // ---------- Records in place ----------

  /** The data of a record, as the reader finds them: the names inside read back, the rest is there byte by byte. */
  predicate DataPlaced(p: seq<byte>, at: nat, end: nat, data: W.Rdata) {
    && at <= end <= |p|
    && match data
       case NameData(strings) => ReadsAs(p, WrittenName(at, end, strings))
       case ServiceData(priority, weight, port, strings) =>
         && at + 6 <= end && p[at..at + 6] == U16(priority) + U16(weight) + U16(port)
         && ReadsAs(p, WrittenName(at + 6, end, strings))
       case TextData(items) => p[at..end] == TxtCodec.Data(items)
       case V4Data(address) => p[at..end] == address
       case V6Data(address) => p[at..end] == address
  }

  /** A record at `at`: the reader finds its name, its fixed fields, its length and its data. */
  predicate Placed(p: seq<byte>, at: nat, r: W.Record, nameEnd: nat, end: nat) {
    && at < nameEnd && nameEnd + 10 < end <= |p|
    && ReadsAs(p, WrittenName(at, nameEnd, r.owner))
    && p[nameEnd..nameEnd + 8] == W.TypeBytes(r.kind, r.flush, r.ttl)[..8]
    && p[nameEnd + 8..nameEnd + 10] == U16(end - nameEnd - 10)
    && DataPlaced(p, nameEnd + 10, end, r.data)
  }

  predicate AllPlaced(p: seq<byte>, at: nat, rs: seq<W.Record>, ends: seq<(nat, nat)>, end: nat)
    decreases |rs|
  {
    && |ends| == |rs|
    && if rs == [] then at == end
       else Placed(p, at, rs[0], ends[0].0, ends[0].1) && AllPlaced(p, ends[0].1, rs[1..], ends[1..], end)
  }

  lemma {:induction false} AllPlacedAppend(p: seq<byte>, at: nat, a: seq<W.Record>, x: seq<(nat, nat)>, mid: nat,
                                           b: seq<W.Record>, y: seq<(nat, nat)>, end: nat)
    requires AllPlaced(p, at, a, x, mid) && AllPlaced(p, mid, b, y, end)
    ensures AllPlaced(p, at, a + b, x + y, end)
    decreases |a|
  {
    hide Placed;
    if a == [] {
      assert a + b == b && x + y == y;
    } else {
      assert (a + b)[1..] == a[1..] + b && (x + y)[1..] == x[1..] + y;
      AllPlacedAppend(p, x[0].1, a[1..], x[1..], mid, b, y, end);
    }
  }

  /** At `at` the reader finds a name with these labels, up to ASCII case. */
  predicate NameThere(p: seq<byte>, at: nat, strings: seq<CString>) {
    match NameReader.Walk(p, at, at, 0)
    case None => false
    case Some(w) => EqAllNoCase(Labels(w.items), strings)
  }

  /** The fixed fields behind a record's name that ends at `c`: the type, the internet class, with the cache-flush bit
   * (section 10.2 of RFC 6762) for the records that have it and for no others, the time to live and the length. */
  predicate FieldsThere(p: seq<byte>, c: nat, r: W.Record, len: nat) {
    && c + 10 <= |p|
    && U16At(p, c) == r.kind % 0x1_0000
    && U16At(p, c + 2) == (if r.flush then 0x8001 else 0x0001)
    && U32At(p, c + 4) == r.ttl % 0x1_0000_0000
    && U16At(p, c + 8) == len
  }

  /** What the reader gets is the record: its owner's name, its fields and its data, as they stand in the packet. */
  predicate IsRead(p: seq<byte>, x: Skimmed, r: W.Record) {
    && NameThere(p, x.at, r.owner)
    && var c := NameReader.Walk(p, x.at, x.at, 0).value.next;
    && FieldsThere(p, c, r, x.len) && x.data == c + 10
    && DataPlaced(p, x.data, x.data + x.len, r.data)
    && x.kind == r.kind % 0x1_0000 && x.cls == 1 && x.ttl == r.ttl % 0x1_0000_0000 && x.len > 0
  }

  lemma U16Value(p: seq<byte>, at: nat, v: nat)
    requires at + 1 < |p| && p[at..at + 2] == U16(v)
    ensures U16At(p, at) == v % 0x1_0000
  {
    assert p[at] == p[at..at + 2][0] == (v / 256) % 256;
    assert p[at + 1] == p[at..at + 2][1] == v % 256;
  }

  lemma U32Value(p: seq<byte>, at: nat, v: nat)
    requires at + 3 < |p| && p[at..at + 4] == W.U32(v)
    ensures U32At(p, at) == v % 0x1_0000_0000
  {
    assert p[at] == p[at..at + 4][0] && p[at + 1] == p[at..at + 4][1];
    assert p[at + 2] == p[at..at + 4][2] && p[at + 3] == p[at..at + 4][3];
    Bytes4(v);
  }

  lemma Bytes4(v: nat)
    ensures ((v / 0x100_0000) % 256) * 0x100_0000 + ((v / 0x1_0000) % 256) * 0x1_0000 + ((v / 256) % 256) * 256
            + v % 256
            == v % 0x1_0000_0000
  {
    var a, b, c := v / 256, v / 0x1_0000, v / 0x100_0000;
    assert b == a / 256 && c == b / 256;
    assert v == 256 * a + v % 256 && a == 256 * b + a % 256 && b == 256 * c + b % 256;
    var d := c / 256;
    assert c == 256 * d + c % 256;
    Digits(v, d, c % 256, b % 256, a % 256, v % 256);
  }

  lemma Digits(v: nat, d: nat, x3: byte, x2: byte, x1: byte, x0: byte)
    requires v == 0x1_0000_0000 * d + x3 * 0x100_0000 + x2 * 0x1_0000 + x1 * 256 + x0
    ensures v % 0x1_0000_0000 == x3 * 0x100_0000 + x2 * 0x1_0000 + x1 * 256 + x0
  {}

  lemma SamePart(p: seq<byte>, at: nat, t: seq<byte>, i: nat, j: nat)
    requires i <= j <= 8 <= |t| && at + 8 <= |p| && p[at..at + 8] == t[..8]
    ensures p[at + i..at + j] == t[i..j]
  {
    forall k | i <= k < j
      ensures p[at + k] == t[k]
    {
      assert p[at + k] == p[at..at + 8][k] == t[..8][k];
    }
  }

  lemma FieldsOf(p: seq<byte>, at: nat, r: W.Record)
    requires at + 8 < |p| && p[at..at + 8] == W.TypeBytes(r.kind, r.flush, r.ttl)[..8]
    ensures U16At(p, at) == r.kind % 0x1_0000 && U16At(p, at + 2) == (if r.flush then 0x8001 else 0x0001)
            && U32At(p, at + 4) == r.ttl % 0x1_0000_0000
  {
    var t := W.TypeBytes(r.kind, r.flush, r.ttl);
    var cls := if r.flush then W.CLASS_IN_FLUSH else W.CLASS_IN;
    SamePart(p, at, t, 0, 2);
    SamePart(p, at, t, 2, 4);
    SamePart(p, at, t, 4, 8);
    assert t[0..2] == U16(r.kind) && t[2..4] == U16(cls) && t[4..8] == W.U32(r.ttl);
    U16Value(p, at, r.kind);
    U16Value(p, at + 2, cls);
    U32Value(p, at + 4, r.ttl);
  }

  /** Records in place, up to the end of the packet, are read one after the other. */
  lemma {:induction false} PlacedAreRead(p: seq<byte>, at: nat, rs: seq<W.Record>, ends: seq<(nat, nat)>)
    requires AllPlaced(p, at, rs, ends, |p|) && |p| <= MAX_PACKET
    ensures var (records, ok) := SkimRecords(p, at);
            ok && |records| == |rs| && forall i :: 0 <= i < |rs| ==> IsRead(p, records[i], rs[i])
    decreases |rs|
  {
    hide SkimRecords, W.TypeBytes, U16At, U32At, NameReader.Walk, U16, DataPlaced, EqAllNoCase;
    if rs == [] {
      RecordsEnd(p, at);
    } else {
      var (nameEnd, end) := ends[0];
      RecordStep(p, at);
      FieldsOf(p, nameEnd, rs[0]);
      U16Value(p, nameEnd + 8, end - nameEnd - 10);
      PlacedAreRead(p, end, rs[1..], ends[1..]);
      var records := SkimRecords(p, at).0;
      assert records[1..] == SkimRecords(p, end).0;
    }
  }

  // ---------- Writing puts records in place ----------

  /** The names the final packet holds are read where they were written. */
  lemma NameIsFound(final: Doc, n: WrittenName)
    requires Inv(final) && n in final.names
    ensures ReadsAs(final.out.Written(), n)
  {
    hide NameReader.Walk;
  }

  lemma PrefixHas(a: seq<WrittenName>, n: WrittenName, b: seq<WrittenName>)
    requires a + [n] <= b
    ensures n in b && a <= b
  {
    assert b[|a|] == (a + [n])[|a|] == n;
    assert a == (a + [n])[..|a|];
  }

  /** What a writer leaves in the body of the packet stays there. */
  lemma BodyStays(o: Out, final: Out, from: nat, to': nat)
    requires W.GrewBody(o, final) && W.HEAD_LEN <= from <= to' <= o.index
    ensures to' <= |final.Written()| && final.Written()[from..to'] == o.bytes[from..to']
  {}

  /** The data stay, too. */
  lemma DataStay(o: Out, final: Doc, at: nat, data: W.Rdata)
    requires Inv(final) && final.out.Valid() && W.GrewBody(o, final.out) && W.HEAD_LEN <= at
    requires DataWritten(o.bytes, final.names, at, o.index, data)
    ensures DataPlaced(final.out.Written(), at, o.index, data)
  {
    hide Inv, ReadsAs, W.GrewBody, U16, TxtCodec.Data;
    BodyStays(o, final.out, at, o.index);
    match data
    case NameData(strings) => NameIsFound(final, WrittenName(at, o.index, strings));
    case ServiceData(_, _, _, strings) =>
      BodyStays(o, final.out, at, at + 6);
      NameIsFound(final, WrittenName(at + 6, o.index, strings));
    case _ =>
  }

  lemma MoreNames(b: seq<byte>, names: seq<WrittenName>, more: seq<WrittenName>, at: nat, end: nat, data: W.Rdata)
    requires end <= |b| && DataWritten(b, names, at, end, data) && names <= more
    ensures DataWritten(b, more, at, end, data)
  {
    forall n | n in names
      ensures n in more
    {
      var i :| 0 <= i < |names| && names[i] == n;
      assert more[i] == n;
    }
  }

  lemma RecordIsPlaced(o: Out, r: W.Record, final: Doc)
    requires o.Valid() && W.HEAD_LEN <= o.index && W.GoodRecord(r) && W.Sized(r) && W.AppendRecord(o, r).1 > 0
    requires Inv(final) && final.out.Valid() && W.GrewBody(W.AppendRecord(o, r).0, final.out)
    requires WrittenName(o.index, NameEnd(o, r), r.owner) in final.names
    requires DataWritten(W.AppendRecord(o, r).0.bytes, final.names, NameEnd(o, r) + 10, W.AppendRecord(o, r).0.index,
             r.data)
    ensures Placed(final.out.Written(), o.index, r, NameEnd(o, r), W.AppendRecord(o, r).0.index)
  {
    hide Inv, W.AppendRecord, W.AppendName, NameReader.Walk, W.TypeBytes, U16, W.GrewBody, W.GoodRecord, W.Sized;
    var o' := W.AppendRecord(o, r).0;
    var nameEnd := NameEnd(o, r);
    var p := final.out.Written();
    W.RecordIsFramed(o, r);
    W.RecordHead(o, r);
    NameIsFound(final, WrittenName(o.index, nameEnd, r.owner));
    NameReader.WalkProgress(p, o.index, o.index, 0);
    BodyStays(o', final.out, nameEnd, nameEnd + 8);
    BodyStays(o', final.out, nameEnd + 8, nameEnd + 10);
    BodyStays(o', final.out, o'.index, o'.index);
    DataStay(o', final, nameEnd + 10, r.data);
  }

  lemma GrewIsBody(o: Out, o': Out, final: Out)
    requires W.Grew(o, o') && W.HEAD_LEN <= o.index && W.GrewBody(o', final)
    ensures W.GrewBody(o, final)
  {}

  /** Every record of a section that was counted is in place in the final packet. */
  lemma {:induction false} SectionIsPlaced(d: Doc, rs: seq<W.Record>, final: Doc) returns (ends: seq<(nat, nat)>)
    requires d.out.Valid() && W.HEAD_LEN <= d.out.index
    requires (forall i :: 0 <= i < |rs| ==> W.GoodRecord(rs[i]) && W.Sized(rs[i])) && W.Records(d.out, rs).1 == |rs|
    requires AllowedRun(d, SectionWrites(d.out, rs))
    requires Inv(final) && final.out.Valid() && W.GrewBody(W.Records(d.out, rs).0, final.out)
    requires Run(d, SectionWrites(d.out, rs)).names <= final.names
    ensures Run(d, SectionWrites(d.out, rs)).out == W.Records(d.out, rs).0
    ensures AllPlaced(final.out.Written(), d.out.index, rs, ends, W.Records(d.out, rs).0.index)
    decreases |rs|
  {
    hide Inv, W.GrewBody, W.AppendRecord, RecordWrites, Allowed, Do, W.GoodRecord, W.Sized, Placed, W.Grew;
    var o := d.out;
    ends := [];
    if rs != [] {
      var r, rest := rs[0], rs[1..];
      var o1 := W.AppendRecord(o, r).0;
      W.RecordsGrow(o1, rest);
      var tail := SectionWrites(o1, rest);
      RunAppend(d, RecordWrites(o, r), tail);
      RecordRuns(d, r);
      var d1 := Run(d, RecordWrites(o, r));
      NamesGrow(d1, tail);
      W.RecordGrows(o, r);
      W.IndexGrows(o, o1);
      ends := SectionIsPlaced(d1, rest, final);
      var n := WrittenName(o.index, NameEnd(o, r), r.owner);
      PrefixTrans(d.names + [n], d1.names, Run(d1, tail).names, final.names);
      PrefixHas(d.names, n, final.names);
      GrewIsBody(o1, W.Records(o1, rest).0, final.out);
      MoreNames(o1.bytes, d1.names, final.names, NameEnd(o, r) + 10, o1.index, r.data);
      RecordIsPlaced(o, r, final);
      ends := [(NameEnd(o, r), o1.index)] + ends;
    }
  }

  lemma PrefixTrans(a: seq<WrittenName>, b: seq<WrittenName>, c: seq<WrittenName>, d: seq<WrittenName>)
    requires a <= b && b <= c && c <= d
    ensures a <= d
  {}

  // ---------- Questions ----------

  function ClassOf(x: W.OutQuestion): nat {
    if x.unicast then 0x8001 else 0x0001
  }

  function QuestionWrites(x: W.OutQuestion): seq<Write> {
    [NameOf(x.name)] + ([Raw(U16(x.kind))] + [Raw(U16(ClassOf(x)))])
  }

  function AllQuestionWrites(xs: seq<W.OutQuestion>): seq<Write> {
    if xs == [] then [] else QuestionWrites(xs[0]) + AllQuestionWrites(xs[1..])
  }

  predicate QuestionPlaced(p: seq<byte>, at: nat, x: W.OutQuestion, end: nat) {
    && at + 4 < end <= |p| && x.name != []
    && ReadsAs(p, WrittenName(at, end - 4, x.name))
    && p[end - 4..end - 2] == U16(x.kind) && p[end - 2..end] == U16(ClassOf(x))
  }

  predicate QuestionsPlaced(p: seq<byte>, at: nat, xs: seq<W.OutQuestion>, ends: seq<nat>, end: nat)
    decreases |xs|
  {
    && |ends| == |xs|
    && if xs == [] then at == end
       else QuestionPlaced(p, at, xs[0], ends[0]) && QuestionsPlaced(p, ends[0], xs[1..], ends[1..], end)
  }

  /** What the reader gets is the question: its name, its type and its class, whose top bit asks for an answer to the
   * asker alone (section 5.4 of RFC 6762), as they stand in the packet. */
  predicate IsAsked(p: seq<byte>, q: Asked, x: W.OutQuestion) {
    && NameThere(p, q.at, x.name)
    && var c := NameReader.Walk(p, q.at, q.at, 0).value.next;
    && c + 4 <= |p|
    && U16At(p, c) == x.kind % 0x1_0000 && U16At(p, c + 2) == (if x.unicast then 0x8001 else 0x0001)
    && q.kind == x.kind % 0x1_0000 && q.unicast == x.unicast && q.cls == 1
  }

  lemma {:induction false} QuestionsAreRead(p: seq<byte>, at: nat, xs: seq<W.OutQuestion>, ends: seq<nat>, end: nat)
    requires QuestionsPlaced(p, at, xs, ends, end)
    ensures var (qs, next) := SkimQuestions(p, at, |xs|);
            next == Some(end) && |qs| == |xs| && forall i :: 0 <= i < |xs| ==> IsAsked(p, qs[i], xs[i])
    decreases |xs|
  {
    hide SkimQuestions, U16At, NameReader.Walk, U16;
    if xs == [] {
      QuestionsEnd(p, at);
    } else {
      QuestionStep(p, at, |xs|);
      U16Value(p, ends[0] - 4, xs[0].kind);
      U16Value(p, ends[0] - 2, ClassOf(xs[0]));
      QuestionsAreRead(p, ends[0], xs[1..], ends[1..], end);
      var qs := SkimQuestions(p, at, |xs|).0;
      assert qs[1..] == SkimQuestions(p, ends[0], |xs| - 1).0;
    }
  }

  lemma QuestionRuns(d: Doc, x: W.OutQuestion)
    requires d.out.Valid() && GoodLabels(x.name) && AllowedRun(d, QuestionWrites(x)) && W.AppendQuestion(d.out, x).1 > 0
    ensures var e := Run(d, QuestionWrites(x)); var nameEnd := W.AppendName(d.out, x.name).0.index;
            && e.out == W.AppendQuestion(d.out, x).0
            && x.name != [] && e.out.index == nameEnd + 4
            && e.out.bytes[nameEnd..nameEnd + 2] == U16(x.kind)
            && e.out.bytes[nameEnd + 2..nameEnd + 4] == U16(ClassOf(x))
            && d.names + [WrittenName(d.out.index, nameEnd, x.name)] <= e.names
  {
    hide Fqdn, U16, LayoutOf, OwnStarts, Fits, GoodLabels, PointsRight, PointerBytes;
    var a, b, c := NameOf(x.name), Raw(U16(x.kind)), Raw(U16(ClassOf(x)));
    RunAppend(d, [a], [b] + [c]);
    RunOne(d, a);
    RunAppend(Do(d, a), [b], [c]);
    RunOne(Do(d, a), b);
    RunOne(Do(Do(d, a), b), c);
  }

  /** Every question is in place in the final packet. */
  lemma {:induction false} QuestionsArePlaced(d: Doc, xs: seq<W.OutQuestion>, final: Doc) returns (ends: seq<nat>)
    requires d.out.Valid() && W.HEAD_LEN <= d.out.index
    requires (forall i :: 0 <= i < |xs| ==> GoodLabels(xs[i].name)) && W.Questions(d.out, xs).1 == |xs|
    requires AllowedRun(d, AllQuestionWrites(xs))
    requires Inv(final) && final.out.Valid() && W.GrewBody(W.Questions(d.out, xs).0, final.out)
    requires Run(d, AllQuestionWrites(xs)).names <= final.names
    ensures QuestionsPlaced(final.out.Written(), d.out.index, xs, ends, W.Questions(d.out, xs).0.index)
    decreases |xs|
  {
    hide Inv, W.GrewBody, W.AppendQuestion, QuestionWrites, Allowed, Do, GoodLabels, QuestionPlaced, W.Grew;
    var o := d.out;
    ends := [];
    if xs != [] {
      var x, rest := xs[0], xs[1..];
      var o1 := W.AppendQuestion(o, x).0;
      var tail := AllQuestionWrites(rest);
      RunAppend(d, QuestionWrites(x), tail);
      W.QuestionsGrow(o1, rest);
      QuestionRuns(d, x);
      var d1 := Run(d, QuestionWrites(x));
      NamesGrow(d1, tail);
      W.QuestionGrows(o, x);
      W.IndexGrows(o, o1);
      ends := QuestionsArePlaced(d1, rest, final);
      var nameEnd := W.AppendName(o, x.name).0.index;
      var n := WrittenName(o.index, nameEnd, x.name);
      PrefixTrans(d.names + [n], d1.names, Run(d1, tail).names, final.names);
      PrefixHas(d.names, n, final.names);
      GrewIsBody(o1, W.Questions(o1, rest).0, final.out);
      QuestionIsPlaced(o, o1, x, nameEnd, final);
      ends := [o1.index] + ends;
    }
  }

  lemma QuestionIsPlaced(o: Out, o1: Out, x: W.OutQuestion, nameEnd: nat, final: Doc)
    requires o.Valid() && o1.Valid() && W.HEAD_LEN <= o.index && GoodLabels(x.name) && x.name != []
    requires o1.index == nameEnd + 4
    requires o1.bytes[nameEnd..nameEnd + 2] == U16(x.kind) && o1.bytes[nameEnd + 2..nameEnd + 4] == U16(ClassOf(x))
    requires Inv(final) && final.out.Valid() && W.GrewBody(o1, final.out)
    requires WrittenName(o.index, nameEnd, x.name) in final.names
    ensures QuestionPlaced(final.out.Written(), o.index, x, o1.index)
  {
    hide Inv, NameReader.Walk, U16, W.GrewBody, GoodLabels;
    var p := final.out.Written();
    NameIsFound(final, WrittenName(o.index, nameEnd, x.name));
    NameReader.WalkProgress(p, o.index, o.index, 0);
    BodyStays(o1, final.out, nameEnd, nameEnd + 2);
    BodyStays(o1, final.out, nameEnd + 2, nameEnd + 4);
  }

  lemma {:induction false} QuestionsRun(d: Doc, xs: seq<W.OutQuestion>)
    requires d.out.Valid() && (forall i :: 0 <= i < |xs| ==> GoodLabels(xs[i].name)) && W.Questions(d.out, xs).1 == |xs|
    requires AllowedRun(d, AllQuestionWrites(xs))
    ensures Run(d, AllQuestionWrites(xs)).out == W.Questions(d.out, xs).0
    decreases |xs|
  {
    hide W.AppendQuestion, QuestionWrites, Allowed, Do, GoodLabels, W.Grew;
    if xs != [] {
      var o1 := W.AppendQuestion(d.out, xs[0]).0;
      RunAppend(d, QuestionWrites(xs[0]), AllQuestionWrites(xs[1..]));
      W.QuestionsGrow(o1, xs[1..]);
      QuestionRuns(d, xs[0]);
      QuestionsRun(Run(d, QuestionWrites(xs[0])), xs[1..]);
    }
  }

  // ---------- The whole packet ----------

  function SectionSteps(o: Out, rs: seq<W.Record>, at: nat): seq<Write>
    requires o.Valid()
  {
    SectionWrites(o, rs) + [Patch(at, W.Records(o, rs).1 % 256)]
  }

  function HeaderDoc(stale: seq<byte>, m: W.Message): Doc
    requires |stale| == MAX_PACKET
  {
    var o0 := Out(seq(W.HEAD_LEN, _ => 0) + stale[W.HEAD_LEN..], W.HEAD_LEN);
    Doc(W.SetU16(W.SetU16(o0, 2, m.flags), 0, m.id), [], {}, {})
  }

  /** The steps of the dispatcher once the identifier and the flags are set. */
  function MessageSteps(stale: seq<byte>, m: W.Message): seq<Write>
    requires |stale| == MAX_PACKET
  {
    var o1 := HeaderDoc(stale, m).out;
    var (o2, count) := W.Questions(o1, m.questions);
    var o3 := W.SetU16(o2, 4, count % 256);
    var o4 := W.Section(o3, m.answers, 6);
    var o5 := W.Section(o4, m.servers, 8);
    (AllQuestionWrites(m.questions) + [Patch(4, count % 256)])
    + (SectionSteps(o3, m.answers, 6) + (SectionSteps(o4, m.servers, 8) + SectionSteps(o5, m.additional, 10)))
  }

  lemma {:induction false} SectionRuns(d: Doc, rs: seq<W.Record>)
    requires d.out.Valid() && (forall i :: 0 <= i < |rs| ==> W.GoodRecord(rs[i]) && W.Sized(rs[i]))
    requires W.Records(d.out, rs).1 == |rs| && AllowedRun(d, SectionWrites(d.out, rs))
    ensures Run(d, SectionWrites(d.out, rs)).out == W.Records(d.out, rs).0
    decreases |rs|
  {
    hide W.AppendRecord, RecordWrites, Allowed, Do, W.GoodRecord, W.Sized, W.Grew;
    if rs != [] {
      var o1 := W.AppendRecord(d.out, rs[0]).0;
      RunAppend(d, RecordWrites(d.out, rs[0]), SectionWrites(o1, rs[1..]));
      W.RecordsGrow(o1, rs[1..]);
      RecordRuns(d, rs[0]);
      SectionRuns(Run(d, RecordWrites(d.out, rs[0])), rs[1..]);
    }
  }

  predicate AllCounted(o: Out, rs: seq<W.Record>)
    requires o.Valid()
  {
    (forall i :: 0 <= i < |rs| ==> W.GoodRecord(rs[i]) && W.Sized(rs[i])) && W.Records(o, rs).1 == |rs|
  }

  /** A section and its count. */
  lemma SectionStepsRun(d: Doc, rs: seq<W.Record>, at: nat)
    requires d.out.Valid() && AllCounted(d.out, rs) && AllowedRun(d, SectionSteps(d.out, rs, at))
    requires W.HEAD_LEN <= d.out.index && at + 1 < W.HEAD_LEN
    ensures AllowedRun(d, SectionWrites(d.out, rs))
    ensures var e := Run(d, SectionSteps(d.out, rs, at));
            && e.out == W.Section(d.out, rs, at) && e.names == Run(d, SectionWrites(d.out, rs)).names
            && W.GrewBody(d.out, e.out) && W.GrewBody(W.Records(d.out, rs).0, e.out)
  {
    hide SectionWrites, W.Records, W.GoodRecord, W.Sized;
    var last := Patch(at, W.Records(d.out, rs).1 % 256);
    RunAppend(d, SectionWrites(d.out, rs), [last]);
    SectionRuns(d, rs);
    RunOne(Run(d, SectionWrites(d.out, rs)), last);
    W.SectionGrows(d.out, rs, at);
    W.RecordsGrow(d.out, rs);
  }

  /** The records of a section, once the whole packet is written. */
  lemma SectionInPlace(d: Doc, rs: seq<W.Record>, at: nat, final: Doc) returns (ends: seq<(nat, nat)>)
    requires d.out.Valid() && AllCounted(d.out, rs) && AllowedRun(d, SectionSteps(d.out, rs, at))
    requires W.HEAD_LEN <= d.out.index && at + 1 < W.HEAD_LEN
    requires Inv(final) && final.out.Valid()
    requires var e := Run(d, SectionSteps(d.out, rs, at)); W.GrewBody(e.out, final.out) && e.names <= final.names
    ensures AllPlaced(final.out.Written(), d.out.index, rs, ends, W.Section(d.out, rs, at).index)
  {
    hide Inv, SectionWrites, W.Records, W.GrewBody, AllPlaced, W.GoodRecord, W.Sized;
    SectionStepsRun(d, rs, at);
    var e := Run(d, SectionSteps(d.out, rs, at));
    W.GrewBodyTwice(W.Records(d.out, rs).0, e.out, final.out);
    ends := SectionIsPlaced(d, rs, final);
    SectionIndex(d.out, rs, at);
  }

  lemma SectionIndex(o: Out, rs: seq<W.Record>, at: nat)
    requires o.Valid()
    ensures W.Section(o, rs, at).index == W.Records(o, rs).0.index
  {
    hide W.Records;
  }

  /** All the questions and records of a message were counted, as it was dispatched. */
  predicate Counted(stale: seq<byte>, m: W.Message)
    requires |stale| == MAX_PACKET
  {
    var o1 := HeaderDoc(stale, m).out;
    var o3 := W.SetU16(W.Questions(o1, m.questions).0, 4, W.Questions(o1, m.questions).1 % 256);
    var o4 := W.Section(o3, m.answers, 6);
    var o5 := W.Section(o4, m.servers, 8);
    && (forall i :: 0 <= i < |m.questions| ==> GoodLabels(m.questions[i].name))
    && W.Questions(o1, m.questions).1 == |m.questions|
    && AllCounted(o3, m.answers) && AllCounted(o4, m.servers) && AllCounted(o5, m.additional)
  }

  /** A question takes six bytes or more. */
  lemma {:induction false} QuestionsTakeRoom(p: seq<byte>, at: nat, xs: seq<W.OutQuestion>, ends: seq<nat>, end: nat)
    requires QuestionsPlaced(p, at, xs, ends, end)
    ensures at + 6 * |xs| <= end
    decreases |xs|
  {
    if xs != [] {
      NameTakesRoom(p, at, xs[0].name);
      QuestionsTakeRoom(p, ends[0], xs[1..], ends[1..], end);
    }
  }

  lemma NameTakesRoom(p: seq<byte>, at: nat, strings: seq<CString>)
    requires NameThere(p, at, strings) && strings != []
    ensures NameReader.Walk(p, at, at, 0).value.next >= at + 2
  {
    if at < |p| && 0 < p[at] < 0xC0 && at + 1 + p[at] <= |p| && NameReader.Walk(p, at, at + 1 + p[at], 0).Some? {
      NameReader.WalkProgress(p, at, at + 1 + p[at], 0);
    }
  }

  lemma SectionKeepsHead(o: Out, rs: seq<W.Record>, at: nat)
    requires o.Valid() && W.HEAD_LEN <= o.index && at + 1 < W.HEAD_LEN && AllCounted(o, rs)
    ensures var o' := W.Section(o, rs, at);
            && W.HEAD_LEN <= o'.index && U16At(o'.bytes, at) == |rs| % 256
            && forall k: nat :: k + 1 < W.HEAD_LEN && (k + 1 < at || at + 1 < k)
                 ==> U16At(o'.bytes, k) == U16At(o.bytes, k)
  {
    hide W.Section, W.Records, W.GoodRecord, W.Sized;
    W.SectionGrows(o, rs, at);
    W.RecordsGrow(o, rs);
    W.BodyIndex(o, W.Section(o, rs, at));
    U16Value(W.Section(o, rs, at).bytes, at, |rs| % 256);
  }

  lemma SetThenRead(o: Out, at: nat, v: nat)
    requires o.Valid() && at + 1 < W.HEAD_LEN
    ensures var o' := W.SetU16(o, at, v);
            && o'.index == o.index && U16At(o'.bytes, at) == v % 0x1_0000
            && forall k: nat :: k + 1 < W.HEAD_LEN && (k + 1 < at || at + 1 < k)
                 ==> U16At(o'.bytes, k) == U16At(o.bytes, k)
  {
    U16Value(W.SetU16(o, at, v).bytes, at, v);
  }

  lemma QuestionsKeepHead(o: Out, xs: seq<W.OutQuestion>)
    requires o.Valid() && W.HEAD_LEN <= o.index && forall i :: 0 <= i < |xs| ==> GoodLabels(xs[i].name)
    ensures var o' := W.Questions(o, xs).0;
            && W.HEAD_LEN <= o'.index && forall k: nat :: k + 1 < W.HEAD_LEN ==> U16At(o'.bytes, k) == U16At(o.bytes, k)
  {
    hide W.Questions, GoodLabels;
    W.QuestionsGrow(o, xs);
  }

  /** The header of a packet: identifier, flags, and the numbers of questions and records, modulo 256. */
  lemma HeaderTells(stale: seq<byte>, m: W.Message)
    requires |stale| == MAX_PACKET && Counted(stale, m)
    ensures var o := W.Dispatch(stale, m);
            && W.HEAD_LEN <= o.index
            && U16At(o.bytes, 0) == m.id % 0x1_0000 && U16At(o.bytes, 2) == m.flags % 0x1_0000
            && U16At(o.bytes, 4) == |m.questions| % 256 && U16At(o.bytes, 6) == |m.answers| % 256
            && U16At(o.bytes, 8) == |m.servers| % 256 && U16At(o.bytes, 10) == |m.additional| % 256
  {
    hide W.Section, W.Questions, W.SetU16, AllCounted, GoodLabels, U16At;
    var o0 := Out(seq(W.HEAD_LEN, _ => 0) + stale[W.HEAD_LEN..], W.HEAD_LEN);
    var o1 := HeaderDoc(stale, m).out;
    SetThenRead(o0, 2, m.flags);
    SetThenRead(W.SetU16(o0, 2, m.flags), 0, m.id);
    QuestionsKeepHead(o1, m.questions);
    var (o2, count) := W.Questions(o1, m.questions);
    SetThenRead(o2, 4, count % 256);
    var o3 := W.SetU16(o2, 4, count % 256);
    SectionKeepsHead(o3, m.answers, 6);
    var o4 := W.Section(o3, m.answers, 6);
    SectionKeepsHead(o4, m.servers, 8);
    var o5 := W.Section(o4, m.servers, 8);
    SectionKeepsHead(o5, m.additional, 10);
  }

  /** A section's chain of records, in a packet that grew from it. */
  lemma ChainStays(o: Out, rs: seq<W.Record>, final: Out) returns (ends: seq<(nat, nat)>)
    requires o.Valid() && AllCounted(o, rs) && W.HEAD_LEN <= o.index && W.GrewBody(W.Records(o, rs).0, final)
    ensures |ends| == |rs| && W.Chain(final.bytes, o.index, ends, W.Records(o, rs).0.index)
  {
    hide W.Records, W.GoodRecord, W.Sized, W.Chain;
    W.RecordsGrow(o, rs);
    ends := W.SectionIsFramed(o, rs);
    W.ChainKeeps(W.Records(o, rs).0.bytes, final.bytes, o.index, ends, W.Records(o, rs).0.index);
  }

  /** When every record of a message was counted, the lengths lead from the end of the questions through all records
   * of all sections, in order, to the end of the packet, whatever its names read as. */
  lemma EveryRecordIsFramed(stale: seq<byte>, m: W.Message) returns (ends: seq<(nat, nat)>)
    requires |stale| == MAX_PACKET && Counted(stale, m)
    ensures var o := W.Dispatch(stale, m);
            && |ends| == |m.answers| + |m.servers| + |m.additional|
            && W.Chain(o.bytes, W.Questions(HeaderDoc(stale, m).out, m.questions).0.index, ends, o.index)
  {
    hide W.Section, W.Questions, W.SetU16, AllCounted, GoodLabels, W.GrewBody, W.Chain, W.Records;
    var o1 := HeaderDoc(stale, m).out;
    var (o2, count) := W.Questions(o1, m.questions);
    var o3 := W.SetU16(o2, 4, count % 256);
    W.QuestionsGrow(o1, m.questions);
    HeaderIsSound(stale, m);
    PatchGrows(o1, o2, 4, count % 256);
    var o4 := W.Section(o3, m.answers, 6);
    SectionBody(o3, m.answers, 6);
    var o5 := W.Section(o4, m.servers, 8);
    SectionBody(o4, m.servers, 8);
    var o6 := W.Section(o5, m.additional, 10);
    SectionBody(o5, m.additional, 10);
    W.GrewBodyTwice(o4, o5, o6);
    W.GrewBodyTwice(W.Records(o3, m.answers).0, o4, o6);
    W.GrewBodyTwice(W.Records(o4, m.servers).0, o5, o6);
    var ea := ChainStays(o3, m.answers, o6);
    var eb := ChainStays(o4, m.servers, o6);
    var ec := ChainStays(o5, m.additional, o6);
    W.ChainAppend(o6.bytes, o3.index, ea, o4.index, eb, o5.index);
    W.ChainAppend(o6.bytes, o3.index, ea + eb, o5.index, ec, o6.index);
    DispatchIs(stale, m, o6);
    ends := ea + eb + ec;
  }

  lemma SectionBody(o: Out, rs: seq<W.Record>, at: nat)
    requires o.Valid() && W.HEAD_LEN <= o.index && at + 1 < W.HEAD_LEN && AllCounted(o, rs)
    ensures var o' := W.Section(o, rs, at);
            && W.GrewBody(W.Records(o, rs).0, o') && W.GrewBody(o, o')
            && o'.index == W.Records(o, rs).0.index && W.HEAD_LEN <= o'.index
  {
    hide W.Records, W.GoodRecord, W.Sized;
    W.SectionGrows(o, rs, at);
    W.RecordsGrow(o, rs);
  }

  lemma HeaderIsSound(stale: seq<byte>, m: W.Message)
    requires |stale| == MAX_PACKET
    ensures Inv(HeaderDoc(stale, m)) && HeaderDoc(stale, m).out.index == W.HEAD_LEN
  {}

  /** Every question and every record of the message is in place in the packet. */
  lemma PacketIsPlaced(stale: seq<byte>, m: W.Message) returns (ends: seq<nat>, mid: nat, all: seq<(nat, nat)>)
    requires |stale| == MAX_PACKET && Counted(stale, m)
    requires AllowedRun(HeaderDoc(stale, m), MessageSteps(stale, m))
    ensures var p := W.Dispatch(stale, m).Written();
            && W.HEAD_LEN <= |p| <= MAX_PACKET
            && QuestionsPlaced(p, W.HEAD_LEN, m.questions, ends, mid)
            && AllPlaced(p, mid, m.answers + m.servers + m.additional, all, |p|)
  {
    hide Inv, SectionSteps, W.Section, W.Questions, W.GrewBody, AllCounted, AllPlaced, QuestionsPlaced, SkimRecords,
         SkimQuestions, W.SetU16, Allowed, Do, GoodLabels, IsAsked, IsRead, W.Dispatch;
    var d1 := HeaderDoc(stale, m);
    HeaderIsSound(stale, m);
    var o1 := d1.out;
    var (o2, count) := W.Questions(o1, m.questions);
    var o3 := W.SetU16(o2, 4, count % 256);
    var o4 := W.Section(o3, m.answers, 6);
    var o5 := W.Section(o4, m.servers, 8);
    var qw, qp := AllQuestionWrites(m.questions), Patch(4, count % 256);
    var sa, sb, sc := SectionSteps(o3, m.answers, 6), SectionSteps(o4, m.servers, 8),
      SectionSteps(o5, m.additional, 10);
    RunAppend(d1, qw + [qp], sa + (sb + sc));
    RunAppend(d1, qw, [qp]);
    QuestionsRun(d1, m.questions);
    var d2 := Run(d1, qw);
    RunOne(d2, qp);
    var d3 := Do(d2, qp);
    PatchIs(d2, 4, count % 256);
    W.QuestionsGrow(o1, m.questions);
    PatchGrows(o1, o2, 4, count % 256);
    RunAppend(d3, sa, sb + sc);
    SectionStepsRun(d3, m.answers, 6);
    var d4 := Run(d3, sa);
    W.BodyIndex(o3, o4);
    RunAppend(d4, sb, sc);
    SectionStepsRun(d4, m.servers, 8);
    var d5 := Run(d4, sb);
    W.BodyIndex(o4, o5);
    SectionStepsRun(d5, m.additional, 10);
    var d6 := Run(d5, sc);
    NamesGrow(d3, sa);
    NamesGrow(d4, sb);
    NamesGrow(d5, sc);
    RunKeepsInv(d1, MessageSteps(stale, m));
    W.GrewBodyTwice(o4, o5, d6.out);
    W.GrewBodyTwice(o3, o4, d6.out);
    W.GrewBodyTwice(o2, o3, d6.out);
    W.BodyIndex(o5, d6.out);
    var p := d6.out.Written();
    DispatchIs(stale, m, d6.out);
    ends := QuestionsArePlaced(d1, m.questions, d6);
    mid := o2.index;
    SameBody(d6.out);
    var ea := SectionInPlace(d3, m.answers, 6, d6);
    var eb := SectionInPlace(d4, m.servers, 8, d6);
    var ec := SectionInPlace(d5, m.additional, 10, d6);
    AllPlacedAppend(p, o3.index, m.answers, ea, o4.index, m.servers, eb, o5.index);
    AllPlacedAppend(p, o3.index, m.answers + m.servers, ea + eb, o5.index, m.additional, ec, d6.out.index);
    all := ea + eb + ec;
  }

  /** The parser's loops read the message from the packet, question by question and record by record, in order and to
   * the end: each with its name up to ASCII case, its fields and its data.  The header holds the true counts. */
  predicate ReadBack(p: seq<byte>, m: W.Message) {
    && W.HEAD_LEN <= |p| && U16At(p, 0) == m.id % 0x1_0000 && U16At(p, 2) == m.flags % 0x1_0000
    && U16At(p, 4) == |m.questions| && U16At(p, 6) == |m.answers|
    && U16At(p, 8) == |m.servers| && U16At(p, 10) == |m.additional|
    && var (qs, next) := SkimQuestions(p, W.HEAD_LEN, U16At(p, 4));
    && |qs| == |m.questions| && (forall i :: 0 <= i < |qs| ==> IsAsked(p, qs[i], m.questions[i]))
    && next.Some?
    && var (records, ok) := SkimRecords(p, next.value); var sent := m.answers + m.servers + m.additional;
    && ok && |records| == |sent| && forall i :: 0 <= i < |sent| ==> IsRead(p, records[i], sent[i])
  }

  /** A packet written by correct steps, all of whose questions and records were counted, is read back.  No packet has
   * room for as many as 256 of anything, so the counts are true. */
  lemma AllowedPacketReadsBack(stale: seq<byte>, m: W.Message)
    requires |stale| == MAX_PACKET && Counted(stale, m)
    requires AllowedRun(HeaderDoc(stale, m), MessageSteps(stale, m))
    ensures ReadBack(W.Dispatch(stale, m).Written(), m)
  {
    hide AllPlaced, QuestionsPlaced, SkimRecords, SkimQuestions, U16At, IsAsked, IsRead, W.Dispatch, Counted,
         AllowedRun,
         MessageSteps, HeaderDoc, Out.Written;
    var o := W.Dispatch(stale, m);
    var p := o.Written();
    var ends, mid, all := PacketIsPlaced(stale, m);
    var sent := m.answers + m.servers + m.additional;
    FewerThan256(p, m.questions, ends, mid, sent, all);
    HeaderTells(stale, m);
    SameHead(o);
    QuestionsAreRead(p, W.HEAD_LEN, m.questions, ends, mid);
    PlacedAreRead(p, mid, sent, all);
  }

  lemma FewerThan256(p: seq<byte>, xs: seq<W.OutQuestion>, ends: seq<nat>, mid: nat, rs: seq<W.Record>,
                     all: seq<(nat, nat)>)
    requires W.HEAD_LEN <= |p| <= MAX_PACKET
    requires QuestionsPlaced(p, W.HEAD_LEN, xs, ends, mid) && AllPlaced(p, mid, rs, all, |p|)
    ensures |xs| < 256 && |rs| < 256
  {
    hide AllPlaced, QuestionsPlaced;
    QuestionsTakeRoom(p, W.HEAD_LEN, xs, ends, mid);
    RecordsTakeRoom(p, mid, rs, all, |p|);
  }

  lemma {:induction false} RecordsTakeRoom(p: seq<byte>, at: nat, rs: seq<W.Record>, ends: seq<(nat, nat)>, end: nat)
    requires AllPlaced(p, at, rs, ends, end)
    ensures at + 11 * |rs| <= end
    decreases |rs|
  {
    if rs != [] {
      RecordsTakeRoom(p, ends[0].1, rs[1..], ends[1..], end);
    }
  }

  lemma DispatchIs(stale: seq<byte>, m: W.Message, o: Out)
    requires |stale| == MAX_PACKET
    requires var o1 := HeaderDoc(stale, m).out;
             var o3 := W.SetU16(W.Questions(o1, m.questions).0, 4, W.Questions(o1, m.questions).1 % 256);
             o == W.Section(W.Section(W.Section(o3, m.answers, 6), m.servers, 8), m.additional, 10)
    ensures W.Dispatch(stale, m) == o
  {
    hide W.Section, W.Questions, W.SetU16;
  }

  lemma SameHead(o: Out)
    requires o.Valid() && W.HEAD_LEN <= o.index
    ensures |o.Written()| >= W.HEAD_LEN
    ensures forall k: nat :: k + 1 < W.HEAD_LEN ==> U16At(o.Written(), k) == U16At(o.bytes, k)
  {}

  lemma SameBody(o: Out)
    requires o.Valid() && W.HEAD_LEN <= o.index
    ensures W.GrewBody(o, o)
  {}

  lemma PatchIs(d: Doc, at: nat, v: nat)
    requires d.out.Valid() && Allowed(d, Patch(at, v))
    ensures Do(d, Patch(at, v)).out == W.SetU16(d.out, at, v) && Do(d, Patch(at, v)).names == d.names
  {}

  lemma PatchGrows(o1: Out, o2: Out, at: nat, v: nat)
    requires W.Grew(o1, o2) && W.HEAD_LEN <= o1.index && at + 1 < W.HEAD_LEN
    ensures W.GrewBody(o2, W.SetU16(o2, at, v)) && W.SetU16(o2, at, v).index == o2.index >= W.HEAD_LEN
  {}
}
