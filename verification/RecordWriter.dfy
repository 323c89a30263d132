/** Resource records in an outgoing packet (mdns_send.c:39-152, 742-1191, 1340-1389): what each writer does to the
 * buffer, that it stays inside it, and that every record it counts is framed by its data length. */
module RecordWriter {
  import opened Bytes
  import opened NameWriter
  import opened NameRoundTrip
  import opened TxtCodec

  const HEAD_LEN := 12
  const CLASS_IN := 0x0001
  const CLASS_IN_FLUSH := 0x8001

  /** The data of a record. */
  datatype Rdata =
    | NameData(strings: seq<CString>)
    | ServiceData(priority: nat, weight: nat, port: nat, strings: seq<CString>)
    | TextData(items: seq<Item>)
    | V4Data(address: seq<byte>)
    | V6Data(address: seq<byte>)

  /** `checked`: whether the writer stops when the owner name did not fit (append_sdptr_record does not). */
  datatype Record = Record(owner: seq<CString>, kind: nat, flush: bool, ttl: nat, data: Rdata, checked: bool)

  datatype OutQuestion = OutQuestion(name: seq<CString>, kind: nat, unicast: bool)

  // ---------- What the writers do ----------

  function U32(v: nat): (d: seq<byte>)
    ensures |d| == 4
  {
    [(v / 0x100_0000) % 256, (v / 0x1_0000) % 256, (v / 256) % 256, v % 256]
  }

  function AppendU16(o: Out, v: nat): (r: (Out, nat))
    requires o.Valid()
    ensures r.0.Valid()
  {
    if o.index + 1 >= MAX_PACKET then (o, 0) else (o.Put(U16(v)), 2)
  }

  function TypeBytes(kind: nat, flush: bool, ttl: nat): (d: seq<byte>)
    ensures |d| == 10
  {
    U16(kind) + U16(if flush then CLASS_IN_FLUSH else CLASS_IN) + U32(ttl) + U16(0)
  }

  /** append_type. */
  function AppendType(o: Out, kind: nat, flush: bool, ttl: nat): (r: (Out, nat))
    requires o.Valid()
    ensures r.0.Valid()
  {
    if o.index + 10 >= MAX_PACKET then (o, 0) else (o.Put(TypeBytes(kind, flush, ttl)), 10)
  }

  /** set_u16. */
  function SetU16(o: Out, at: nat, v: nat): (r: Out)
    requires o.Valid()
    ensures r.Valid()
  {
    if at + 1 >= MAX_PACKET then o else o.(bytes := o.bytes[at := (v / 256) % 256][at + 1 := v % 256])
  }

  /** append_fqdn, its length kept in a byte. */
  function AppendName(o: Out, strings: seq<CString>): (r: (Out, nat))
    requires o.Valid()
    ensures r.0.Valid()
  {
    (Fqdn(o, strings).0, Fqdn(o, strings).1 % 256)
  }

  /** TXT items until one does not fit; whether all did. */
  function AppendItems(o: Out, items: seq<Item>): (r: (Out, bool))
    requires o.Valid()
    ensures r.0.Valid() && o.index <= r.0.index
    decreases |items|
  {
    if items == [] then (o, true)
    else if o.index + |Entry(items[0])| >= MAX_PACKET then (o, false)
    else AppendItems(o.Put(Entry(items[0])), items[1..])
  }

  /** The data part of each record writer: the length counted, or 0. */
  function AppendRdata(o: Out, data: Rdata): (r: (Out, nat))
    requires o.Valid()
    ensures r.0.Valid()
  {
    match data
    case NameData(strings) => AppendName(o, strings)
    case ServiceData(priority, weight, port, strings) =>
      var (o1, n1) := AppendU16(o, priority);
      var (o2, n2) := AppendU16(o1, weight);
      var (o3, n3) := AppendU16(o2, port);
      if n1 + n2 + n3 != 6 || strings == [] || strings[0] == [] then (o3, 0)
      else
        var (o4, n4) := AppendName(o3, strings);
        (o4, if n4 == 0 then 0 else n4 + 6)
    case TextData(items) =>
      var (o1, all) := AppendItems(o, items);
      if !all then (o1, 0)
      else if o1.index == o.index then (if o.index >= MAX_PACKET then (o, 1) else (o.Put([0]), 1))
      else (o1, o1.index - o.index)
    case V4Data(address) => if o.index + 3 >= MAX_PACKET || |address| != 4 then (o, 0) else (o.Put(address), 4)
    case V6Data(address) => if o.index + 16 > MAX_PACKET || |address| != 16 then (o, 0) else (o.Put(address), 16)
  }

  /** One record writer: the length counted, or 0 when part of it did not fit. */
  function AppendRecord(o: Out, r: Record): (res: (Out, nat))
    requires o.Valid()
    ensures res.0.Valid()
  {
    var (o1, n1) := AppendName(o, r.owner);
    if n1 == 0 && r.checked then (o1, 0)
    else
      var (o2, n2) := AppendType(o1, r.kind, r.flush, r.ttl);
      if n2 == 0 then (o2, 0)
      else
        var (o3, n3) := AppendRdata(o2, r.data);
        if n3 == 0 then (o3, 0) else (SetU16(o3, o2.index - 2, n3), n1 + n2 + n3)
  }

  /** append_question. */
  function AppendQuestion(o: Out, x: OutQuestion): (r: (Out, nat))
    requires o.Valid()
    ensures r.0.Valid()
  {
    var (o1, n1) := AppendName(o, x.name);
    if n1 == 0 then (o1, 0)
    else
      var (o2, n2) := AppendU16(o1, x.kind);
      var (o3, n3) := AppendU16(o2, if x.unicast then 0x8001 else 0x0001);
      (o3, n1 + n2 + n3)
  }

  /** The questions of a packet, and how many were counted. */
  function Questions(o: Out, xs: seq<OutQuestion>): (r: (Out, nat))
    requires o.Valid()
    ensures r.0.Valid()
    decreases |xs|
  {
    if xs == [] then (o, 0)
    else
      var (o1, n) := AppendQuestion(o, xs[0]);
      var (o2, count) := Questions(o1, xs[1..]);
      (o2, count + if n > 0 then 1 else 0)
  }

  /** A section of records, and how many were counted. */
  function Records(o: Out, rs: seq<Record>): (r: (Out, nat))
    requires o.Valid()
    ensures r.0.Valid()
    decreases |rs|
  {
    if rs == [] then (o, 0)
    else
      var (o1, n) := AppendRecord(o, rs[0]);
      var (o2, count) := Records(o1, rs[1..]);
      (o2, count + if n > 0 then 1 else 0)
  }

  // ---------- Staying inside the packet ----------

  /** The index grows, and only the bytes in between were written. */
  predicate Grew(o: Out, o': Out) {
    && o.Valid() && o'.Valid() && o.index <= o'.index
    && forall k :: 0 <= k < MAX_PACKET && (k < o.index || o'.index <= k) ==> o'.bytes[k] == o.bytes[k]
  }

  lemma GrewTwice(a: Out, b: Out, c: Out)
    requires Grew(a, b) && Grew(b, c)
    ensures Grew(a, c)
  {}

  lemma PutGrows(o: Out, data: seq<byte>)
    requires o.Valid() && o.index + |data| <= MAX_PACKET
    ensures Grew(o, o.Put(data))
  {}

  predicate GoodData(data: Rdata) {
    match data
    case NameData(strings) => GoodLabels(strings)
    case ServiceData(_, _, _, strings) => GoodLabels(strings)
    case _ => true
  }

  predicate GoodRecord(r: Record) {
    GoodLabels(r.owner) && GoodData(r.data)
  }

  lemma NameGrows(o: Out, strings: seq<CString>)
    requires o.Valid() && GoodLabels(strings)
    ensures Grew(o, AppendName(o, strings).0)
    ensures AppendName(o, strings).0.index == o.index + Fqdn(o, strings).1
  {
    hide Fqdn;
    FqdnGrowth(o, strings);
    var o' := Fqdn(o, strings).0;
    assert o.Written() <= o'.Written();
    assert forall k :: 0 <= k < o.index ==> o'.bytes[k] == o'.Written()[k] == o.Written()[k] == o.bytes[k];
  }

  lemma U16Grows(o: Out, v: nat)
    requires o.Valid()
    ensures var (o', n) := AppendU16(o, v); Grew(o, o') && o'.index == o.index + n
  {
    hide Out.Put;
  }

  lemma {:induction false} ItemsGrow(o: Out, items: seq<Item>)
    requires o.Valid()
    ensures Grew(o, AppendItems(o, items).0)
    decreases |items|
  {
    hide Entry, Out.Put;
    if items != [] && o.index + |Entry(items[0])| < MAX_PACKET {
      var next := o.Put(Entry(items[0]));
      PutGrows(o, Entry(items[0]));
      ItemsGrow(next, items[1..]);
      GrewTwice(o, next, AppendItems(o, items).0);
    }
  }

  lemma ServiceGrows(o: Out, priority: nat, weight: nat, port: nat, strings: seq<CString>)
    requires o.Valid() && GoodLabels(strings)
    ensures var (o', n) := AppendRdata(o, ServiceData(priority, weight, port, strings));
            && Grew(o, o')
            && (n > 0 ==> exists o3: Out :: o3.Valid() && o3.index == o.index + 6 && o' == Fqdn(o3, strings).0
                                            && n == Fqdn(o3, strings).1 % 256 + 6
                                            && o'.index == o3.index + Fqdn(o3, strings).1)
  {
    hide Fqdn, Grew, Out.Put, GoodLabels;
    var (o1, n1) := AppendU16(o, priority);
    var (o2, n2) := AppendU16(o1, weight);
    var (o3, n3) := AppendU16(o2, port);
    U16Grows(o, priority);
    U16Grows(o1, weight);
    U16Grows(o2, port);
    GrewTwice(o, o1, o2);
    GrewTwice(o, o2, o3);
    NameGrows(o3, strings);
    GrewTwice(o, o3, AppendName(o3, strings).0);
  }

  lemma RdataGrows(o: Out, data: Rdata)
    requires o.Valid() && GoodData(data)
    ensures Grew(o, AppendRdata(o, data).0)
  {
    hide Fqdn, Out.Put, AppendItems, AppendName, GoodLabels;
    match data
    case NameData(strings) => NameGrows(o, strings);
    case ServiceData(priority, weight, port, strings) => ServiceGrows(o, priority, weight, port, strings);
    case TextData(items) => ItemsGrow(o, items); if o.index < MAX_PACKET { PutGrows(o, [0]); }
    case V4Data(address) => if o.index + |address| <= MAX_PACKET { PutGrows(o, address); }
    case V6Data(address) => if o.index + |address| <= MAX_PACKET { PutGrows(o, address); }
  }

  /** Setting a field among the bytes just written. */
  lemma SetInside(o: Out, o': Out, at: nat, v: nat)
    requires Grew(o, o') && o.index <= at && at + 1 < o'.index
    ensures Grew(o, SetU16(o', at, v)) && SetU16(o', at, v).index == o'.index
    ensures SetU16(o', at, v).bytes[at..at + 2] == U16(v)
  {}

  lemma TypeGrows(o: Out, kind: nat, flush: bool, ttl: nat)
    requires o.Valid()
    ensures var (o', n) := AppendType(o, kind, flush, ttl);
            Grew(o, o') && o'.index == o.index + n && (n == 0 || n == 10)
  {
    hide TypeBytes, Out.Put;
    if o.index + 10 < MAX_PACKET {
      PutGrows(o, TypeBytes(kind, flush, ttl));
    }
  }

  /** A record writer stays inside the packet, and writes nothing before the old index or past the new one, even
   * when it runs out of room part way. */
  lemma RecordGrows(o: Out, r: Record)
    requires o.Valid() && GoodRecord(r)
    ensures Grew(o, AppendRecord(o, r).0)
  {
    hide Grew, AppendName, AppendType, AppendRdata, SetU16, GoodLabels;
    var (o1, n1) := AppendName(o, r.owner);
    NameGrows(o, r.owner);
    var (o2, n2) := AppendType(o1, r.kind, r.flush, r.ttl);
    TypeGrows(o1, r.kind, r.flush, r.ttl);
    GrewTwice(o, o1, o2);
    var (o3, n3) := AppendRdata(o2, r.data);
    RdataGrows(o2, r.data);
    GrewTwice(o, o2, o3);
    if n2 != 0 {
      IndexGrows(o, o1);
      IndexGrows(o2, o3);
      SetInside(o, o3, o2.index - 2, n3);
    }
  }

  lemma IndexGrows(o: Out, o': Out)
    requires Grew(o, o')
    ensures o.index <= o'.index <= MAX_PACKET
  {}

  lemma QuestionGrows(o: Out, x: OutQuestion)
    requires o.Valid() && GoodLabels(x.name)
    ensures Grew(o, AppendQuestion(o, x).0)
  {
    hide Grew, AppendName, AppendU16, GoodLabels;
    var o1 := AppendName(o, x.name).0;
    NameGrows(o, x.name);
    U16Grows(o1, x.kind);
    var o2 := AppendU16(o1, x.kind).0;
    GrewTwice(o, o1, o2);
    U16Grows(o2, if x.unicast then 0x8001 else 0x0001);
    GrewTwice(o, o2, AppendU16(o2, if x.unicast then 0x8001 else 0x0001).0);
  }

  lemma {:induction false} QuestionsGrow(o: Out, xs: seq<OutQuestion>)
    requires o.Valid() && forall i :: 0 <= i < |xs| ==> GoodLabels(xs[i].name)
    ensures Grew(o, Questions(o, xs).0) && Questions(o, xs).1 <= |xs|
    decreases |xs|
  {
    hide Grew, AppendQuestion, GoodLabels;
    if xs == [] {
      Same(o);
    } else {
      var o1 := AppendQuestion(o, xs[0]).0;
      QuestionGrows(o, xs[0]);
      QuestionsGrow(o1, xs[1..]);
      GrewTwice(o, o1, Questions(o, xs).0);
    }
  }

  lemma Same(o: Out)
    requires o.Valid()
    ensures Grew(o, o)
  {}

  lemma {:induction false} RecordsGrow(o: Out, rs: seq<Record>)
    requires o.Valid() && forall i :: 0 <= i < |rs| ==> GoodRecord(rs[i])
    ensures Grew(o, Records(o, rs).0) && Records(o, rs).1 <= |rs|
    decreases |rs|
  {
    hide Grew, AppendRecord, GoodRecord;
    if rs == [] {
      Same(o);
    } else {
      var o1 := AppendRecord(o, rs[0]).0;
      RecordGrows(o, rs[0]);
      RecordsGrow(o1, rs[1..]);
      GrewTwice(o, o1, Records(o, rs).0);
    }
  }

  // ---------- Framing ----------

  /** The names of the record fit the 255 bytes a name may have. */
  predicate Sized(r: Record) {
    && WireLength(r.owner) <= 255
    && match r.data
       case NameData(strings) => WireLength(strings) <= 255
       case ServiceData(_, _, _, strings) => WireLength(strings) <= 249
       case _ => true
  }

  lemma {:induction false} GrowthIsBounded(o: Out, strings: seq<CString>)
    requires o.Valid() && GoodLabels(strings)
    ensures Fqdn(o, strings).1 <= WireLength(strings)
    decreases |strings|
  {
    hide FindMatch;
    if strings != [] {
      if FindMatch(o.bytes, 0, o.index, strings) == None && o.index + |strings[0]| + 1 < MAX_PACKET {
        hide Fqdn, NameWriter.Out.Put;
        WritesLabel(o, strings);
        GrowthIsBounded(o.Put([|strings[0]|] + strings[0]), strings[1..]);
      } else {
        assert WireLength(strings[1..]) >= 1;
      }
    }
  }

  lemma {:induction false} ItemsLength(o: Out, items: seq<Item>)
    requires o.Valid() && AppendItems(o, items).1
    ensures AppendItems(o, items).0.index == o.index + |Entries(items)|
    decreases |items|
  {
    hide Entry, Out.Put;
    if items != [] {
      ItemsLength(o.Put(Entry(items[0])), items[1..]);
    }
  }

  /** The length counted for the data is the number of bytes written for it. */
  lemma RdataLength(o: Out, r: Record)
    requires o.Valid() && o.index < MAX_PACKET && GoodRecord(r) && Sized(r) && AppendRdata(o, r.data).1 > 0
    ensures var (o', n) := AppendRdata(o, r.data); o'.index == o.index + n
  {
    hide Fqdn, Out.Put, AppendItems, GoodLabels, Grew;
    match r.data
    case NameData(strings) => NameGrows(o, strings); GrowthIsBounded(o, strings);
    case ServiceData(priority, weight, port, strings) =>
      ServiceGrows(o, priority, weight, port, strings);
      var (o', n) := AppendRdata(o, r.data);
      var o3: Out :| o3.Valid() && o3.index == o.index + 6 && o' == Fqdn(o3, strings).0
                     && n == Fqdn(o3, strings).1 % 256 + 6 && o'.index == o3.index + Fqdn(o3, strings).1;
      GrowthIsBounded(o3, strings);
    case TextData(items) => ItemsGrow(o, items); ItemsIndex(o, items);
    case _ =>
  }

  lemma ItemsIndex(o: Out, items: seq<Item>)
    requires o.Valid()
    ensures AppendItems(o, items).0.index >= o.index
  {
    ItemsGrow(o, items);
  }

  /** Where a counted record's name ends, and that the 16-bit length 8 bytes on leads to the end of the record. */
  predicate Framed(b: seq<byte>, start: nat, nameEnd: nat, end: nat) {
    start <= nameEnd && nameEnd + 10 <= end <= |b| && b[nameEnd + 8..nameEnd + 10] == U16(end - nameEnd - 10)
  }

  /** A record that is counted is framed, whatever is written after it. */
  lemma RecordIsFramed(o: Out, r: Record)
    requires o.Valid() && GoodRecord(r) && Sized(r) && AppendRecord(o, r).1 > 0
    ensures var (o', n) := AppendRecord(o, r); var nameEnd := AppendName(o, r.owner).0.index;
            o'.index == o.index + n && Framed(o'.bytes, o.index, nameEnd, o'.index)
  {
    hide Grew, AppendType, AppendRdata, SetU16, GoodLabels, Fqdn, U16;
    var (o1, n1) := AppendName(o, r.owner);
    NameGrows(o, r.owner);
    IndexGrows(o, o1);
    GrowthIsBounded(o, r.owner);
    var (o2, n2) := AppendType(o1, r.kind, r.flush, r.ttl);
    TypeGrows(o1, r.kind, r.flush, r.ttl);
    TypeLeavesRoom(o1, r.kind, r.flush, r.ttl);
    GrewTwice(o, o1, o2);
    var (o3, n3) := AppendRdata(o2, r.data);
    RdataGrows(o2, r.data);
    RdataLength(o2, r);
    GrewTwice(o, o2, o3);
    SetInside(o, o3, o2.index - 2, n3);
  }

  /** What a counted record begins with after its name, and that it has data. */
  lemma RecordHead(o: Out, r: Record)
    requires o.Valid() && GoodRecord(r) && Sized(r) && AppendRecord(o, r).1 > 0
    ensures var nameEnd := AppendName(o, r.owner).0.index; var o' := AppendRecord(o, r).0;
            nameEnd + 10 < o'.index && o'.bytes[nameEnd..nameEnd + 8] == TypeBytes(r.kind, r.flush, r.ttl)[..8]
  {
    hide Grew, AppendRdata, SetU16, GoodLabels, Fqdn, U16, TypeBytes;
    var o1 := AppendName(o, r.owner).0;
    NameGrows(o, r.owner);
    var o2 := AppendType(o1, r.kind, r.flush, r.ttl).0;
    var (o3, n3) := AppendRdata(o2, r.data);
    RdataGrows(o2, r.data);
    RdataLength(o2, r);
    TypeStays(o1, o2, o3, r, n3);
  }

  lemma TypeStays(o1: Out, o2: Out, o3: Out, r: Record, n: nat)
    requires o1.Valid() && o1.index + 10 < MAX_PACKET && o2 == o1.Put(TypeBytes(r.kind, r.flush, r.ttl)) && Grew(o2, o3)
    ensures var q := SetU16(o3, o2.index - 2, n);
            q.index == o3.index && q.bytes[o1.index..o1.index + 8] == TypeBytes(r.kind, r.flush, r.ttl)[..8]
  {
    var q := SetU16(o3, o2.index - 2, n);
    forall k | 0 <= k < 8
      ensures q.bytes[o1.index + k] == TypeBytes(r.kind, r.flush, r.ttl)[k]
    {
      assert o2.bytes[o1.index + k] == TypeBytes(r.kind, r.flush, r.ttl)[k];
    }
  }

  lemma TypeLeavesRoom(o: Out, kind: nat, flush: bool, ttl: nat)
    requires o.Valid() && AppendType(o, kind, flush, ttl).1 > 0
    ensures AppendType(o, kind, flush, ttl).0.index < MAX_PACKET
  {}

  /** Records one after the other, from `at` to `end`. */
  predicate Chain(b: seq<byte>, at: nat, ends: seq<(nat, nat)>, end: nat)
    decreases |ends|
  {
    if ends == [] then at == end
    else Framed(b, at, ends[0].0, ends[0].1) && Chain(b, ends[0].1, ends[1..], end)
  }

  lemma {:induction false} ChainKeeps(b: seq<byte>, c: seq<byte>, at: nat, ends: seq<(nat, nat)>, end: nat)
    requires Chain(b, at, ends, end) && |c| == |b| && forall k :: at <= k < end && k < |b| ==> c[k] == b[k]
    ensures Chain(c, at, ends, end) && at <= end
    decreases |ends|
  {
    if ends != [] {
      var (nameEnd, next) := ends[0];
      ChainForward(b, next, ends[1..], end);
      assert c[nameEnd + 8..nameEnd + 10] == b[nameEnd + 8..nameEnd + 10];
      ChainKeeps(b, c, next, ends[1..], end);
    }
  }

  lemma {:induction false} ChainForward(b: seq<byte>, at: nat, ends: seq<(nat, nat)>, end: nat)
    requires Chain(b, at, ends, end)
    ensures at <= end
    decreases |ends|
  {
    if ends != [] {
      ChainForward(b, ends[0].1, ends[1..], end);
    }
  }

  lemma {:induction false} ChainAppend(b: seq<byte>, at: nat, first: seq<(nat, nat)>, mid: nat,
                                       second: seq<(nat, nat)>, end: nat)
    requires Chain(b, at, first, mid) && Chain(b, mid, second, end)
    ensures Chain(b, at, first + second, end)
    decreases |first|
  {
    if first == [] {
      assert first + second == second;
    } else {
      assert (first + second)[1..] == first[1..] + second;
      ChainAppend(b, first[0].1, first[1..], mid, second, end);
    }
  }

  /** When every record of a section was counted, the lengths lead from its first byte through all of them to
   * its end. */
  lemma {:induction false} SectionIsFramed(o: Out, rs: seq<Record>) returns (ends: seq<(nat, nat)>)
    requires o.Valid() && (forall i :: 0 <= i < |rs| ==> GoodRecord(rs[i]) && Sized(rs[i])) && Records(o, rs).1 == |rs|
    ensures |ends| == |rs| && Chain(Records(o, rs).0.bytes, o.index, ends, Records(o, rs).0.index)
    decreases |rs|
  {
    hide Grew, AppendRecord, GoodRecord, Sized, Framed;
    if rs == [] {
      ends := [];
    } else {
      var (o1, n) := AppendRecord(o, rs[0]);
      RecordsGrow(o1, rs[1..]);
      var o2 := Records(o1, rs[1..]).0;
      var rest := SectionIsFramed(o1, rs[1..]);
      RecordIsFramed(o, rs[0]);
      var nameEnd := AppendName(o, rs[0].owner).0.index;
      ends := [(nameEnd, o1.index)] + rest;
      StaysFramed(o1, o2, o.index, nameEnd);
      assert ends[1..] == rest;
    }
  }

  lemma StaysFramed(o: Out, o': Out, start: nat, nameEnd: nat)
    requires Grew(o, o') && Framed(o.bytes, start, nameEnd, o.index)
    ensures Framed(o'.bytes, start, nameEnd, o.index)
  {
    assert o'.bytes[nameEnd + 8..nameEnd + 10] == o.bytes[nameEnd + 8..nameEnd + 10];
  }

  /** A record that runs out of room after its owner name is not counted, and its name stays in the packet: the
   * lengths no longer lead through the section. */
  lemma PartOfARecordStays(o: Out, r: Record)
    requires o.Valid() && GoodRecord(r) && Sized(r) && r.owner != [] && Fits(o, r.owner)
    requires AppendName(o, r.owner).0.index + 10 >= MAX_PACKET
    ensures AppendRecord(o, r).1 == 0 && AppendRecord(o, r).0.index > o.index
  {
    hide Fqdn, GoodLabels;
    NameGrows(o, r.owner);
    GrowthIsBounded(o, r.owner);
    FitsGrows(o, r.owner);
  }

  lemma {:induction false} FitsGrows(o: Out, strings: seq<CString>)
    requires o.Valid() && GoodLabels(strings) && Fits(o, strings)
    ensures Fqdn(o, strings).1 > 0
    decreases |strings|
  {
    hide FindMatch;
    if strings != [] && FindMatch(o.bytes, 0, o.index, strings) == None && o.index + |strings[0]| + 1 < MAX_PACKET {
      hide Fqdn, NameWriter.Out.Put;
      WritesLabel(o, strings);
    }
  }

  // ---------- The whole packet ----------

  datatype Message = Message(id: nat, flags: nat, questions: seq<OutQuestion>, answers: seq<Record>,
                             servers: seq<Record>, additional: seq<Record>)

  predicate GoodMessage(m: Message) {
    && (forall i :: 0 <= i < |m.questions| ==> GoodLabels(m.questions[i].name))
    && (forall i :: 0 <= i < |m.answers| ==> GoodRecord(m.answers[i]))
    && (forall i :: 0 <= i < |m.servers| ==> GoodRecord(m.servers[i]))
    && (forall i :: 0 <= i < |m.additional| ==> GoodRecord(m.additional[i]))
  }

  /** A section whose count goes into the header. */
  function Section(o: Out, rs: seq<Record>, at: nat): (o': Out)
    requires o.Valid()
    ensures o'.Valid()
  {
    SetU16(Records(o, rs).0, at, Records(o, rs).1 % 256)
  }

  /** mdns_priv_dispatch_tx_packet, over a buffer that holds an earlier packet. */
  function Dispatch(stale: seq<byte>, m: Message): (o: Out)
    requires |stale| == MAX_PACKET
    ensures o.Valid()
  {
    var o0 := Out(seq(HEAD_LEN, _ => 0) + stale[HEAD_LEN..], HEAD_LEN);
    var o1 := SetU16(SetU16(o0, 2, m.flags), 0, m.id);
    var (o2, count) := Questions(o1, m.questions);
    var o3 := SetU16(o2, 4, count % 256);
    Section(Section(Section(o3, m.answers, 6), m.servers, 8), m.additional, 10)
  }

  /** The header changes, and bytes after it up to a growing index. */
  predicate GrewBody(o: Out, o': Out) {
    && o.Valid() && o'.Valid() && HEAD_LEN <= o.index <= o'.index
    && forall k :: HEAD_LEN <= k < MAX_PACKET && (k < o.index || o'.index <= k) ==> o'.bytes[k] == o.bytes[k]
  }

  lemma SectionGrows(o: Out, rs: seq<Record>, at: nat)
    requires o.Valid() && HEAD_LEN <= o.index && at + 1 < HEAD_LEN && forall i :: 0 <= i < |rs| ==> GoodRecord(rs[i])
    ensures GrewBody(o, Section(o, rs, at))
    ensures Section(o, rs, at).bytes[at..at + 2] == U16(Records(o, rs).1 % 256)
    ensures forall k :: 0 <= k < HEAD_LEN && k != at && k != at + 1 ==> Section(o, rs, at).bytes[k] == o.bytes[k]
  {
    hide Records, GoodRecord;
    RecordsGrow(o, rs);
  }

  lemma GrewBodyTwice(a: Out, b: Out, c: Out)
    requires GrewBody(a, b) && GrewBody(b, c)
    ensures GrewBody(a, c)
  {}

  /** Every packet, whatever is to be sent: the index stays within the 1460 bytes, nothing is written past it, and
   * the header holds the flags and the number of records counted in each section, modulo 256. */
  lemma EveryPacketStaysInside(stale: seq<byte>, m: Message)
    requires |stale| == MAX_PACKET && GoodMessage(m)
    ensures var o := Dispatch(stale, m);
            && 12 <= o.index <= 1460
            && o.bytes[o.index..] == stale[o.index..]
            && o.bytes[0..2] == U16(m.id) && o.bytes[2..4] == U16(m.flags)
  {
    hide Records, Questions, GoodRecord, GoodLabels, GrewBody, Section, U16;
    var o0 := Out(seq(HEAD_LEN, _ => 0) + stale[HEAD_LEN..], HEAD_LEN);
    var o1 := SetU16(SetU16(o0, 2, m.flags), 0, m.id);
    QuestionsGrow(o1, m.questions);
    var (o2, count) := Questions(o1, m.questions);
    var o3 := SetU16(o2, 4, count % 256);
    BodyOfQuestions(o0, o1, o2, o3, m, count);
    SectionGrows(o3, m.answers, 6);
    var o4 := Section(o3, m.answers, 6);
    BodyIndex(o3, o4);
    SectionGrows(o4, m.servers, 8);
    var o5 := Section(o4, m.servers, 8);
    BodyIndex(o4, o5);
    SectionGrows(o5, m.additional, 10);
    var o6 := Section(o5, m.additional, 10);
    GrewBodyTwice(o0, o3, o4);
    GrewBodyTwice(o0, o4, o5);
    GrewBodyTwice(o0, o5, o6);
    PastTheEnd(o0, o6, stale);
    assert o6.bytes[0..2] == o3.bytes[0..2] && o6.bytes[2..4] == o3.bytes[2..4];
  }

  lemma BodyIndex(o: Out, o': Out)
    requires GrewBody(o, o')
    ensures HEAD_LEN <= o.index <= o'.index <= MAX_PACKET
  {}

  lemma PastTheEnd(o0: Out, o: Out, stale: seq<byte>)
    requires GrewBody(o0, o) && |stale| == MAX_PACKET && o0.bytes[HEAD_LEN..] == stale[HEAD_LEN..]
    ensures HEAD_LEN <= o.index <= MAX_PACKET && o.bytes[o.index..] == stale[o.index..]
  {
    assert forall k :: o.index <= k < MAX_PACKET ==> o0.bytes[k] == o0.bytes[HEAD_LEN..][k - HEAD_LEN];
    assert forall k :: o.index <= k < MAX_PACKET ==> stale[k] == stale[HEAD_LEN..][k - HEAD_LEN];
  }

  lemma BodyOfQuestions(o0: Out, o1: Out, o2: Out, o3: Out, m: Message, count: nat)
    requires o0.Valid() && o0.index == HEAD_LEN && o1 == SetU16(SetU16(o0, 2, m.flags), 0, m.id)
    requires Grew(o1, o2) && o3 == SetU16(o2, 4, count % 256)
    ensures GrewBody(o0, o3) && o3.bytes[0..2] == U16(m.id) && o3.bytes[2..4] == U16(m.flags)
  {}
}
