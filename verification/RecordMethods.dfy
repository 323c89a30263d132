/** The record writers as the program has them, filling one buffer in place; each does what the function of
 * RecordWriter says. */
module RecordMethods {
  import opened Bytes
  import opened NameWriter
  import opened TxtCodec
  import opened RecordWriter

  /** append_u32. */
  method WriteU32(p: Packet, v: nat) returns (n: nat)
    requires p.Valid()
    modifies p, p.bytes
    ensures p.Valid()
    ensures old(p.index) + 4 < MAX_PACKET ==> p.State() == old(p.State()).Put(U32(v)) && n == 4
    ensures old(p.index) + 4 >= MAX_PACKET ==> p.State() == old(p.State()) && n == 0
  {
    hide Out.Put;
    if p.index + 4 >= MAX_PACKET {
      return 0;
    }
    ghost var was := p.State();
    var k := p.AppendU8((v / 0x100_0000) % 256);
    k := p.AppendU8((v / 0x1_0000) % 256);
    k := p.AppendU8((v / 256) % 256);
    k := p.AppendU8(v % 256);
    PutFour(was, (v / 0x100_0000) % 256, (v / 0x1_0000) % 256, (v / 256) % 256, v % 256);
    return 4;
  }

  lemma PutFour(o: Out, a: byte, b: byte, c: byte, d: byte)
    requires o.Valid() && o.index + 4 <= MAX_PACKET
    ensures o.Put([a]).Put([b]).Put([c]).Put([d]) == o.Put([a, b, c, d])
  {
    hide Out.Put;
    PutTwice(o, [a], [b]);
    PutTwice(o, [a] + [b], [c]);
    PutTwice(o, [a] + [b] + [c], [d]);
    assert [a] + [b] + [c] + [d] == [a, b, c, d];
  }

  lemma PutType(o: Out, kind: nat, flush: bool, ttl: nat)
    requires o.Valid() && o.index + 10 < MAX_PACKET
    ensures o.Put(U16(kind)).Put(U16(if flush then CLASS_IN_FLUSH else CLASS_IN)).Put(U32(ttl)).Put(U16(0))
            == o.Put(TypeBytes(kind, flush, ttl))
  {
    hide Out.Put, U16, U32;
    var cls := U16(if flush then CLASS_IN_FLUSH else CLASS_IN);
    PutTwice(o, U16(kind), cls);
    PutTwice(o, U16(kind) + cls, U32(ttl));
    PutTwice(o, U16(kind) + cls + U32(ttl), U16(0));
  }

  /** append_type. */
  method WriteType(p: Packet, kind: nat, flush: bool, ttl: nat) returns (n: nat)
    requires p.Valid()
    modifies p, p.bytes
    ensures p.Valid() && (p.State(), n) == AppendType(old(p.State()), kind, flush, ttl)
  {
    hide Out.Put, TypeBytes, U32, U16;
    if p.index + 10 >= MAX_PACKET {
      return 0;
    }
    ghost var was := p.State();
    PutType(was, kind, flush, ttl);
    var cls := CLASS_IN;
    if flush {
      cls := CLASS_IN_FLUSH;
    }
    var k := p.AppendU16(kind);
    k := p.AppendU16(cls);
    k := WriteU32(p, ttl);
    k := p.AppendU16(0);
    return 10;
  }

  /** set_u16. */
  method SetField(p: Packet, at: nat, v: nat)
    requires p.Valid()
    modifies p.bytes
    ensures p.Valid() && p.State() == SetU16(old(p.State()), at, v)
  {
    if at + 1 >= MAX_PACKET {
      return;
    }
    p.bytes[at] := (v / 256) % 256;
    p.bytes[at + 1] := v % 256;
  }

  /** append_fqdn with its result in a byte. */
  method WriteName(p: Packet, strings: seq<CString>) returns (n: nat)
    requires p.Valid()
    modifies p, p.bytes
    ensures p.Valid() && (p.State(), n) == AppendName(old(p.State()), strings)
  {
    hide Fqdn;
    n := p.AppendFqdn(strings);
    n := n % 256;
  }

  lemma ItemsGoOn(o: Out, items: seq<Item>, i: nat)
    requires o.Valid() && i < |items|
    ensures AppendItems(o, items[i..]) ==
              if o.index + |Entry(items[i])| >= MAX_PACKET then (o, false)
              else AppendItems(o.Put(Entry(items[i])), items[i + 1..])
  {
    hide Entry, Out.Put;
    assert items[i..][0] == items[i] && items[i..][1..] == items[i + 1..];
  }

  lemma NoItemsLeft(o: Out)
    requires o.Valid()
    ensures AppendItems(o, []) == (o, true)
  {}

  /** The loop of append_txt_record. */
  method WriteItems(p: Packet, items: seq<Item>) returns (all: bool)
    requires p.Valid()
    modifies p, p.bytes
    ensures p.Valid() && (p.State(), all) == AppendItems(old(p.State()), items)
  {
    hide AppendItems, Entry, Out.Put;
    var i := 0;
    ghost var end := AppendItems(p.State(), items);
    assert items[0..] == items;
    while i < |items|
      invariant 0 <= i <= |items| && p.Valid() && AppendItems(p.State(), items[i..]) == end
    {
      ItemsGoOn(p.State(), items, i);
      var l := AppendEntry(p, items[i]);
      if l == 0 {
        return false;
      }
      i := i + 1;
    }
    assert items[i..] == [];
    NoItemsLeft(p.State());
    return true;
  }

  /** The data part of a record writer. */
  method WriteRdata(p: Packet, data: Rdata) returns (n: nat)
    requires p.Valid()
    modifies p, p.bytes
    ensures p.Valid() && (p.State(), n) == AppendRdata(old(p.State()), data)
  {
    hide AppendItems, AppendName, Out.Put, U16;
    match data
    case NameData(strings) => n := WriteName(p, strings);
    case ServiceData(priority, weight, port, strings) =>
      var n1 := p.AppendU16(priority);
      var n2 := p.AppendU16(weight);
      var n3 := p.AppendU16(port);
      if n1 + n2 + n3 != 6 {
        return 0;
      }
      if strings == [] || strings[0] == [] {
        return 0;
      }
      n := WriteName(p, strings);
      if n == 0 {
        return 0;
      }
      n := n + 6;
    case TextData(items) =>
      var start := p.index;
      var all := WriteItems(p, items);
      if !all {
        return 0;
      }
      n := p.index - start;
      if n == 0 {
        SameState(old(p.State()), items);
        if p.index < MAX_PACKET {
          var k := p.AppendU8(0);
        }
        n := 1;
      }
    case V4Data(address) =>
      if p.index + 3 >= MAX_PACKET || |address| != 4 {
        return 0;
      }
      p.MemCpy(address);
      n := 4;
    case V6Data(address) =>
      if p.index + 16 > MAX_PACKET || |address| != 16 {
        return 0;
      }
      p.MemCpy(address);
      n := 16;
  }

  lemma SameState(o: Out, items: seq<Item>)
    requires o.Valid() && AppendItems(o, items).0.index == o.index
    ensures AppendItems(o, items).0 == o
  {
    hide Entry, Out.Put;
  }

  /** The record writers: append_ptr_record, append_srv_record, append_txt_record, append_sdptr_record,
   * append_a_record and append_aaaa_record. */
  method WriteRecord(p: Packet, r: Record) returns (n: nat)
    requires p.Valid()
    modifies p, p.bytes
    ensures p.Valid() && (p.State(), n) == AppendRecord(old(p.State()), r)
  {
    hide AppendName, AppendRdata, AppendType, SetU16;
    var recordLength := WriteName(p, r.owner);
    if recordLength == 0 && r.checked {
      return 0;
    }
    ghost var named := p.State();
    var typeLength := WriteType(p, r.kind, r.flush, r.ttl);
    if typeLength == 0 {
      return 0;
    }
    TypeMoves(named, r.kind, r.flush, r.ttl);
    var dataLenLocation := p.index - 2;
    var dataLength := WriteRdata(p, r.data);
    if dataLength == 0 {
      return 0;
    }
    SetField(p, dataLenLocation, dataLength);
    return recordLength + typeLength + dataLength;
  }

  lemma TypeMoves(o: Out, kind: nat, flush: bool, ttl: nat)
    requires o.Valid() && AppendType(o, kind, flush, ttl).1 > 0
    ensures AppendType(o, kind, flush, ttl).0.index == o.index + 10
  {
    hide TypeBytes;
  }

  /** append_question. */
  method WriteQuestion(p: Packet, x: OutQuestion) returns (n: nat)
    requires p.Valid()
    modifies p, p.bytes
    ensures p.Valid() && (p.State(), n) == AppendQuestion(old(p.State()), x)
  {
    hide AppendName, Out.Put, U16;
    n := WriteName(p, x.name);
    if n == 0 {
      return 0;
    }
    var n2 := p.AppendU16(x.kind);
    var n3 := p.AppendU16(if x.unicast then 0x8001 else 0x0001);
    n := n + n2 + n3;
  }

  lemma RecordsGoOn(o: Out, rs: seq<Record>, i: nat)
    requires o.Valid() && i < |rs|
    ensures var (o1, n) := AppendRecord(o, rs[i]); var (o2, count) := Records(o1, rs[i + 1..]);
            Records(o, rs[i..]) == (o2, count + if n > 0 then 1 else 0)
  {
    hide AppendRecord;
    assert rs[i..][0] == rs[i] && rs[i..][1..] == rs[i + 1..];
  }

  /** One section of mdns_priv_dispatch_tx_packet; its count is kept in a byte. */
  method WriteSection(p: Packet, rs: seq<Record>, at: nat)
    requires p.Valid()
    modifies p, p.bytes
    ensures p.Valid() && p.State() == Section(old(p.State()), rs, at)
  {
    hide Records, AppendRecord, SetU16;
    var count := 0;
    var i := 0;
    ghost var end := Records(p.State(), rs);
    assert rs[0..] == rs;
    ghost var total := 0;
    while i < |rs|
      invariant 0 <= i <= |rs| && p.Valid() && count == total % 256
      invariant var (o, more) := Records(p.State(), rs[i..]); end == (o, total + more)
    {
      RecordsGoOn(p.State(), rs, i);
      var n := WriteRecord(p, rs[i]);
      if n > 0 {
        count := (count + 1) % 256;
        total := total + 1;
      }
      i := i + 1;
    }
    assert rs[i..] == [];
    NoRecords(p.State());
    SetField(p, at, count);
  }

  lemma NoRecords(o: Out)
    requires o.Valid()
    ensures Records(o, []) == (o, 0)
  {}

  lemma QuestionsGoOn(o: Out, xs: seq<OutQuestion>, i: nat)
    requires o.Valid() && i < |xs|
    ensures var (o1, n) := AppendQuestion(o, xs[i]); var (o2, count) := Questions(o1, xs[i + 1..]);
            Questions(o, xs[i..]) == (o2, count + if n > 0 then 1 else 0)
  {
    hide AppendQuestion;
    assert xs[i..][0] == xs[i] && xs[i..][1..] == xs[i + 1..];
  }

  lemma NoQuestions(o: Out)
    requires o.Valid()
    ensures Questions(o, []) == (o, 0)
  {}

  method WriteQuestions(p: Packet, xs: seq<OutQuestion>) returns (count: nat)
    requires p.Valid()
    modifies p, p.bytes
    ensures p.Valid() && p.State() == Questions(old(p.State()), xs).0 && count == Questions(old(p.State()), xs).1 % 256
  {
    hide Questions, AppendQuestion;
    count := 0;
    var i := 0;
    ghost var end := Questions(p.State(), xs);
    assert xs[0..] == xs;
    ghost var total := 0;
    while i < |xs|
      invariant 0 <= i <= |xs| && p.Valid() && count == total % 256
      invariant var (o, more) := Questions(p.State(), xs[i..]); end == (o, total + more)
    {
      QuestionsGoOn(p.State(), xs, i);
      var n := WriteQuestion(p, xs[i]);
      if n > 0 {
        count := (count + 1) % 256;
        total := total + 1;
      }
      i := i + 1;
    }
    assert xs[i..] == [];
    NoQuestions(p.State());
  }

  /** mdns_priv_dispatch_tx_packet: fills the one static buffer. */
  method DispatchTxPacket(p: Packet, m: Message)
    requires p.Valid()
    modifies p, p.bytes
    ensures p.Valid() && p.State() == Dispatch(old(p.bytes[..]), m)
  {
    hide Section, Questions, SetU16;
    p.index := HEAD_LEN;
    var i := 0;
    ghost var stale := p.bytes[..];
    while i < HEAD_LEN
      invariant 0 <= i <= HEAD_LEN && p.Valid() && p.index == HEAD_LEN
      invariant p.bytes[i..] == stale[i..] && forall k :: 0 <= k < i ==> p.bytes[k] == 0
    {
      p.bytes[i] := 0;
      assert p.bytes[i + 1..] == stale[i + 1..] by {
        assert stale[i..][1..] == stale[i + 1..];
      }
      i := i + 1;
    }
    assert p.bytes[..] == seq(HEAD_LEN, _ => 0) + stale[HEAD_LEN..];
    SetField(p, 2, m.flags);
    SetField(p, 0, m.id);
    var count := WriteQuestions(p, m.questions);
    SetField(p, 4, count);
    WriteSection(p, m.answers, 6);
    WriteSection(p, m.servers, 8);
    WriteSection(p, m.additional, 10);
  }
}
