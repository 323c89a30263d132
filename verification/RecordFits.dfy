/** When a record or a question is counted, byte for byte (mdns_send.c:742-1191): a record when all of it fits, a
 * question when its name does. */
module RecordFits {
  import opened Bytes
  import opened NameWriter
  import opened TxtCodec
  import opened RecordWriter

  /** Priority, weight and port. */
  function ThreeFields(data: Rdata): seq<byte>
    requires data.ServiceData?
  {
    U16(data.priority) + U16(data.weight) + U16(data.port)
  }

  /** The data fit behind the index: addresses up to the last byte of the packet, TXT items up to the last but one. */
  predicate DataFits(o: Out, data: Rdata)
    requires o.Valid()
  {
    match data
    case NameData(strings) => AppendName(o, strings).1 > 0
    case ServiceData(_, _, _, strings) =>
      && o.index + 6 <= 1460 && strings != [] && strings[0] != []
      && AppendName(o.Put(ThreeFields(data)), strings).1 > 0
    case TextData(items) => items == [] || o.index + |Entries(items)| < 1460
    case V4Data(address) => |address| == 4 && o.index + 4 <= 1460
    case V6Data(address) => |address| == 16 && o.index + 16 <= 1460
  }

  lemma {:induction false} AllItemsIff(o: Out, items: seq<Item>)
    requires o.Valid()
    ensures AppendItems(o, items).1 <==> items == [] || o.index + |Entries(items)| < 1460
    ensures AppendItems(o, items).1 && items != [] ==> AppendItems(o, items).0.index > o.index
    decreases |items|
  {
    hide Entry, Out.Put;
    if items != [] {
      var e := Entry(items[0]);
      if o.index + |e| < 1460 {
        AllItemsIff(o.Put(e), items[1..]);
      }
    }
  }

  lemma FieldsFit(o: Out, data: Rdata)
    requires o.Valid() && data.ServiceData?
    ensures var (o1, n1) := AppendU16(o, data.priority);
            var (o2, n2) := AppendU16(o1, data.weight);
            var (o3, n3) := AppendU16(o2, data.port);
            && (n1 + n2 + n3 == 6 <==> o.index + 6 <= 1460)
            && (n1 + n2 + n3 == 6 ==> o3 == o.Put(ThreeFields(data)))
  {
    hide Out.Put, U16;
    if o.index + 6 <= 1460 {
      PutTwice(o, U16(data.priority), U16(data.weight));
      PutTwice(o, U16(data.priority) + U16(data.weight), U16(data.port));
    }
  }

  lemma DataCountedIff(o: Out, data: Rdata)
    requires o.Valid() && o.index < 1460
    ensures AppendRdata(o, data).1 > 0 <==> DataFits(o, data)
  {
    hide AppendName, AppendItems, Out.Put, AppendU16;
    match data
    case ServiceData(_, _, _, _) => FieldsFit(o, data);
    case TextData(items) => AllItemsIff(o, items);
    case _ =>
  }

  /** A record is counted exactly when its name fits, or need not be looked at, its ten fixed bytes stay short of the
   * last byte of the packet, and its data fit. */
  lemma CountedIff(o: Out, r: Record)
    requires o.Valid()
    ensures var (o1, n1) := AppendName(o, r.owner);
            AppendRecord(o, r).1 > 0 <==>
              && (n1 > 0 || !r.checked) && o1.index + 10 < 1460
              && DataFits(o1.Put(TypeBytes(r.kind, r.flush, r.ttl)), r.data)
  {
    hide AppendName, AppendRdata, SetU16, Out.Put, TypeBytes, DataFits;
    var (o1, n1) := AppendName(o, r.owner);
    if o1.index + 10 < 1460 {
      TypePut(o1, TypeBytes(r.kind, r.flush, r.ttl));
      DataCountedIff(o1.Put(TypeBytes(r.kind, r.flush, r.ttl)), r.data);
    }
  }

  lemma TypePut(o: Out, t: seq<byte>)
    requires o.Valid() && |t| == 10 && o.index + 10 < 1460
    ensures o.Put(t).Valid() && o.Put(t).index == o.index + 10
  {}

  /** A question is counted exactly when its name fits, whether or not there is room for its type and class. */
  lemma QuestionCountedIff(o: Out, x: OutQuestion)
    requires o.Valid()
    ensures AppendQuestion(o, x).1 > 0 <==> AppendName(o, x.name).1 > 0
  {
    hide AppendName, AppendU16;
  }
}
