/** TXT record data: the writer (mdns_send.c:115-133, 1019-1034) and the two-pass reader
 * (mdns_receive.c:181-316). */
module TxtCodec {
  import opened Bytes
  import opened NameWriter

  const EQUALS: byte := 61

  /** A key, and a value if there is one.  Values are counted, not NUL-terminated. */
  datatype Item = Item(key: seq<byte>, value: Option<seq<byte>>)

  // ---------- Writing ----------

  function Text(item: Item): seq<byte> {
    item.key + if item.value.Some? then [EQUALS] + item.value.value else []
  }

  /** The length byte keeps the length modulo 256. */
  function Entry(item: Item): (e: seq<byte>)
    ensures |e| == 1 + |Text(item)|
  {
    [|Text(item)| % 256] + Text(item)
  }

  function Entries(items: seq<Item>): seq<byte> {
    if items == [] then [] else Entry(items[0]) + Entries(items[1..])
  }

  /** The data of a TXT record: a single zero byte stands for no items. */
  function Data(items: seq<Item>): seq<byte> {
    if Entries(items) == [] then [0] else Entries(items)
  }

  lemma {:induction false} EntriesAppend(a: seq<Item>, b: seq<Item>)
    ensures Entries(a + b) == Entries(a) + Entries(b)
    decreases |a|
  {
    if a == [] {
      assert a + b == b;
    } else {
      assert (a + b)[0] == a[0] && (a + b)[1..] == a[1..] + b;
      EntriesAppend(a[1..], b);
      assert Entry(a[0]) + (Entries(a[1..]) + Entries(b)) == (Entry(a[0]) + Entries(a[1..])) + Entries(b);
    }
  }

  lemma EntriesSnoc(items: seq<Item>, i: nat)
    requires i < |items|
    ensures Entries(items[..i + 1]) == Entries(items[..i]) + Entry(items[i])
  {
    assert items[..i + 1] == items[..i] + [items[i]];
    EntriesAppend(items[..i], [items[i]]);
    assert [items[i]][1..] == [];
    assert Entries([items[i]]) == Entry(items[i]) + [];
  }

  lemma PutEntry(o: Out, item: Item)
    requires o.Valid() && o.index + |Entry(item)| <= MAX_PACKET
    ensures var head := o.Put([|Text(item)| % 256]).Put(item.key);
            o.Put(Entry(item)) == if item.value.None? then head else head.Put([EQUALS]).Put(item.value.value)
  {
    hide Out.Put;
    var len: byte := |Text(item)| % 256;
    PutTwice(o, [len], item.key);
    if item.value.Some? {
      PutTwice(o, [len] + item.key, [EQUALS]);
      PutTwice(o, [len] + item.key + [EQUALS], item.value.value);
      assert [len] + item.key + [EQUALS] + item.value.value == Entry(item);
    } else {
      assert [len] + item.key == Entry(item);
    }
  }

  lemma TextLen(item: Item)
    ensures |Text(item)| == |item.key| + if item.value.Some? then |item.value.value| + 1 else 0
  {}

  /** mdns_priv_append_one_txt_record_entry. */
  method AppendEntry(p: Packet, item: Item) returns (l: nat)
    requires p.Valid()
    modifies p, p.bytes
    ensures p.Valid()
    ensures old(p.index) + |Entry(item)| < MAX_PACKET ==>
              p.State() == old(p.State()).Put(Entry(item)) && l == |Entry(item)|
    ensures old(p.index) + |Entry(item)| >= MAX_PACKET ==> p.State() == old(p.State()) && l == 0
  {
    hide Out.Put, Entry, Text;
    TextLen(item);
    var len := |item.key| + if item.value.Some? then |item.value.value| + 1 else 0;
    if p.index + len + 1 >= MAX_PACKET {
      return 0;
    }
    ghost var was := p.State();
    PutEntry(was, item);
    var n := p.AppendU8(len % 256);
    assert p.State() == was.Put([len % 256]);
    p.MemCpy(item.key);
    assert p.State() == was.Put([len % 256]).Put(item.key);
    if item.value.Some? {
      p.MemCpy([EQUALS]);
      p.MemCpy(item.value.value);
    }
    return len + 1;
  }

  /** The data part of append_txt_record: its length, or 0 if an item did not fit. */
  method AppendData(p: Packet, items: seq<Item>) returns (dataLen: nat)
    requires p.Valid() && p.index < MAX_PACKET
    modifies p, p.bytes
    ensures p.Valid()
    ensures old(p.index) + |Entries(items)| < MAX_PACKET ==>
              p.State() == old(p.State()).Put(Data(items)) && dataLen == |Data(items)|
    ensures old(p.index) + |Entries(items)| >= MAX_PACKET ==> dataLen == 0
  {
    ghost var was := p.State();
    dataLen := 0;
    var i := 0;
    assert was.Put([]) == was;
    while i < |items|
      invariant i <= |items| && p.Valid()
      invariant dataLen == |Entries(items[..i])| && was.index + dataLen < MAX_PACKET
      invariant p.State() == was.Put(Entries(items[..i]))
    {
      EntriesSnoc(items, i);
      var l := AppendEntry(p, items[i]);
      if l == 0 {
        EntriesAppend(items[..i + 1], items[i + 1..]);
        assert items[..i + 1] + items[i + 1..] == items;
        return 0;
      }
      PutTwice(was, Entries(items[..i]), Entry(items[i]));
      dataLen := dataLen + l;
      i := i + 1;
    }
    assert items[..i] == items;
    if dataLen == 0 {
      p.MemCpy([0]);
      PutTwice(was, [], [0]);
      assert [] + [0] == [0];
      dataLen := 1;
    }
  }

  // ---------- Reading: the meaning ----------

  /** The parts of the data up to a zero length byte, if none runs past the end. */
  function Parts(data: seq<byte>): Option<seq<seq<byte>>>
    decreases |data|
  {
    if data == [] || data[0] == 0 then Some([])
    else if 1 + data[0] > |data| then None
    else
      match Parts(data[1 + data[0]..])
      case None => None
      case Some(rest) => Some([data[1..1 + data[0]]] + rest)
  }

  /** Where the first '=' is, or the length. */
  function NameLen(part: seq<byte>): (n: nat)
    ensures n <= |part| && EQUALS !in part[..n] && (n < |part| ==> part[n] == EQUALS)
  {
    if part == [] || part[0] == EQUALS then 0 else 1 + NameLen(part[1..])
  }

  /** A part that starts with '=' is no item; an empty value is none. */
  function ItemOf(part: seq<byte>): Option<Item> {
    if part == [] || part[0] == EQUALS then None
    else
      var n := NameLen(part);
      Some(Item(part[..n], if n + 1 < |part| then Some(part[n + 1..]) else None))
  }

  function ItemsOf(parts: seq<seq<byte>>): seq<Item> {
    if parts == [] then []
    else (match ItemOf(parts[0]) case None => [] case Some(item) => [item]) + ItemsOf(parts[1..])
  }

  /** What result_txt_create gives: data of a single byte, and data with a bad part, hold no items. */
  function Parsed(data: seq<byte>): seq<Item> {
    if |data| == 1 || Parts(data).None? then [] else ItemsOf(Parts(data).value)
  }

  // ---------- Reading: the two passes ----------

  /** get_txt_items_count. */
  method GetTxtItemsCount(data: seq<byte>) returns (n: int)
    requires |data| < 0x1_0000
    ensures n == if |data| == 1 then 0 else match Parts(data) case None => -1 case Some(parts) => |parts|
  {
    if |data| == 1 {
      return 0;
    }
    n := 0;
    var i := 0;
    assert data[0..] == data;
    while i < |data|
      invariant 0 <= i <= |data| && n >= 0
      invariant match Parts(data[i..])
                case None => Parts(data).None?
                case Some(rest) => Parts(data).Some? && n + |rest| == |Parts(data).value|
      decreases |data| - i
    {
      var partLen: nat := data[i];
      assert data[i..][0] == data[i];
      i := i + 1;
      if partLen == 0 {
        return;
      }
      if i + partLen > |data| {
        return -1;
      }
      assert data[i - 1..][1 + partLen..] == data[i + partLen..];
      i := i + partLen;
      n := n + 1;
    }
  }

  /** get_txt_item_len. */
  method GetTxtItemLen(part: seq<byte>) returns (n: int)
    requires part != []
    ensures n == if part[0] == EQUALS then -1 else NameLen(part)
  {
    if part[0] == EQUALS {
      return -1;
    }
    var i := 0;
    assert part[0..] == part;
    while i < |part|
      invariant 0 <= i <= |part| && i + NameLen(part[i..]) == NameLen(part)
    {
      if part[i] == EQUALS {
        return i;
      }
      assert part[i..][1..] == part[i + 1..];
      i := i + 1;
    }
    return |part|;
  }

  lemma PartsAt(data: seq<byte>, i: nat)
    requires i < |data|
    ensures var n := data[i];
            Parts(data[i..]) ==
              if n == 0 then Some([])
              else if i + 1 + n > |data| then None
              else match Parts(data[i + 1 + n..])
                   case None => None
                   case Some(rest) => Some([data[i + 1..i + 1 + n]] + rest)
  {
    var d, n := data[i..], data[i];
    assert d[0] == n;
    if 0 < n && i + 1 + n <= |data| {
      assert d[1 + n..] == data[i + 1 + n..] && d[1..1 + n] == data[i + 1..i + 1 + n];
    }
  }

  lemma ItemsCons(parts: seq<seq<byte>>, done: seq<Item>)
    requires parts != []
    ensures done + ItemsOf(parts) ==
              (match ItemOf(parts[0]) case None => done case Some(item) => done + [item]) + ItemsOf(parts[1..])
  {}

  /** One part of result_txt_create: its item, if it has a name, and where the next part starts. */
  method ReadItem(data: seq<byte>, at: nat, partLen: nat) returns (item: Option<Item>, next: nat)
    requires 0 < partLen && at + partLen <= |data|
    ensures item == ItemOf(data[at..at + partLen]) && next == at + partLen
  {
    var i := at;
    var part := data[i..i + partLen];
    var nameLen := GetTxtItemLen(part);
    if nameLen < 0 {
      return None, i + partLen;
    }
    var key := part[..nameLen];
    i := i + nameLen + if nameLen < partLen then 1 else 0;
    var newValueLen := partLen - nameLen - 1;
    if newValueLen > 0 {
      assert data[i..i + newValueLen] == part[nameLen + 1..];
      return Some(Item(key, Some(data[i..i + newValueLen]))), i + newValueLen;
    }
    return Some(Item(key, None)), i;
  }

  /** result_txt_create.  `failed` says whether the building pass took its error exit: it never does, it
   * fills no more slots than were counted, and it moves on by exactly the length of each part. */
  method ResultTxtCreate(data: seq<byte>) returns (txt: array<Item>, count: nat, failed: bool)
    requires |data| < 0x1_0000
    ensures !failed && count <= txt.Length
    ensures txt[..count] == Parsed(data)
    ensures |data| != 1 && Parts(data).Some? ==> txt.Length == |Parts(data).value|
  {
    hide Parts, ItemsOf, ItemOf;
    failed := false;
    count := 0;
    var num := GetTxtItemsCount(data);
    if num <= 0 {
      NoItems(data);
      txt := new Item[0];
      assert txt[..0] == [];
      return;
    }
    txt := new Item[num](_ => Item([], None));
    var i := 0;
    ghost var left := Parts(data).value;
    assert data[0..] == data && txt[..0] + ItemsOf(left) == ItemsOf(left);
    while i < |data| && count < num
      invariant 0 <= i <= |data| && count <= num && !failed
      invariant Parts(data[i..]) == Some(left) && count + |left| <= num
      invariant txt[..count] + ItemsOf(left) == Parsed(data)
      decreases |data| - i
    {
      var partLen: nat := data[i];
      PartsAt(data, i);
      NoMore(data[i..], left);
      i := i + 1;
      if partLen == 0 {
        break;
      }
      if i + partLen > |data| {
        failed := true;
        break;
      }
      ItemsCons(left, txt[..count]);
      left := left[1..];
      var item;
      item, i := ReadItem(data, i, partLen);
      if item.Some? {
        ghost var before := txt[..count];
        txt[count] := item.value;
        count := count + 1;
        assert txt[..count] == before + [item.value];
      }
    }
    if Parts(data[i..]) == Some(left) {
      NoMore(data[i..], left);
    }
    assert txt[..count] + [] == txt[..count];
  }

  lemma NoItems(data: seq<byte>)
    requires |data| == 1 || Parts(data).None? || Parts(data).value == []
    ensures Parsed(data) == []
  {}

  lemma NoMore(rest: seq<byte>, left: seq<seq<byte>>)
    requires Parts(rest) == Some(left)
    ensures rest == [] || rest[0] == 0 ==> ItemsOf(left) == []
    ensures left == [] ==> ItemsOf(left) == []
  {}

  // ---------- Round trip ----------

  /** An item the reader can give back. */
  predicate Good(item: Item) {
    && item.key != [] && EQUALS !in item.key
    && (item.value.Some? ==> item.value.value != [])
    && |Text(item)| < 256
  }

  predicate AllGood(items: seq<Item>) {
    forall i :: 0 <= i < |items| ==> Good(items[i])
  }

  lemma {:induction false} NameLenOfText(key: seq<byte>, more: seq<byte>)
    requires EQUALS !in key && (more == [] || more[0] == EQUALS)
    ensures NameLen(key + more) == |key|
    decreases |key|
  {
    if key == [] {
      assert key + more == more;
    } else {
      assert (key + more)[0] == key[0] && (key + more)[1..] == key[1..] + more;
      NameLenOfText(key[1..], more);
    }
  }

  lemma ItemReadsBack(item: Item)
    requires Good(item)
    ensures ItemOf(Text(item)) == Some(item)
  {
    var text := Text(item);
    if item.value.None? {
      assert text == item.key + [];
      NameLenOfText(item.key, []);
      assert text[..|item.key|] == item.key;
    } else {
      var more := [EQUALS] + item.value.value;
      assert text == item.key + more;
      NameLenOfText(item.key, more);
      assert text[..|item.key|] == item.key && text[|item.key| + 1..] == item.value.value;
    }
    assert text[0] == item.key[0];
  }

  lemma EntriesHead(items: seq<Item>)
    requires items != [] && Good(items[0])
    ensures var data, n := Entries(items), |Text(items[0])|;
            0 < n < |data| && data[0] == n && data[1..1 + n] == Text(items[0]) && data[1 + n..] == Entries(items[1..])
  {
    var data := Entries(items);
    assert data[0] == Entry(items[0])[0];
  }

  lemma {:induction false} EntriesReadBack(items: seq<Item>)
    requires AllGood(items)
    ensures Parts(Entries(items)).Some? && ItemsOf(Parts(Entries(items)).value) == items
    decreases |items|
  {
    hide Parts, ItemsOf, Text, Entries, ItemOf, Good;
    var data := Entries(items);
    if items == [] {
      NoEntries();
    } else {
      var rest := items[1..];
      EntriesReadBack(rest);
      EntriesHead(items);
      assert data[0..] == data;
      PartsAt(data, 0);
      ItemReadsBack(items[0]);
      var parts := Parts(data).value;
      assert parts[1..] == Parts(Entries(rest)).value;
      ItemsCons(parts, []);
      assert [] + ItemsOf(parts) == ItemsOf(parts) && items == [] + [items[0]] + rest;
    }
  }

  lemma NoEntries()
    ensures Parts(Entries([])) == Some([]) && ItemsOf([]) == []
  {}

  /** Whatever the data, the items read are good ones. */
  lemma {:induction false} PartsAreShort(data: seq<byte>)
    ensures Parts(data).Some? ==> forall i :: 0 <= i < |Parts(data).value| ==> |Parts(data).value[i]| < 256
    decreases |data|
  {
    if data != [] && data[0] != 0 && 1 + data[0] <= |data| {
      PartsAreShort(data[1 + data[0]..]);
    }
  }

  lemma ItemIsGood(part: seq<byte>)
    requires |part| < 256 && ItemOf(part).Some?
    ensures Good(ItemOf(part).value)
  {
    var n := NameLen(part);
    var item := ItemOf(part).value;
    assert part[..n] != [] && n <= |part|;
    if n + 1 < |part| {
      assert |Text(item)| == |part|;
    }
  }

  lemma {:induction false} ItemsAreGood(parts: seq<seq<byte>>)
    requires forall i :: 0 <= i < |parts| ==> |parts[i]| < 256
    ensures AllGood(ItemsOf(parts))
    decreases |parts|
  {
    if parts != [] {
      ItemsAreGood(parts[1..]);
      if ItemOf(parts[0]).Some? {
        ItemIsGood(parts[0]);
      }
    }
  }

  /** Reading back the data written for a list of items gives the list if and only if every key is non-empty
   * and free of '=', every value is absent or non-empty, and every item has at most 255 bytes. */
  lemma TxtRoundTrip(items: seq<Item>)
    ensures Parsed(Data(items)) == items <==> AllGood(items)
  {
    var data := Data(items);
    if AllGood(items) {
      if items == [] {
        assert data == [0];
      } else {
        assert Good(items[0]);
        EntriesReadBack(items);
        assert |Text(items[0])| > 0;
        assert |data| > 1;
      }
    }
    if Parsed(data) == items {
      if |data| != 1 && Parts(data).Some? {
        PartsAreShort(data);
        ItemsAreGood(Parts(data).value);
      }
    }
  }
}
