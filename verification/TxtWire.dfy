/** TXT data byte by byte, and TXT data that are not as the writer makes them (mdns_send.c:115-133,
 * mdns_receive.c:181-316): where reading ends, what a part without a key is, and what is lost. */
module TxtWire {
  import opened Bytes
  import opened TxtCodec

  /** An item on the wire (section 6.3 of RFC 6763): its length, its key, and behind an equals sign its value, if it
   * has one.  No items are a single zero. */
  lemma ItemOnWire(key: seq<byte>, value: seq<byte>)
    requires |key| + 1 + |value| < 256
    ensures Data([Item(key, Some(value))]) == [|key| + 1 + |value|] + key + [61] + value
    ensures Data([Item(key, None)]) == [|key|] + key
    ensures Data([]) == [0]
  {
    var a, b := Item(key, Some(value)), Item(key, None);
    assert [a][1..] == [] && [b][1..] == [];
    assert Entries([a]) == Entry(a) + [] && Entries([b]) == Entry(b) + [];
    assert key + ([61] + value) == key + [61] + value && key + [] == key;
  }

  /** What a part reads as: nothing when it is empty or begins with the equals sign; else its key, up to the first
   * equals sign, and what follows that sign, unless that is empty. */
  lemma PartReadsAs(part: seq<byte>)
    ensures part == [] || part[0] == 61 ==> ItemOf(part) == None
    ensures part != [] && 61 !in part ==> ItemOf(part) == Some(Item(part, None))
    ensures forall i :: 0 < i < |part| && part[i] == 61 && 61 !in part[..i] ==>
              ItemOf(part) == Some(Item(part[..i], if part[i + 1..] == [] then None else Some(part[i + 1..])))
  {
    if part != [] && 61 !in part {
      assert part[..NameLen(part)] == part;
    }
    forall i | 0 < i < |part| && part[i] == 61 && 61 !in part[..i]
      ensures NameLen(part) == i && part[0] != 61
    {
      assert part == part[..i] + part[i..] && part[0] == part[..i][0];
      NameLenOfText(part[..i], part[i..]);
    }
  }

  lemma {:induction false} PartsBehind(items: seq<Item>, more: seq<byte>)
    requires AllGood(items)
    ensures var r := Parts(Entries(items) + more);
            match Parts(more)
            case None => r == None
            case Some(rest) => r.Some? && ItemsOf(r.value) == items + ItemsOf(rest)
    decreases |items|
  {
    hide Parts, ItemsOf, Text, ItemOf, Good;
    var data := Entries(items) + more;
    if items == [] {
      assert data == more;
      if Parts(more).Some? {
        assert [] + ItemsOf(Parts(more).value) == ItemsOf(Parts(more).value);
      }
    } else {
      var n := |Text(items[0])|;
      EntriesHead(items);
      PartsBehind(items[1..], more);
      assert data[0] == n && data[1..1 + n] == Text(items[0]) && data[1 + n..] == Entries(items[1..]) + more;
      assert data[0..] == data;
      PartsAt(data, 0);
      ItemReadsBack(items[0]);
      if Parts(more).Some? {
        var parts := Parts(data).value;
        var rest := Parts(more).value;
        assert parts[1..] == Parts(data[1 + n..]).value;
        ItemsCons(parts, []);
        assert [] + ItemsOf(parts) == ItemsOf(parts);
        assert items + ItemsOf(rest) == [items[0]] + (items[1..] + ItemsOf(rest));
      }
    }
  }

  /** A zero length ends the data: what follows it is not read. */
  lemma ZeroEnds(items: seq<Item>, more: seq<byte>)
    requires AllGood(items)
    ensures Parsed(Entries(items) + [0] + more) == items
  {
    hide Entries;
    PartsBehind(items, [0] + more);
    assert Entries(items) + ([0] + more) == Entries(items) + [0] + more;
    assert Parts([0] + more) == Some([]);
    assert items + [] == items;
    if |Entries(items) + [0] + more| == 1 {
      NoBytes(items);
    }
  }

  lemma NoBytes(items: seq<Item>)
    requires Entries(items) == []
    ensures items == []
  {}

  /** One part that runs past the end spoils the whole data: the items before it are lost, too. */
  lemma OverrunSpoils(items: seq<Item>, n: byte, more: seq<byte>)
    requires AllGood(items) && |more| < n
    ensures Parsed(Entries(items) + [n] + more) == []
  {
    hide Entries;
    PartsBehind(items, [n] + more);
    assert Entries(items) + ([n] + more) == Entries(items) + [n] + more;
    assert Parts([n] + more) == None;
  }
}
