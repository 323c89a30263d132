/** Simultaneous probes (section 8.2 of RFC 6762): which of two hosts wins, as check_txt_collision and
 * check_srv_collision decide it (mdns_receive.c:393-490).  The verdict is 1 when the other host wins,
 * -1 when this one does, and 0 when the data are the same. */
module TieBreak {
  import opened Bytes
  import opened NameWriter
  import opened TxtCodec

  // ---------- Comparing bytes ----------

  /** `memcmp` of two buffers of the same length. */
  function Compare(a: seq<byte>, b: seq<byte>): (r: int)
    requires |a| == |b|
    ensures -1 <= r <= 1
  {
    if a == [] then 0
    else if a[0] != b[0] then (if a[0] > b[0] then 1 else -1)
    else Compare(a[1..], b[1..])
  }

  lemma {:induction false} CompareIsOrder(a: seq<byte>, b: seq<byte>)
    requires |a| == |b|
    ensures Compare(a, b) == -Compare(b, a)
    ensures Compare(a, b) == 0 <==> a == b
    decreases |a|
  {
    if a != [] {
      CompareIsOrder(a[1..], b[1..]);
      assert a == [a[0]] + a[1..] && b == [b[0]] + b[1..];
    }
  }

  method MemCmp(a: array<byte>, b: array<byte>) returns (r: int)
    requires a.Length == b.Length
    ensures r == Compare(a[..], b[..])
  {
    var i := 0;
    assert a[0..] == a[..] && b[0..] == b[..];
    while i < a.Length
      invariant 0 <= i <= a.Length && Compare(a[i..], b[i..]) == Compare(a[..], b[..])
    {
      assert a[i..][0] == a[i] && b[i..][0] == b[i] && a[i..][1..] == a[i + 1..] && b[i..][1..] == b[i + 1..];
      if a[i] != b[i] {
        return if a[i] > b[i] then 1 else -1;
      }
      i := i + 1;
    }
    return 0;
  }

  /** The longer data wins; of data of the same length, the greater. */
  function Verdict(ours: seq<byte>, theirs: seq<byte>): int {
    if |theirs| > |ours| then 1
    else if |theirs| < |ours| then -1
    else -Compare(ours, theirs)
  }

  lemma VerdictIsOpposite(a: seq<byte>, b: seq<byte>)
    ensures Verdict(a, b) == -Verdict(b, a)
    ensures Verdict(a, b) == 0 <==> a == b
  {
    if |a| == |b| {
      CompareIsOrder(a, b);
    }
  }

  /** The first place where two buffers differ. */
  predicate FirstDifference(a: seq<byte>, b: seq<byte>, i: nat) {
    i < |a| && i < |b| && a[i] != b[i] && forall k: nat :: k < i ==> a[k] == b[k]
  }

  lemma {:induction false} CompareFinds(a: seq<byte>, b: seq<byte>) returns (i: nat)
    requires |a| == |b| && a != b
    ensures FirstDifference(a, b, i) && (Compare(a, b) > 0 <==> a[i] > b[i])
    decreases |a|
  {
    if a[0] != b[0] {
      i := 0;
    } else {
      assert a == [a[0]] + a[1..] && b == [b[0]] + b[1..];
      var j := CompareFinds(a[1..], b[1..]);
      i := j + 1;
    }
  }

  /** The other host wins exactly when its data are longer, or of the same length and greater at the first byte
   * that differs.  (Section 8.2 of RFC 6762 lets the length decide only when one is a prefix of the other.) */
  lemma LaterDataWins(ours: seq<byte>, theirs: seq<byte>)
    ensures Verdict(ours, theirs) == 1 <==>
              |theirs| > |ours|
              || (|theirs| == |ours| && exists i: nat :: FirstDifference(ours, theirs, i) && theirs[i] > ours[i])
  {
    if |ours| == |theirs| {
      CompareIsOrder(ours, theirs);
      if ours != theirs {
        var _ := CompareFinds(ours, theirs);
      }
    }
  }

  // ---------- TXT ----------

  /** What check_txt_collision writes of its own items into a buffer that held `junk`: an entry that would
   * reach the packet size is skipped. */
  function Written(items: seq<Item>, junk: seq<byte>, index: nat): seq<byte>
    decreases |items|
  {
    if items == [] then junk
    else
      var e := Entry(items[0]);
      if index + |e| >= MAX_PACKET then Written(items[1..], junk, index)
      else if index + |e| > |junk| then junk
      else Written(items[1..], junk[..index] + e + junk[index + |e|..], index + |e|)
  }

  lemma {:induction false} WrittenIsData(items: seq<Item>, junk: seq<byte>, index: nat)
    requires |junk| == index + |Entries(items)| < MAX_PACKET
    ensures Written(items, junk, index) == junk[..index] + Entries(items)
    decreases |items|
  {
    if items != [] {
      var e := Entry(items[0]);
      var next := junk[..index] + e + junk[index + |e|..];
      WrittenIsData(items[1..], next, index + |e|);
      assert next[..index + |e|] == junk[..index] + e;
      assert junk[..index] + e + Entries(items[1..]) == junk[..index] + (e + Entries(items[1..]));
    } else {
      assert junk == junk[..index] + [];
    }
  }

  /** check_txt_collision.  `junk` is what the buffer on the stack holds before. */
  function TxtVerdict(ours: seq<Item>, theirs: seq<byte>, junk: seq<byte>): int {
    if |theirs| <= 1 && ours != [] then -1
    else if |theirs| > 1 && ours == [] then 1
    else if |theirs| <= 1 then 0
    else if |theirs| > |Entries(ours)| then 1
    else if |theirs| < |Entries(ours)| then -1
    else if |junk| != |theirs| || |Written(ours, junk, 0)| != |theirs| then 0
    else -Compare(Written(ours, junk, 0), theirs)
  }

  /** Items that fit a packet are compared as they are written in one. */
  lemma TxtVerdictIs(ours: seq<Item>, theirs: seq<byte>, junk: seq<byte>)
    requires |Entries(ours)| < MAX_PACKET && |junk| == |theirs| > 1 && ours != []
    ensures TxtVerdict(ours, theirs, junk) == Verdict(Entries(ours), theirs)
  {
    if |theirs| == |Entries(ours)| {
      WrittenIsData(ours, junk, 0);
      assert junk[..0] + Entries(ours) == Entries(ours);
    }
  }

  /** The length counted is the number of bytes the writer puts in a packet. */
  method TxtLength(items: seq<Item>) returns (n: nat)
    ensures n == |Entries(items)|
  {
    n := 0;
    var i := 0;
    while i < |items|
      invariant i <= |items| && n == |Entries(items[..i])|
    {
      EntriesSnoc(items, i);
      n := n + 1 + |items[i].key| + if items[i].value.Some? then |items[i].value.value| + 1 else 0;
      i := i + 1;
    }
    assert items[..i] == items;
  }

  lemma {:induction false} EntriesEmpty(items: seq<Item>)
    ensures Entries(items) == [] <==> items == []
    ensures |Entries(items)| >= |items|
    decreases |items|
  {
    if items != [] {
      EntriesEmpty(items[1..]);
    }
  }

  /** Two hosts that compare each other's TXT data come to opposite verdicts, except when both data have a
   * single byte and one of the hosts has an item at all (an item with no text). */
  lemma TxtTieBreak(a: seq<Item>, b: seq<Item>, junkA: seq<byte>, junkB: seq<byte>)
    requires |Entries(a)| < MAX_PACKET && |Entries(b)| < MAX_PACKET
    requires |junkA| == |Data(b)| && |junkB| == |Data(a)|
    ensures TxtVerdict(a, Data(b), junkA) == -TxtVerdict(b, Data(a), junkB)
            <==> !(|Data(a)| <= 1 && |Data(b)| <= 1 && (a != [] || b != []))
  {
    EntriesEmpty(a);
    EntriesEmpty(b);
    VerdictIsOpposite(Entries(a), Entries(b));
    if a != [] && |Data(b)| > 1 {
      TxtVerdictIs(a, Data(b), junkA);
    }
    if b != [] && |Data(a)| > 1 {
      TxtVerdictIs(b, Data(a), junkB);
    }
  }

  predicate HasKeys(items: seq<Item>) {
    forall i :: 0 <= i < |items| ==> items[i].key != []
  }

  /** With keys, the verdicts are always opposite, and both are "the same" exactly when the data are. */
  lemma TxtTieBreakWithKeys(a: seq<Item>, b: seq<Item>, junkA: seq<byte>, junkB: seq<byte>)
    requires |Entries(a)| < MAX_PACKET && |Entries(b)| < MAX_PACKET && HasKeys(a) && HasKeys(b)
    requires |junkA| == |Data(b)| && |junkB| == |Data(a)|
    ensures TxtVerdict(a, Data(b), junkA) == -TxtVerdict(b, Data(a), junkB)
    ensures TxtVerdict(a, Data(b), junkA) == 0 <==> Data(a) == Data(b)
  {
    EntriesEmpty(a);
    EntriesEmpty(b);
    TxtTieBreak(a, b, junkA, junkB);
    VerdictIsOpposite(Entries(a), Entries(b));
    if a != [] {
      assert |Entries(a)| > 1 by {
        assert a[0].key != [];
      }
      if b != [] {
        assert |Entries(b)| > 1 by {
          assert b[0].key != [];
        }
        TxtVerdictIs(a, Data(b), junkA);
      }
    } else if b != [] {
      assert b[0].key != [];
    }
  }

  // ---------- SRV ----------

  datatype Srv = Srv(priority: nat, weight: nat, port: nat, host: CString, domain: CString)
  {
    predicate Fits() {
      priority < 0x1_0000 && weight < 0x1_0000 && port < 0x1_0000
    }
  }

  /** The record data, with the host name in full. */
  function SrvData(s: Srv): seq<byte> {
    U16(s.priority) + U16(s.weight) + U16(s.port) + [Len8(s.host)] + s.host + [Len8(s.domain)] + s.domain + [0]
  }

  /** check_srv_collision: a host without a name finds no collision. */
  function SrvVerdict(ours: Srv, named: bool, theirs: Srv): int {
    if !named then 0 else Verdict(SrvData(ours.(domain := LOCAL)), SrvData(theirs))
  }

  lemma U16Injective(a: nat, b: nat)
    requires a < 0x1_0000 && b < 0x1_0000 && U16(a) == U16(b)
    ensures a == b
  {
    assert a / 256 % 256 == a / 256 && b / 256 % 256 == b / 256;
    assert U16(a)[0] == U16(b)[0] && U16(a)[1] == U16(b)[1];
  }

  /** In one domain the data determine the record. */
  lemma SrvDataInjective(a: Srv, b: Srv)
    requires a.Fits() && b.Fits() && a.domain == b.domain && SrvData(a) == SrvData(b)
    ensures a == b
  {
    var x, y := SrvData(a), SrvData(b);
    assert |a.host| == |b.host|;
    assert x[0..2] == U16(a.priority) && x[2..4] == U16(a.weight) && x[4..6] == U16(a.port);
    assert y[0..2] == U16(b.priority) && y[2..4] == U16(b.weight) && y[4..6] == U16(b.port);
    assert x[7..7 + |a.host|] == a.host && y[7..7 + |b.host|] == b.host;
    U16Injective(a.priority, b.priority);
    U16Injective(a.weight, b.weight);
    U16Injective(a.port, b.port);
  }

  /** Two named hosts in the same domain that compare each other's SRV data come to opposite verdicts, and
   * both are "the same" exactly when the records are equal. */
  lemma SrvTieBreak(a: Srv, b: Srv)
    requires a.Fits() && b.Fits() && a.domain == LOCAL && b.domain == LOCAL
    ensures SrvVerdict(a, true, b) == -SrvVerdict(b, true, a)
    ensures SrvVerdict(a, true, b) == 0 <==> a == b
  {
    VerdictIsOpposite(SrvData(a), SrvData(b));
    assert a.(domain := LOCAL) == a && b.(domain := LOCAL) == b;
    if SrvData(a) == SrvData(b) {
      SrvDataInjective(a, b);
    }
  }

  /** A host without a name breaks the tie only if the named host finds no difference either. */
  lemma UnnamedTieBreak(a: Srv, b: Srv)
    requires a.Fits() && b.Fits() && a.domain == LOCAL && b.domain == LOCAL
    ensures SrvVerdict(a, true, b) == -SrvVerdict(b, false, a) <==> a == b
  {
    SrvTieBreak(a, b);
  }

  /** Writes the data of one record into a buffer. */
  method WriteSrv(data: array<byte>, s: Srv)
    requires data.Length == |SrvData(s)|
    modifies data
    ensures data[..] == SrvData(s)
  {
    var i := WriteBytes(data, 0, U16(s.priority), []);
    i := WriteBytes(data, i, U16(s.weight), U16(s.priority));
    i := WriteBytes(data, i, U16(s.port), U16(s.priority) + U16(s.weight));
    i := WriteBytes(data, i, [Len8(s.host)], U16(s.priority) + U16(s.weight) + U16(s.port));
    i := WriteBytes(data, i, s.host, U16(s.priority) + U16(s.weight) + U16(s.port) + [Len8(s.host)]);
    i := WriteBytes(data, i, [Len8(s.domain)], U16(s.priority) + U16(s.weight) + U16(s.port) + [Len8(s.host)] + s.host);
    i := WriteBytes(data, i, s.domain,
                    U16(s.priority) + U16(s.weight) + U16(s.port) + [Len8(s.host)] + s.host + [Len8(s.domain)]);
    i := WriteBytes(data, i, [0], U16(s.priority) + U16(s.weight) + U16(s.port) + [Len8(s.host)] + s.host
                                  + [Len8(s.domain)] + s.domain);
    assert data[..i] == data[..];
  }

  /** `memcpy` at an index, and past it. */
  method WriteBytes(data: array<byte>, index: nat, more: seq<byte>, ghost before: seq<byte>) returns (i: nat)
    requires index == |before| && index + |more| <= data.Length && data[..index] == before
    modifies data
    ensures i == index + |more| && data[..i] == before + more && data[i..] == old(data[i..])
  {
    i := index;
    while i < index + |more|
      invariant index <= i <= index + |more| && data[..i] == before + more[..i - index]
      invariant data[index + |more|..] == old(data[index + |more|..])
    {
      data[i] := more[i - index];
      assert data[..i + 1] == data[..i] + [more[i - index]];
      assert more[..i + 1 - index] == more[..i - index] + [more[i - index]];
      i := i + 1;
    }
    assert more[..i - index] == more;
  }

  /** check_srv_collision. */
  method CheckSrvCollision(ours: Srv, named: bool, theirs: Srv) returns (verdict: int)
    ensures verdict == SrvVerdict(ours, named, theirs)
  {
    if !named {
      return 0;
    }
    var ourLen := 14 + |ours.host|;
    var theirLen := 9 + |theirs.host| + |theirs.domain|;
    if theirLen > ourLen {
      return 1;
    } else if theirLen < ourLen {
      return -1;
    }
    var ourData := new byte[ourLen];
    WriteSrv(ourData, ours.(domain := LOCAL));
    var theirData := new byte[theirLen];
    WriteSrv(theirData, theirs);
    var r := MemCmp(ourData, theirData);
    return if r > 0 then -1 else if r < 0 then 1 else 0;
  }

  lemma WrittenStep(items: seq<Item>, buffer: seq<byte>, index: nat)
    requires items != [] && index + |Entry(items[0])| <= |buffer|
    ensures var e := Entry(items[0]);
            Written(items, buffer, index) ==
              if index + |e| >= MAX_PACKET then Written(items[1..], buffer, index)
              else Written(items[1..], buffer[..index] + e + buffer[index + |e|..], index + |e|)
  {}

  /** The loop of check_txt_collision that writes its own items. */
  method WriteItems(ours: array<byte>, items: seq<Item>)
    requires ours.Length == |Entries(items)|
    modifies ours
    ensures ours[..] == Written(items, old(ours[..]), 0)
  {
    hide Written, Entry;
    var index := 0;
    var i := 0;
    assert items[0..] == items;
    while i < |items|
      invariant 0 <= i <= |items| && index + |Entries(items[i..])| <= ours.Length
      invariant Written(items[i..], ours[..], index) == Written(items, old(ours[..]), 0)
    {
      var e := Entry(items[i]);
      assert items[i..][0] == items[i] && items[i..][1..] == items[i + 1..];
      WrittenStep(items[i..], ours[..], index);
      ghost var was := ours[..];
      if index + |e| < MAX_PACKET {
        index := WriteBytes(ours, index, e, ours[..index]);
        assert ours[..] == ours[..index] + ours[index..];
        assert ours[index..] == was[index..];
      }
      i := i + 1;
    }
    WrittenNothing(ours[..], index);
    assert items[i..] == [];
  }

  lemma WrittenNothing(buffer: seq<byte>, index: nat)
    ensures Written([], buffer, index) == buffer
  {}

  lemma {:induction false} WrittenLength(items: seq<Item>, junk: seq<byte>, index: nat)
    ensures |Written(items, junk, index)| == |junk|
    decreases |items|
  {
    if items != [] {
      var e := Entry(items[0]);
      if index + |e| >= MAX_PACKET {
        WrittenLength(items[1..], junk, index);
      } else if index + |e| <= |junk| {
        WrittenLength(items[1..], junk[..index] + e + junk[index + |e|..], index + |e|);
      }
    }
  }

  /** check_txt_collision; `ours` is its buffer, of the length of the other host's data. */
  method CheckTxtCollision(items: seq<Item>, theirs: array<byte>, ours: array<byte>) returns (verdict: int)
    requires ours.Length == theirs.Length && ours != theirs
    modifies ours
    ensures verdict == TxtVerdict(items, theirs[..], old(ours[..]))
  {
    hide Written, Compare;
    if theirs.Length <= 1 && items != [] {
      return -1;
    } else if theirs.Length > 1 && items == [] {
      return 1;
    } else if theirs.Length <= 1 {
      return 0;
    }
    var dataLen := TxtLength(items);
    if theirs.Length > dataLen {
      return 1;
    } else if theirs.Length < dataLen {
      return -1;
    }
    WrittenLength(items, ours[..], 0);
    WriteItems(ours, items);
    var r := MemCmp(ours, theirs);
    return if r > 0 then -1 else if r < 0 then 1 else 0;
  }
}
