/** Which of two simultaneous probes wins, in terms of the records compared (section 8.2 of RFC 6762;
 * mdns_receive.c:393-490): the longer TXT data or the later bytes, and for SRV records the longer host name, then
 * priority, weight, port and name. */
module TieOrder {
  import opened Bytes
  import opened NameWriter
  import opened TxtCodec
  import opened TieBreak

  /** The second is longer, or as long and greater at the first byte that differs. */
  ghost predicate Later(a: seq<byte>, b: seq<byte>) {
    |b| > |a| || (|b| == |a| && exists i: nat :: FirstDifference(a, b, i) && b[i] > a[i])
  }

  lemma VerdictIsLater(a: seq<byte>, b: seq<byte>)
    ensures (Verdict(a, b) == 1 <==> Later(a, b)) && (Verdict(a, b) == -1 <==> Later(b, a))
    ensures -1 <= Verdict(a, b) <= 1
  {
    LaterDataWins(a, b);
    LaterDataWins(b, a);
    VerdictIsOpposite(a, b);
  }

  /** The other host's TXT data win exactly when they hold an item and ours do not, or are later than ours; ours win
   * exactly when we have an item and theirs hold none, or are earlier. */
  lemma TxtLaterWins(ours: seq<Item>, theirs: seq<byte>, junk: seq<byte>)
    requires |Entries(ours)| < 1460 && |junk| == |theirs|
    ensures var v := TxtVerdict(ours, theirs, junk);
            && -1 <= v <= 1
            && (v == 1 <==> |theirs| > 1 && (ours == [] || Later(Entries(ours), theirs)))
            && (v == -1 <==> ours != [] && (|theirs| <= 1 || Later(theirs, Entries(ours))))
  {
    hide Written, Compare, Later;
    if |theirs| > 1 && ours != [] {
      TxtVerdictIs(ours, theirs, junk);
      VerdictIsLater(Entries(ours), theirs);
      NotBoth(Entries(ours), theirs);
    }
  }

  lemma NotBoth(a: seq<byte>, b: seq<byte>)
    ensures !(Later(a, b) && Later(b, a))
  {
    VerdictIsLater(a, b);
  }

  // ---------- SRV ----------

  lemma {:induction false} CompareAppend(a: seq<byte>, b: seq<byte>, c: seq<byte>, d: seq<byte>)
    requires |a| == |b| && |c| == |d|
    ensures Compare(a + c, b + d) == if Compare(a, b) != 0 then Compare(a, b) else Compare(c, d)
    decreases |a|
  {
    if a == [] {
      assert a + c == c && b + d == d;
    } else {
      assert (a + c)[0] == a[0] && (b + d)[0] == b[0];
      assert (a + c)[1..] == a[1..] + c && (b + d)[1..] == b[1..] + d;
      CompareAppend(a[1..], b[1..], c, d);
    }
  }

  lemma CompareU16(x: nat, y: nat)
    requires x < 0x1_0000 && y < 0x1_0000
    ensures Compare(U16(x), U16(y)) == if x > y then 1 else if x < y then -1 else 0
  {
    assert x / 256 % 256 == x / 256 && y / 256 % 256 == y / 256;
    var a, b := U16(x), U16(y);
    assert a[1..] == [x % 256] && b[1..] == [y % 256];
    assert a[1..][1..] == [] && b[1..][1..] == [];
    assert Compare(a, b) == if a[0] != b[0] then (if a[0] > b[0] then 1 else -1) else Compare(a[1..], b[1..]);
    assert Compare(a[1..], b[1..]) ==
           if x % 256 != y % 256 then (if x % 256 > y % 256 then 1 else -1) else Compare([], []);
  }

  lemma CompareSelf(a: seq<byte>)
    ensures Compare(a, a) == 0
  {
    CompareIsOrder(a, a);
  }

  /** Of two records whose host names have the same length, the second is greater: by its priority, then its weight,
   * then its port, then the first byte of the name that differs. */
  ghost predicate Greater(a: Srv, b: Srv) {
    if a.priority != b.priority then b.priority > a.priority
    else if a.weight != b.weight then b.weight > a.weight
    else if a.port != b.port then b.port > a.port
    else exists i: nat :: FirstDifference(a.host, b.host, i) && b.host[i] > a.host[i]
  }

  function Order(x: nat, y: nat): int {
    if x > y then 1 else if x < y then -1 else 0
  }

  lemma SrvCompares(a: Srv, b: Srv)
    requires a.Fits() && b.Fits() && |a.host| == |b.host| && a.domain == b.domain
    ensures Compare(SrvData(a), SrvData(b)) ==
            if a.priority != b.priority then Order(a.priority, b.priority)
            else if a.weight != b.weight then Order(a.weight, b.weight)
            else if a.port != b.port then Order(a.port, b.port)
            else Compare(a.host, b.host)
  {
    hide Compare, U16;
    var end := [Len8(a.domain)] + a.domain + [0];
    var ha, hb := a.host + end, b.host + end;
    CompareAppend(a.host, b.host, end, end);
    CompareSelf(end);
    var len := [Len8(a.host)];
    CompareAppend(len, len, ha, hb);
    CompareSelf(len);
    CompareAppend(U16(a.port), U16(b.port), len + ha, len + hb);
    CompareU16(a.port, b.port);
    var pa, pb := U16(a.port) + (len + ha), U16(b.port) + (len + hb);
    CompareAppend(U16(a.weight), U16(b.weight), pa, pb);
    CompareU16(a.weight, b.weight);
    CompareAppend(U16(a.priority), U16(b.priority), U16(a.weight) + pa, U16(b.weight) + pb);
    CompareU16(a.priority, b.priority);
    assert SrvData(a) == U16(a.priority) + (U16(a.weight) + pa);
    assert SrvData(b) == U16(b.priority) + (U16(b.weight) + pb);
  }

  /** Two named hosts in the local domain: the other wins exactly when its host name is longer, or as long and its
   * record greater.  A host without a name never loses. */
  lemma SrvGreaterWins(a: Srv, b: Srv)
    requires a.Fits() && b.Fits() && b.domain == LOCAL
    ensures SrvVerdict(a, true, b) == 1 <==> |b.host| > |a.host| || (|b.host| == |a.host| && Greater(a, b))
    ensures SrvVerdict(a, false, b) == 0
  {
    hide Compare, SrvData;
    var ours := a.(domain := LOCAL);
    DataLength(ours);
    DataLength(b);
    if |a.host| == |b.host| {
      SrvCompares(ours, b);
      NamesDecide(a.host, b.host);
    }
  }

  lemma DataLength(s: Srv)
    ensures |SrvData(s)| == 9 + |s.host| + |s.domain|
  {}

  lemma NamesDecide(a: seq<byte>, b: seq<byte>)
    requires |a| == |b|
    ensures Compare(a, b) == -1 <==> exists i: nat :: FirstDifference(a, b, i) && b[i] > a[i]
  {
    LaterDataWins(a, b);
  }
}
