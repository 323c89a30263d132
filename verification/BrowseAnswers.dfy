/** What a cache holds after a packet: a complete answer for a new service gives one complete entry, and when the
 * entry of a known service tells what the packet said. */
module BrowseAnswers {
  import opened Bytes
  import opened Browse

  // ---------- A new service ----------

  /** The TTL an entry ends up with, from the one it had and those received in turn. */
  function FoldTtl(was: nat, ttls: seq<nat>): nat
    decreases |ttls|
  {
    if ttls == [] then was else FoldTtl(NewTtl(was, ttls[0]), ttls[1..])
  }

  /** It is the least of them, as long as none is zero. */
  lemma {:induction false} FoldIsLeast(was: nat, ttls: seq<nat>)
    requires was != 0 && 0 !in ttls
    ensures var t := FoldTtl(was, ttls);
            (t == was || t in ttls) && t <= was && forall x :: x in ttls ==> t <= x
    decreases |ttls|
  {
    if ttls != [] {
      assert forall x :: x in ttls ==> x == ttls[0] || x in ttls[1..];
      FoldIsLeast(NewTtl(was, ttls[0]), ttls[1..]);
    }
  }

  function Ttls(staged: seq<Staged>): seq<nat> {
    if staged == [] then [] else [staged[0].ttl] + Ttls(staged[1..])
  }

  function Ips(staged: seq<Staged>): seq<Addr> {
    if staged == [] then [] else [staged[0].ip] + Ips(staged[1..])
  }

  /** Each address is new when its turn comes. */
  predicate AllNew(staged: seq<Staged>, have: seq<Addr>)
    decreases |staged|
  {
    staged != [] ==> staged[0].ip !in have && AllNew(staged[1..], [staged[0].ip] + have)
  }

  predicate ForEntry(staged: seq<Staged>, e: Entry) {
    forall x :: x in staged ==> x.at == e.at && SameHost(Some(x.host), e.hostname)
  }

  /** Addresses for the first entry all go to it, each in front of those before. */
  lemma {:induction false} ApplyToFirst(w: Work, staged: seq<Staged>)
    requires w.entries != [] && w.entries[0].id in w.changed
    requires ForEntry(staged, w.entries[0]) && AllNew(staged, w.entries[0].addrs)
    ensures var e := w.entries[0];
            Apply(w, staged) ==
              w.(entries := [e.(addrs := Reverse(Ips(staged)) + e.addrs, ttl := FoldTtl(e.ttl, Ttls(staged)))]
                + w.entries[1..])
    decreases |staged|
  {
    hide SameHost;
    var e := w.entries[0];
    if staged == [] {
      assert [] + e.addrs == e.addrs;
      assert [e] + w.entries[1..] == w.entries;
    } else {
      var x := staged[0];
      assert x in staged && forall y :: y in staged[1..] ==> y in staged;
      var e' := e.(addrs := [x.ip] + e.addrs, ttl := NewTtl(e.ttl, x.ttl));
      assert FindLacking(w.entries, x.at, x.host, x.ip) == 0;
      var t := AddIp(w, x);
      assert t == w.(entries := w.entries[0 := e']);
      ApplyToFirst(t, staged[1..]);
      assert Reverse(Ips(staged[1..])) + ([x.ip] + e.addrs) == Reverse(Ips(staged[1..])) + [x.ip] + e.addrs;
      assert Ips(staged)[1..] == Ips(staged[1..]) && Ttls(staged)[1..] == Ttls(staged[1..]);
      assert t.entries[1..] == w.entries[1..];
    }
  }

  predicate HostUnknown(entries: seq<Entry>, host: CString) {
    forall e :: e in entries ==> !SameHost(Some(host), e.hostname)
  }

  lemma {:induction false} NothingToCopy(entries: seq<Entry>, e: Entry)
    requires e.addrs == [] && e.hostname.Some?
    requires forall x :: x in entries ==> x.addrs == [] || !SameHost(e.hostname, x.hostname)
    ensures CopiedAddrs(entries, e) == []
    decreases |entries|
  {
    hide EqNoCase;
    if entries != [] {
      assert entries[0] in entries && forall x :: x in entries[1..] ==> x in entries;
      SameHostSwaps(entries[0].hostname, e.hostname);
      NothingToCopy(entries[1..], e);
    }
  }

  lemma SameHostSwaps(a: Option<CString>, b: Option<CString>)
    ensures SameHost(a, b) == SameHost(b, a)
  {}

  /** The name and the records of one answer. */
  datatype Answer = Answer(service: CString, proto: CString, instance: CString, host: CString, port: nat,
                           txt: seq<TxtItem>, ptrTtl: nat, srvTtl: nat, txtTtl: nat)
  {
    function Records(): seq<Record> {
      [PtrRec(service, proto, instance, ptrTtl), SrvRec(instance, service, proto, host, port, srvTtl),
       TxtRec(instance, service, proto, txt, txtTtl)]
    }

    function EntryAt(at: Where, id: nat): Entry {
      Entry(id, at, instance, Some(host), port, txt, [], NewTtl(NewTtl(ptrTtl, srvTtl), txtTtl))
    }
  }

  /** An instance no cache entry is for, on a host no entry is on. */
  predicate IsNew(entries: seq<Entry>, at: Where, a: Answer) {
    a.instance != [] && a.host != [] && Find(entries, at, a.instance) == |entries| && HostUnknown(entries, a.host)
  }

  /** PTR, SRV and TXT make the entry. */
  lemma RecordsMakeEntry(w: Work, c: Cache, at: Where, a: Answer)
    requires w.changed == [] && c.service != [] && c.proto != [] && IsNew(w.entries, at, a)
    ensures var rs := a.Records();
            Enter(Enter(Enter(w, c, at, rs[0]), c, at, rs[1]), c, at, rs[2])
            == Work([a.EntryAt(at, w.nextId)] + w.entries, [w.nextId], w.nextId + 1)
  {
    hide EqNoCase, CopiedAddrs, TxtChanged;
    EqSelf(a.instance);
    var id := w.nextId;
    var e1 := Entry(id, at, a.instance, None, 0, [], [], a.ptrTtl);
    var w1 := Enter(w, c, at, a.Records()[0]);
    assert w1 == Work([e1] + w.entries, [id], id + 1);
    assert Find(w1.entries, at, a.instance) == 0;
    var e2 := e1.(hostname := Some(a.host), port := a.port);
    var now := w1.entries[0 := e2];
    forall x | x in now
      ensures x.addrs == [] || !SameHost(e2.hostname, x.hostname)
    {
      assert now == [e2] + w.entries;
    }
    NothingToCopy(now, e2);
    var w2 := Enter(w1, c, at, a.Records()[1]);
    var e2' := e2.(ttl := NewTtl(a.ptrTtl, a.srvTtl));
    assert w2 == Work([e2'] + w.entries, [id], id + 1);
    assert Find(w2.entries, at, a.instance) == 0;
    var w3 := Enter(w2, c, at, a.Records()[2]);
    assert w3.entries == [a.EntryAt(at, id)] + w.entries;
  }

  // ---------- The whole packet ----------

  lemma ReverseLength<T>(s: seq<T>)
    ensures |Reverse(s)| == |s|
  {
    if s != [] {
      ReverseAt(s, 0);
    }
  }

  lemma {:induction false} IpsAt(staged: seq<Staged>)
    ensures |Ips(staged)| == |staged| && forall k :: 0 <= k < |staged| ==> Ips(staged)[k] == staged[k].ip
    decreases |staged|
  {
    if staged != [] {
      IpsAt(staged[1..]);
    }
  }

  /** Staged in reverse and put in front one by one, the addresses are in the order of the packet again. */
  lemma ReversedTwice(staged: seq<Staged>)
    ensures Reverse(Ips(Reverse(staged))) == Ips(staged)
  {
    var r := Reverse(staged);
    ReverseLength(staged);
    IpsAt(staged);
    IpsAt(r);
    ReverseLength(Ips(r));
    forall k | 0 <= k < |staged|
      ensures Reverse(Ips(r))[k] == Ips(staged)[k]
    {
      ReverseAt(Ips(r), k);
      ReverseAt(staged, |staged| - 1 - k);
    }
  }

  predicate DistinctIps(staged: seq<Staged>) {
    forall i, j :: 0 <= i < j < |staged| ==> staged[i].ip != staged[j].ip
  }

  lemma {:induction false} DistinctAreNew(staged: seq<Staged>, have: seq<Addr>)
    requires DistinctIps(staged) && forall i :: 0 <= i < |staged| ==> staged[i].ip !in have
    ensures AllNew(staged, have)
    decreases |staged|
  {
    if staged != [] {
      DistinctAreNew(staged[1..], [staged[0].ip] + have);
    }
  }

  lemma ReversedAreNew(staged: seq<Staged>)
    requires DistinctIps(staged)
    ensures AllNew(Reverse(staged), [])
    ensures forall x :: x in Reverse(staged) ==> x in staged
  {
    var r := Reverse(staged);
    ReverseLength(staged);
    forall k | 0 <= k < |r|
      ensures r[k] == staged[|r| - 1 - k]
    {
      ReverseAt(staged, k);
    }
    DistinctAreNew(r, []);
  }

  /** The records of an answer with the addresses of its host anywhere after the first of them, for a browse of
   * that service; no other browse is on that host. */
  ghost predicate Complete(caches: seq<Cache>, b: nat, at: Where, a: Answer, recs: seq<Record>) {
    && a.service != [] && a.proto != [] && FindService(caches, a.service, a.proto) == b < |caches|
    && (forall i :: 0 <= i < |caches| && i != b ==> !KnowsHost(caches[i].entries, at, a.host))
    && Others(recs) == a.Records() && !recs[0].IpRec?
    && DistinctIps(Addresses(recs, at))
    && forall x :: x in Addresses(recs, at) ==> x.host == a.host
  }

  /** Every record is among the others or among the addresses. */
  lemma {:induction false} RecordsSplit(recs: seq<Record>, at: Where, rec: Record)
    requires rec in recs
    ensures if rec.IpRec? then Staged(rec.host, rec.ip, at, rec.ttl) in Addresses(recs, at) else rec in Others(recs)
    decreases |recs|
  {
    if rec != recs[0] {
      RecordsSplit(recs[1..], at, rec);
    }
  }

  lemma CompleteIsSingle(caches: seq<Cache>, b: nat, at: Where, a: Answer, recs: seq<Record>)
    requires Complete(caches, b, at, a, recs)
    ensures Single(caches, b, at, recs) && Opens(caches, b, at, recs[0])
    ensures forall rec :: rec in a.Records() ==> FindBrowse(caches, at, rec) == b
  {
    hide KnowsHost, FindService;
    OtherFirst(recs, at);
    forall rec | rec in recs
      ensures if rec.IpRec? then rec.host == a.host else rec in a.Records()
    {
      RecordsSplit(recs, at, rec);
    }
  }

  lemma {:induction false} AddressesAreAt(recs: seq<Record>, at: Where)
    ensures forall x :: x in Addresses(recs, at) ==> x.at == at
    decreases |recs|
  {
    if recs != [] {
      AddressesAreAt(recs[1..], at);
    }
  }

  lemma AnswerEntered(w: Work, caches: seq<Cache>, b: nat, at: Where, a: Answer)
    requires b < |caches| && forall rec :: rec in a.Records() ==> FindBrowse(caches, at, rec) == b
    ensures var rs := a.Records();
            EnterAll(w, caches, b, at, rs)
            == Enter(Enter(Enter(w, caches[b], at, rs[0]), caches[b], at, rs[1]), caches[b], at, rs[2])
  {
    hide Enter, FindBrowse;
    var rs := a.Records();
    assert rs[0] in rs && rs[1] in rs && rs[2] in rs;
    var w1 := Enter(w, caches[b], at, rs[0]);
    var w2 := Enter(w1, caches[b], at, rs[1]);
    assert EnterAll(w2, caches, b, at, rs[2..]) == Enter(w2, caches[b], at, rs[2]) by {
      assert rs[2..][1..] == [];
    }
    assert EnterAll(w1, caches, b, at, rs[1..]) == EnterAll(w2, caches, b, at, rs[2..]) by {
      assert rs[1..][1..] == rs[2..];
    }
  }

  /** What the addresses of the packet add to the new entry. */
  lemma AddressesReachEntry(w: Work, at: Where, e: Entry, staged: seq<Staged>)
    requires w.entries != [] && w.entries[0] == e && e.id in w.changed && e.addrs == [] && e.at == at
    requires Given(e.hostname)
    requires DistinctIps(staged) && forall x :: x in staged ==> x.at == at && e.hostname == Some(x.host)
    ensures Apply(w, Reverse(staged)) ==
              w.(entries := [e.(addrs := Ips(staged), ttl := FoldTtl(e.ttl, Ttls(Reverse(staged))))] + w.entries[1..])
  {
    ReversedAreNew(staged);
    EqSelf(e.hostname.value);
    ApplyToFirst(w, Reverse(staged));
    ReversedTwice(staged);
    assert Ips(staged) + e.addrs == Ips(staged);
  }

  lemma ForSelf(caches: seq<Cache>, b: nat, a: Answer)
    requires a.service != [] && a.proto != [] && FindService(caches, a.service, a.proto) == b < |caches|
    ensures caches[b].service != [] && caches[b].proto != []
  {}

  /** A packet that answers for a new service, whatever the order of its addresses: the cache gets exactly one
   * entry, with the host, port and TXT data of the records and all the addresses in the packet's order, and that
   * entry is the one change reported. */
  lemma CompleteAnswer(caches: seq<Cache>, nextId: nat, b: nat, at: Where, a: Answer, recs: seq<Record>)
    requires Complete(caches, b, at, a, recs) && IsNew(caches[b].entries, at, a)
    ensures var staged := Addresses(recs, at);
            var e := a.EntryAt(at, nextId).(addrs := Ips(staged),
              ttl := FoldTtl(a.EntryAt(at, nextId).ttl, Ttls(Reverse(staged))));
            Packet(caches, nextId, at, recs) ==
              Parse(caches[b := caches[b].(entries := [e] + caches[b].entries)], Some(b), Some(b), [nextId], [],
                nextId + 1)
  {
    hide FindBrowse, Packet, Single, EnterAll, Apply, Enter, Find, HostUnknown, Opens, KnowsHost, FindService;
    CompleteIsSingle(caches, b, at, a, recs);
    ForSelf(caches, b, a);
    PacketIs(caches, nextId, b, at, recs);
    var w := Work(caches[b].entries, [], nextId);
    AnswerEntered(w, caches, b, at, a);
    RecordsMakeEntry(w, caches[b], at, a);
    AddressesAreAt(recs, at);
    AddressesReachEntry(Work([a.EntryAt(at, nextId)] + w.entries, [nextId], nextId + 1), at, a.EntryAt(at, nextId),
      Addresses(recs, at));
  }

  // ---------- A known service ----------

  /** The entry of an instance after an SRV record: its host is the record's, and its port is exactly when the
   * entry was new, on another host, or had that port already. */
  lemma SrvIsHeard(w: Work, at: Where, instance: CString, host: CString, port: nat, ttl: nat)
    requires instance != [] && host != []
    ensures var j := Find(w.entries, at, instance);
            var t := AddSrv(w, at, instance, host, port, ttl);
            var i := Find(t.entries, at, instance);
            && i < |t.entries| && SameHost(Some(host), t.entries[i].hostname)
            && (t.entries[i].port == port <==>
                  j == |w.entries| || !SameHost(Some(host), w.entries[j].hostname) || w.entries[j].port == port)
  {
    hide EqNoCase, CopiedAddrs;
    var j := Find(w.entries, at, instance);
    var t := AddSrv(w, at, instance, host, port, ttl);
    EqSelf(instance);
    EqSelf(host);
    if j < |w.entries| {
      FindReplaced(w.entries, at, instance, t.entries[j]);
    }
  }

  lemma {:induction false} FindReplaced(entries: seq<Entry>, at: Where, instance: CString, e: Entry)
    requires var i := Find(entries, at, instance);
             i < |entries| && e.at == entries[i].at && e.instance == entries[i].instance
    ensures var i := Find(entries, at, instance); Find(entries[i := e], at, instance) == i
    decreases |entries|
  {
    hide EqNoCase;
    var i := Find(entries, at, instance);
    if i > 0 {
      FindReplaced(entries[1..], at, instance, e);
      assert entries[i := e][1..] == entries[1..][i - 1 := e];
    }
  }
}
