/** What each record does to a cache, and which cache: the entry it goes to, what that entry says afterwards, and when
 * the entry is reported as changed (mdns_browser.c:239-402, 497-796; mdns_receive.c:819-872). */
module BrowseRecords {
  import opened Bytes
  import opened Browse

  // ---------- Entries ----------

  predicate OfInstance(e: Entry, at: Where, instance: CString) {
    e.at == at && e.instance != [] && EqNoCase(instance, e.instance)
  }

  predicate FirstOf(entries: seq<Entry>, at: Where, instance: CString, i: nat) {
    i < |entries| && OfInstance(entries[i], at, instance)
    && forall j :: 0 <= j < i ==> !OfInstance(entries[j], at, instance)
  }

  predicate NoneOf(entries: seq<Entry>, at: Where, instance: CString) {
    forall e :: e in entries ==> !OfInstance(e, at, instance)
  }

  predicate OnHost(e: Entry, host: CString) {
    host != [] && e.hostname.Some? && e.hostname.value != [] && EqNoCase(host, e.hostname.value)
  }

  /** The lesser time to live, where zero is none. */
  function TtlAfter(was: nat, ttl: nat): nat {
    if was == 0 || ttl < was then ttl else was
  }

  predicate Reports(w: Work, t: Work, id: nat, reported: bool) {
    t.changed == if reported && id !in w.changed then [id] + w.changed else w.changed
  }

  /** One entry becomes another; the rest of the cache stays. */
  predicate Turns(w: Work, t: Work, i: nat, e: Entry, reported: bool) {
    && i < |w.entries| && t.entries == w.entries[i := e] && t.nextId == w.nextId
    && Reports(w, t, w.entries[i].id, reported)
  }

  /** One new entry in front, which is reported. */
  predicate Begins(w: Work, t: Work, e: Entry) {
    t.entries == [e] + w.entries && t.nextId == w.nextId + 1 && Reports(w, t, w.nextId, true)
  }

  predicate Named(c: Cache) {
    c.service != [] && c.proto != []
  }

  lemma FindIs(entries: seq<Entry>, at: Where, instance: CString)
    ensures var k := Find(entries, at, instance);
            && (k < |entries| <==> !NoneOf(entries, at, instance))
            && forall i: nat :: FirstOf(entries, at, instance, i) <==> i == k && k < |entries|
  {
    hide EqNoCase;
    var k := Find(entries, at, instance);
    if k < |entries| {
      assert entries[k] in entries && IsInstance(entries[k], at, instance);
    }
    forall i: nat | FirstOf(entries, at, instance, i)
      ensures i == k && k < |entries|
    {
      assert IsInstance(entries[i], at, instance);
    }
  }

  // ---------- PTR ----------

  /** A pointer to a known instance may lower its time to live, and is reported exactly then; to a new one, it begins
   * an entry. */
  lemma PointerHeard(w: Work, c: Cache, at: Where, service: CString, proto: CString, instance: CString, ttl: nat)
    requires Named(c) && instance != []
    ensures var t := Enter(w, c, at, PtrRec(service, proto, instance, ttl));
            && (forall i: nat :: FirstOf(w.entries, at, instance, i) ==>
                  var e := w.entries[i]; var now := TtlAfter(e.ttl, ttl);
                  Turns(w, t, i, e.(ttl := now), now != e.ttl))
            && (NoneOf(w.entries, at, instance) ==>
                  Begins(w, t, Entry(w.nextId, at, instance, None, 0, [], [], ttl)))
  {
    hide Find, FirstOf, NoneOf;
    FindIs(w.entries, at, instance);
  }

  // ---------- TXT ----------

  /** The first item of that key is the same. */
  predicate SaidBefore(item: TxtItem, was: seq<TxtItem>) {
    exists i :: 0 <= i < |was| && was[i] == item && forall j :: 0 <= j < i ==> was[j].key != item.key
  }

  /** The data change: there were some, and they were more or fewer items, or one of the items now is not the first of
   * its key among them. */
  predicate TextDiffers(txt: seq<TxtItem>, was: seq<TxtItem>) {
    was != [] && (|txt| != |was| || exists item :: item in txt && !SaidBefore(item, was))
  }

  lemma {:induction false} KnownIff(item: TxtItem, was: seq<TxtItem>)
    ensures TxtKnown(item, was) <==> SaidBefore(item, was)
    decreases |was|
  {
    if was != [] {
      var rest := was[1..];
      KnownIff(item, rest);
      if was[0].key == item.key {
        if was[0].value == item.value {
          assert was[0] == item;
        }
      } else {
        OneOn(item, was);
      }
    }
  }

  lemma OneOn(item: TxtItem, was: seq<TxtItem>)
    requires was != [] && was[0].key != item.key
    ensures SaidBefore(item, was) <==> SaidBefore(item, was[1..])
  {
    var rest := was[1..];
    if SaidBefore(item, rest) {
      var i :| 0 <= i < |rest| && rest[i] == item && forall j :: 0 <= j < i ==> rest[j].key != item.key;
      assert was[i + 1] == item && forall j :: 0 < j < i + 1 ==> was[j] == rest[j - 1];
    }
    if SaidBefore(item, was) {
      var i :| 0 <= i < |was| && was[i] == item && forall j :: 0 <= j < i ==> was[j].key != item.key;
      assert rest[i - 1] == item && forall j :: 0 <= j < i - 1 ==> rest[j] == was[j + 1];
    }
  }

  lemma ChangedIff(txt: seq<TxtItem>, was: seq<TxtItem>)
    ensures TxtChanged(txt, was) <==> TextDiffers(txt, was)
  {
    hide TxtKnown, SaidBefore;
    forall item
      ensures TxtKnown(item, was) <==> SaidBefore(item, was)
    {
      KnownIff(item, was);
    }
  }

  /** TXT data replace those an entry has, item by item as the record has them; that is reported exactly when there
   * were some and they differ, or when the time to live changes. */
  lemma TextHeard(w: Work, c: Cache, at: Where, service: CString, proto: CString, instance: CString,
                  txt: seq<TxtItem>, ttl: nat)
    requires Named(c) && instance != []
    ensures var t := Enter(w, c, at, TxtRec(instance, service, proto, txt, ttl));
            && (forall i: nat :: FirstOf(w.entries, at, instance, i) ==>
                  var e := w.entries[i]; var now := TtlAfter(e.ttl, ttl);
                  Turns(w, t, i, e.(txt := txt, ttl := now), TextDiffers(txt, e.txt) || now != e.ttl))
            && (NoneOf(w.entries, at, instance) ==>
                  Begins(w, t, Entry(w.nextId, at, instance, None, 0, txt, [], ttl)))
  {
    hide Find, FirstOf, NoneOf, TxtChanged, TextDiffers;
    FindIs(w.entries, at, instance);
    var k := Find(w.entries, at, instance);
    if k < |w.entries| {
      ChangedIff(txt, w.entries[k].txt);
    }
  }

  // ---------- SRV ----------

  /** An entry whose addresses a new entry of the host can take over. */
  predicate Lends(e: Entry, host: CString, v6: bool) {
    OnHost(e, host) && e.at.v6 == v6 && e.addrs != []
  }

  predicate FirstLender(entries: seq<Entry>, host: CString, v6: bool, k: nat) {
    k < |entries| && Lends(entries[k], host, v6) && forall j :: 0 <= j < k ==> !Lends(entries[j], host, v6)
  }

  /** The addresses of an entry that has come to a host: its own, or those of the first other that can lend some. */
  ghost predicate MovedAddrs(entries: seq<Entry>, e: Entry, host: CString, addrs: seq<Addr>) {
    if e.addrs != [] then addrs == e.addrs
    else
      && (forall k: nat :: FirstLender(entries, host, e.at.v6, k) ==> addrs == entries[k].addrs)
      && ((forall x :: x in entries ==> !Lends(x, host, e.at.v6)) ==> addrs == [])
  }

  lemma {:induction false} CopiedIs(entries: seq<Entry>, e: Entry, host: CString)
    requires e.hostname == Some(host)
    ensures MovedAddrs(entries, e, host, CopiedAddrs(entries, e))
    decreases |entries|
  {
    hide EqNoCase;
    if entries != [] && e.addrs == [] {
      var rest := entries[1..];
      CopiedIs(rest, e, host);
      HostsSwap(entries[0], e, host);
      assert entries[0] in entries && forall x :: x in rest ==> x in entries;
      forall k: nat | FirstLender(entries, host, e.at.v6, k)
        ensures CopiedAddrs(entries, e) == entries[k].addrs
      {
        if k > 0 {
          assert !Lends(entries[0], host, e.at.v6);
          assert forall j :: 0 <= j < k - 1 ==> rest[j] == entries[j + 1];
          assert FirstLender(rest, host, e.at.v6, k - 1);
        }
      }
      if !Lends(entries[0], host, e.at.v6) && forall x :: x in entries ==> !Lends(x, host, e.at.v6) {
        assert CopiedAddrs(rest, e) == [];
      }
    }
  }

  lemma HostsSwap(x: Entry, e: Entry, host: CString)
    requires e.hostname == Some(host)
    ensures SameHost(x.hostname, e.hostname) == OnHost(x, host)
  {}

  /** Giving an entry without addresses another host changes no lender. */
  lemma SameLenders(entries: seq<Entry>, i: nat, e: Entry, x: Entry, host: CString, addrs: seq<Addr>)
    requires i < |entries| && entries[i].addrs == [] && e.addrs == []
    requires MovedAddrs(entries[i := e], x, host, addrs)
    ensures MovedAddrs(entries, x, host, addrs)
  {
    hide EqNoCase;
    var now := entries[i := e];
    assert forall j :: 0 <= j < |entries| ==> Lends(now[j], host, x.at.v6) == Lends(entries[j], host, x.at.v6);
    forall k: nat | FirstLender(entries, host, x.at.v6, k)
      ensures FirstLender(now, host, x.at.v6, k) && now[k] == entries[k]
    {}
    if forall y :: y in entries ==> !Lends(y, host, x.at.v6) {
      assert forall y :: y in now ==> !Lends(y, host, x.at.v6);
    }
  }

  /** An SRV record of a known instance on its host may lower its time to live, and is reported exactly then.  On
   * another host it gives the entry that host and port, and addresses if it had none, and is reported.  For a new
   * instance it begins an entry. */
  lemma ServiceHeard(w: Work, c: Cache, at: Where, instance: CString, service: CString, proto: CString, host: CString,
                     port: nat, ttl: nat)
    requires Named(c) && instance != []
    ensures var t := Enter(w, c, at, SrvRec(instance, service, proto, host, port, ttl));
            && (forall i: nat :: FirstOf(w.entries, at, instance, i) ==>
                  var e := w.entries[i]; var now := TtlAfter(e.ttl, ttl);
                  if OnHost(e, host) then Turns(w, t, i, e.(ttl := now), now != e.ttl)
                  else
                    exists addrs :: MovedAddrs(w.entries, e, host, addrs)
                      && Turns(w, t, i, e.(hostname := Some(host), port := port, addrs := addrs, ttl := now), true))
            && (NoneOf(w.entries, at, instance) ==>
                  Begins(w, t, Entry(w.nextId, at, instance, Some(host), port, [], [], ttl)))
  {
    hide Find, FirstOf, NoneOf, CopiedAddrs, MovedAddrs, EqNoCase;
    FindIs(w.entries, at, instance);
    var i := Find(w.entries, at, instance);
    if i < |w.entries| {
      var e := w.entries[i];
      assert SameHost(Some(host), e.hostname) == OnHost(e, host);
      if !OnHost(e, host) {
        var e1 := e.(hostname := Some(host), port := port);
        var addrs := CopiedAddrs(w.entries[i := e1], e1);
        CopiedIs(w.entries[i := e1], e1, host);
        MovedFrom(w.entries, i, e1, host, addrs);
        var t := Enter(w, c, at, SrvRec(instance, service, proto, host, port, ttl));
        var now := TtlAfter(e.ttl, ttl);
        assert Turns(w, t, i, e.(hostname := Some(host), port := port, addrs := addrs, ttl := now), true);
      }
    }
  }

  lemma MovedFrom(entries: seq<Entry>, i: nat, e: Entry, host: CString, addrs: seq<Addr>)
    requires i < |entries| && e.addrs == entries[i].addrs && e.at == entries[i].at
    requires MovedAddrs(entries[i := e], e, host, addrs)
    ensures MovedAddrs(entries, entries[i], host, addrs)
  {
    if e.addrs == [] {
      SameLenders(entries, i, e, e, host, addrs);
    }
  }

  // ---------- Addresses ----------

  /** An entry on the host at the place that has not got the address. */
  predicate Lacks(e: Entry, x: Staged) {
    e.at == x.at && OnHost(e, x.host) && x.ip !in e.addrs
  }

  lemma {:induction false} LackingIs(entries: seq<Entry>, x: Staged)
    ensures var k := FindLacking(entries, x.at, x.host, x.ip);
            && (k < |entries| ==> Lacks(entries[k], x))
            && forall j :: 0 <= j < k ==> !Lacks(entries[j], x)
    decreases |entries|
  {
    hide EqNoCase;
    if entries != [] {
      LackingIs(entries[1..], x);
      assert forall j :: 0 < j < |entries| ==> entries[j] == entries[1..][j - 1];
    }
  }

  /** An address goes to the first entry of its host at its place that has not got it, in front of those it has, and
   * that is reported; if there is none, it changes nothing. */
  lemma AddressHeard(w: Work, x: Staged)
    ensures var t := Apply(w, [x]);
            && (forall i: nat ::
                  i < |w.entries| && Lacks(w.entries[i], x) && (forall j :: 0 <= j < i ==> !Lacks(w.entries[j], x)) ==>
                  var e := w.entries[i];
                  Turns(w, t, i, e.(addrs := [x.ip] + e.addrs, ttl := TtlAfter(e.ttl, x.ttl)), true))
            && ((forall e :: e in w.entries ==> !Lacks(e, x)) ==> t == w)
  {
    hide FindLacking, Lacks;
    LackingIs(w.entries, x);
    assert [x][1..] == [];
    assert Apply(w, [x]) == Apply(AddIp(w, x), []) == AddIp(w, x);
  }

  /** No record of a browse without a type, or of an instance without a name, changes anything. */
  lemma NothingHeard(w: Work, c: Cache, at: Where, rec: Record)
    requires !Named(c) || rec.IpRec? || rec.instance == []
    ensures Enter(w, c, at, rec) == w
  {}

  // ---------- Which cache ----------

  predicate Serves(c: Cache, service: CString, proto: CString) {
    EqNoCase(service, c.service) && EqNoCase(proto, c.proto)
  }

  /** The cache is one the record is for: of its service and protocol, or with an entry on its host at the place. */
  predicate IsOf(c: Cache, at: Where, rec: Record) {
    match rec
    case PtrRec(service, proto, _, _) => service != [] && proto != [] && Serves(c, service, proto)
    case SrvRec(_, service, proto, _, _, _) => Serves(c, service, proto)
    case TxtRec(_, service, proto, _, _) => Serves(c, service, proto)
    case IpRec(host, _, _) => exists e :: e in c.entries && e.at == at && OnHost(e, host)
  }

  lemma {:induction false} ServiceIsFirst(caches: seq<Cache>, service: CString, proto: CString)
    ensures forall j :: 0 <= j < FindService(caches, service, proto) ==> !Serves(caches[j], service, proto)
    decreases |caches|
  {
    hide EqNoCase;
    if caches != [] {
      ServiceIsFirst(caches[1..], service, proto);
      assert forall j :: 0 < j < |caches| ==> caches[j] == caches[1..][j - 1];
    }
  }

  /** A record is for the first cache it can be for. */
  lemma RecordIsFor(caches: seq<Cache>, at: Where, rec: Record)
    ensures var b := FindBrowse(caches, at, rec);
            && (b < |caches| ==> IsOf(caches[b], at, rec)) && forall j :: 0 <= j < b ==> !IsOf(caches[j], at, rec)
  {
    hide EqNoCase, FindService, FindHost;
    if rec.IpRec? {
      assert forall c: Cache :: IsOf(c, at, rec) <==> KnowsHost(c.entries, at, rec.host) by {
        hide KnowsHost;
        forall c: Cache
          ensures IsOf(c, at, rec) <==> KnowsHost(c.entries, at, rec.host)
        {
          KnowsIs(c, at, rec);
        }
      }
    } else {
      ServiceIsFirst(caches, rec.service, rec.proto);
    }
  }

  lemma KnowsIs(c: Cache, at: Where, rec: Record)
    requires rec.IpRec?
    ensures IsOf(c, at, rec) <==> KnowsHost(c.entries, at, rec.host)
  {
    hide EqNoCase;
    if e :| e in c.entries && e.at == at && OnHost(e, rec.host) {
      assert SameHost(Some(rec.host), e.hostname);
    }
    if e :| e in c.entries && e.at == at && SameHost(Some(rec.host), e.hostname) {
      assert OnHost(e, rec.host);
    }
  }

  // ---------- Packets for several browses ----------

  /** The browse the first record that is for one is for. */
  function FirstBrowse(caches: seq<Cache>, at: Where, recs: seq<Record>): Option<nat> {
    if recs == [] then None
    else if FindBrowse(caches, at, recs[0]) < |caches| then Some(FindBrowse(caches, at, recs[0]))
    else FirstBrowse(caches, at, recs[1..])
  }

  /** Only cache `b` may differ. */
  predicate OthersSame(caches: seq<Cache>, now: seq<Cache>, b: Option<nat>) {
    |now| == |caches| && forall i :: 0 <= i < |caches| && b != Some(i) ==> now[i] == caches[i]
  }

  /** One record: it is for a browse or for none, and the first browse of the packet is the one whose cache it can
   * change.  An address waits for the end of the packet if a record for a browse came before it or its host is known;
   * the last one waits in front. */
  lemma ReadTells(p: Parse, at: Where, rec: Record)
    ensures var q := Read(p, at, rec); var b := FindBrowse(p.caches, at, rec);
            && q.sync == (if p.sync.Some? || b == |p.caches| then p.sync else Some(b))
            && q.packet == (if b < |p.caches| then Some(b) else p.packet)
            && OthersSame(p.caches, q.caches, q.sync)
            && (rec.IpRec? ==>
                  && q.caches == p.caches && q.changed == p.changed && q.nextId == p.nextId
                  && q.staged == (if q.packet.Some? then [Staged(rec.host, rec.ip, at, rec.ttl)] else []) + p.staged)
            && (!rec.IpRec? ==>
                  && q.staged == p.staged
                  && (b < |p.caches| && q.sync == Some(b) ==>
                        WorkOn(q, b) == Enter(WorkOn(p, b), p.caches[b], at, rec))
                  && (b < |p.caches| && q.sync != Some(b) ==> q.caches == p.caches && q.changed == p.changed))
  {
    hide FindBrowse, Enter;
    assert [] + p.staged == p.staged;
  }

  /** The end of a packet: the addresses that wait are applied if the browse the packet was last found to be for is the
   * first, and are lost otherwise. */
  lemma EndTells(p: Parse, b: nat)
    requires p.sync == Some(b) && b < |p.caches|
    ensures var q := Finish(p);
            && q.staged == [] && OthersSame(p.caches, q.caches, Some(b))
            && WorkOn(q, b) == if p.packet == Some(b) then Apply(WorkOn(p, b), p.staged) else WorkOn(p, b)
  {
    hide Apply;
  }

  lemma {:induction false} AllReadTells(p: Parse, at: Where, recs: seq<Record>)
    ensures var q := ReadAll(p, at, recs);
            && q.sync == (if p.sync.Some? then p.sync else FirstBrowse(p.caches, at, recs))
            && OthersSame(p.caches, q.caches, q.sync)
    decreases |recs|
  {
    hide Read, FindBrowse;
    if recs != [] {
      ReadTells(p, at, recs[0]);
      var q := Read(p, at, recs[0]);
      if q.sync == None {
        assert q.caches == p.caches;
      }
      AllReadTells(Read(p, at, recs[0]), at, recs[1..]);
    }
  }

  /** Whatever a packet holds, only the cache of the browse its first record that is for one is for can change. */
  lemma OnlyTheFirstChanges(caches: seq<Cache>, nextId: nat, at: Where, recs: seq<Record>)
    ensures var q := Packet(caches, nextId, at, recs);
            q.sync == FirstBrowse(caches, at, recs) && OthersSame(caches, q.caches, q.sync) && q.staged == []
  {
    hide ReadAll, FindBrowse, Apply;
    AllReadTells(Parse(caches, None, None, [], [], nextId), at, recs);
  }
}
