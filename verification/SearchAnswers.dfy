/** What a one-shot search for the instances of a service has found after an answer: PTR, SRV and TXT records in any
 * order make one result, while the order of addresses matters. */
module SearchAnswers {
  import opened Bytes
  import opened Searches

  /** The instance of an answer, and what its records say. */
  datatype Answer = Answer(instance: CString, host: CString, port: nat, txt: nat)
  {
    predicate Has(rec: Record) {
      rec == PtrRec(instance) || rec == SrvRec(instance, host, port) || rec == TxtRec(instance, txt)
    }

    function ResultAt(at: Where, ttl: nat): Result {
      Result(at, Some(instance), Some(host), port, Some(txt), [], ttl)
    }
  }

  /** A record with its TTL. */
  type Timed = (Record, nat)

  function FoundAll(s: Search, at: Where, recs: seq<Timed>): Search
    decreases |recs|
  {
    if recs == [] then s else FoundAll(Found(s, at, recs[0].0, recs[0].1), at, recs[1..])
  }

  /** What a record does to the result of its instance. */
  function Noted(r: Result, rec: Record, ttl: nat): Result {
    match rec
    case PtrRec(_) => r.(ttl := Least(r.ttl, ttl))
    case SrvRec(_, host, port) => if r.hostname.None? then r.(port := port, hostname := Some(host)) else r
    case TxtRec(_, txt) => if r.txt.None? then r.(txt := Some(txt)) else r
    case IpRec(_, _) => r
  }

  lemma KnownInstance(s: Search, at: Where, a: Answer, rec: Record, ttl: nat)
    requires s.kind.OfPtr? && a.instance != [] && a.Has(rec)
    requires s.results != [] && s.results[0].at == at && s.results[0].instance == Some(a.instance)
    ensures Found(s, at, rec, ttl) == s.(results := [Noted(s.results[0], rec, ttl)] + s.results[1..])
  {
    hide EqNoCase;
    EqSelf(a.instance);
    assert s.results == [s.results[0]] + s.results[1..];
  }

  lemma NewInstance(s: Search, at: Where, a: Answer, rec: Record, ttl: nat)
    requires s.kind.OfPtr? && a.instance != [] && a.Has(rec) && HasRoom(s)
    requires First(s.results, at, Instance(a.instance)) == |s.results|
    ensures Found(s, at, rec, ttl) == Prepend(s, Noted(Result(at, Some(a.instance), None, 0, None, [], ttl), rec, ttl))
  {
    hide EqNoCase, First;
    EqSelf(a.instance);
    var i := First(s.results, at, Exact(a.instance));
    assert i < |s.results| ==> Matches(s.results[i], at, Instance(a.instance));
  }

  lemma ThreeFound(s: Search, at: Where, x: Timed, y: Timed, z: Timed)
    ensures FoundAll(s, at, [x, y, z]) == Found(Found(Found(s, at, x.0, x.1), at, y.0, y.1), at, z.0, z.1)
  {
    hide Found;
    var s1 := Found(s, at, x.0, x.1);
    var s2 := Found(s1, at, y.0, y.1);
    assert [x, y, z][1..] == [y, z] && [y, z][1..] == [z] && [z][1..] == [];
    assert FoundAll(s2, at, [z]) == Found(s2, at, z.0, z.1);
    assert FoundAll(s1, at, [y, z]) == FoundAll(s2, at, [z]);
  }

  /** The three records of an answer, in any order, the TXT record with items: one new result with the host, the
   * port and the TXT data, in front of those before.  Its TTL is that of the first record, or of the PTR record if
   * that is less. */
  lemma AnswerInAnyOrder(s: Search, at: Where, a: Answer, x: Timed, y: Timed, z: Timed, ptrTtl: nat)
    requires s.kind.OfPtr? && a.instance != [] && HasRoom(s)
    requires First(s.results, at, Instance(a.instance)) == |s.results|
    requires var recs := [x.0, y.0, z.0];
             PtrRec(a.instance) in recs && SrvRec(a.instance, a.host, a.port) in recs
               && TxtRec(a.instance, a.txt) in recs
    requires (PtrRec(a.instance), ptrTtl) in [x, y, z]
    ensures FoundAll(s, at, [x, y, z]) == Prepend(s, a.ResultAt(at, Least(x.1, ptrTtl)))
  {
    hide Found, First;
    ThreeFound(s, at, x, y, z);
    var r1 := Noted(Result(at, Some(a.instance), None, 0, None, [], x.1), x.0, x.1);
    NewInstance(s, at, a, x.0, x.1);
    var s1 := Prepend(s, r1);
    KnownInstance(s1, at, a, y.0, y.1);
    var r2 := Noted(r1, y.0, y.1);
    var s2 := s1.(results := [r2] + s.results);
    assert s1.results[1..] == s.results && s2.results[1..] == s.results;
    KnownInstance(s2, at, a, z.0, z.1);
    assert Noted(r2, z.0, z.1) == a.ResultAt(at, Least(x.1, ptrTtl));
  }

  // ---------- Addresses ----------

  /** A result at the place is on the host. */
  predicate HostKnown(s: Search, at: Where, host: CString) {
    exists r :: r in s.results && Matches(r, at, Host(host))
  }

  predicate AddressKnown(s: Search, at: Where, host: CString, ip: Addr) {
    exists r :: r in s.results && Matches(r, at, Host(host)) && ip in r.addrs
  }

  lemma FirstIsKnown(s: Search, at: Where, host: CString)
    ensures First(s.results, at, Host(host)) < |s.results| <==> HostKnown(s, at, host)
  {
    hide Matches;
    var i := First(s.results, at, Host(host));
    if r :| r in s.results && Matches(r, at, Host(host)) {
      var j :| 0 <= j < |s.results| && s.results[j] == r;
    }
  }

  /** What one record of a search for services does: it edits a result, keeping its place, its host if it has one and
   * its addresses, or it adds one. */
  ghost predicate Edited(s: Search, t: Search, rec: Record) {
    || t.results == s.results
    || (exists i :: 0 <= i < |s.results| && |t.results| == |s.results| && Kept(s.results[i], t.results[i], rec)
                    && t.results == s.results[i := t.results[i]])
    || (t.results != [] && t.results[1..] == s.results && Fresh(t.results[0], rec))
  }

  /** The only host a result can come by is that of the record. */
  ghost predicate Kept(r: Result, r': Result, rec: Record) {
    && r'.at == r.at && (forall ip :: ip in r.addrs ==> ip in r'.addrs)
    && (r.hostname.Some? ==> r'.hostname == r.hostname)
    && (r'.hostname == r.hostname || (rec.SrvRec? && r'.hostname == Some(rec.host)))
  }

  ghost predicate Fresh(r: Result, rec: Record) {
    r.hostname == None || (rec.SrvRec? && r.hostname == Some(rec.host))
  }

  lemma AddressEdits(s: Search, at: Where, rec: Record, ttl: nat)
    requires s.kind.OfPtr? && rec.IpRec?
    ensures Edited(s, Found(s, at, rec, ttl), rec)
  {
    hide EqNoCase, First;
    var i := First(s.results, at, Host(rec.host));
    var t := Found(s, at, rec, ttl);
    if i < |s.results| {
      assert Kept(s.results[i], t.results[i], rec);
      assert t.results == s.results[i := t.results[i]];
    }
  }

  lemma PointerEdits(s: Search, at: Where, instance: CString, ttl: nat, rec: Record)
    ensures Edited(s, AddPtr(s, at, instance, ttl), rec)
  {
    hide EqNoCase, First;
    var i := First(s.results, at, Instance(instance));
    var t := AddPtr(s, at, instance, ttl);
    if i < |s.results| {
      assert Kept(s.results[i], t.results[i], rec);
      assert t.results == s.results[i := t.results[i]];
    }
  }

  /** SRV and TXT data go to the result of their instance, which may be a new one. */
  lemma DataEdits(s: Search, at: Where, rec: Record, ttl: nat)
    requires s.kind.OfPtr? && (rec.SrvRec? || rec.TxtRec?)
    ensures Edited(s, Found(s, at, rec, ttl), rec)
  {
    hide EqNoCase, First;
    var instance := rec.instance;
    var (u, i) := ForInstance(s, at, instance, ttl);
    var t := Found(s, at, rec, ttl);
    if First(s.results, at, Exact(instance)) < |s.results| {
      assert Kept(s.results[i], t.results[i], rec);
      assert t.results == s.results[i := t.results[i]];
    } else if First(s.results, at, Instance(instance)) < |s.results| {
      assert Kept(s.results[i], t.results[i], rec);
      assert t.results == s.results[i := t.results[i]];
    } else if HasRoom(s) {
      assert t.results[1..] == s.results;
    }
  }

  lemma RecordEdits(s: Search, at: Where, rec: Record, ttl: nat)
    requires s.kind.OfPtr?
    ensures Edited(s, Found(s, at, rec, ttl), rec) && Found(s, at, rec, ttl).kind.OfPtr?
  {
    hide Edited, Found;
    FoundKeepsRest(s, at, rec, ttl);
    match rec
    case PtrRec(instance) => PointerEdits(s, at, instance, ttl, rec); PointerIs(s, at, instance, ttl);
    case SrvRec(_, _, _) => DataEdits(s, at, rec, ttl);
    case TxtRec(_, _) => DataEdits(s, at, rec, ttl);
    case IpRec(_, _) => AddressEdits(s, at, rec, ttl);
  }

  lemma PointerIs(s: Search, at: Where, instance: CString, ttl: nat)
    ensures Found(s, at, PtrRec(instance), ttl) == AddPtr(s, at, instance, ttl)
  {}

  /** A host stays unknown until an SRV record names it, and an address that is known stays so. */
  lemma EditsKeep(s: Search, t: Search, rec: Record, at: Where, host: CString, ip: Addr)
    requires Edited(s, t, rec)
    ensures !HostKnown(s, at, host) && !(rec.SrvRec? && EqNoCase(host, rec.host)) ==> !HostKnown(t, at, host)
    ensures AddressKnown(s, at, host, ip) ==> AddressKnown(t, at, host, ip)
  {
    hide EqNoCase;
    if t.results != [] {
      assert forall r :: r in t.results ==> r == t.results[0] || r in t.results[1..];
    }
    assert forall j :: 0 <= j < |s.results| ==> s.results[j] in s.results;
    if r :| r in s.results && Matches(r, at, Host(host)) && ip in r.addrs {
      var j :| 0 <= j < |s.results| && s.results[j] == r;
      if |t.results| == |s.results| {
        assert t.results[j] in t.results;
      } else {
        assert t.results[1..][j] == r;
      }
    }
  }

  predicate NamesHost(rec: Record, host: CString) {
    rec.SrvRec? && EqNoCase(host, rec.host)
  }

  /** An address is lost when no result is on its host yet and no SRV record before it in the packet names that host:
   * without it, the packet comes to the same. */
  lemma {:induction false} AddressIsLost(s: Search, at: Where, recs: seq<Timed>, i: nat)
    requires s.kind.OfPtr? && i < |recs| && recs[i].0.IpRec? && !HostKnown(s, at, recs[i].0.host)
    requires forall j :: 0 <= j < i ==> !NamesHost(recs[j].0, recs[i].0.host)
    ensures FoundAll(s, at, recs) == FoundAll(s, at, recs[..i] + recs[i + 1..])
    decreases i
  {
    hide Found, Edited, HostKnown, EqNoCase;
    var without := recs[..i] + recs[i + 1..];
    if i == 0 {
      FirstIsKnown(s, at, recs[0].0.host);
      NoHostNoChange(s, at, recs[0].0.host, recs[0].0.ip, recs[0].1);
      assert without == recs[1..];
    } else {
      var t := Found(s, at, recs[0].0, recs[0].1);
      RecordEdits(s, at, recs[0].0, recs[0].1);
      EditsKeep(s, t, recs[0].0, at, recs[i].0.host, recs[i].0.ip);
      assert recs[1..][i - 1] == recs[i] && forall j :: 0 <= j < i - 1 ==> recs[1..][j] == recs[j + 1];
      AddressIsLost(t, at, recs[1..], i - 1);
      assert without[0] == recs[0] && without[1..] == recs[1..][..i - 1] + recs[1..][i..];
    }
  }

  lemma NoHostNoChange(s: Search, at: Where, host: CString, ip: Addr, ttl: nat)
    requires s.kind.OfPtr? && First(s.results, at, Host(host)) == |s.results|
    ensures Found(s, at, IpRec(host, ip), ttl) == s
  {
    hide First;
  }

  lemma {:induction false} AddressStays(s: Search, at: Where, recs: seq<Timed>, host: CString, ip: Addr)
    requires s.kind.OfPtr? && AddressKnown(s, at, host, ip)
    ensures AddressKnown(FoundAll(s, at, recs), at, host, ip)
    decreases |recs|
  {
    hide Found, Edited, AddressKnown;
    if recs != [] {
      var t := Found(s, at, recs[0].0, recs[0].1);
      RecordEdits(s, at, recs[0].0, recs[0].1);
      EditsKeep(s, t, recs[0].0, at, host, ip);
      AddressStays(t, at, recs[1..], host, ip);
    }
  }

  /** An address that comes when a result is on its host is there, and stays whatever follows in the packet. */
  lemma AddressIsTaken(s: Search, at: Where, host: CString, ip: Addr, ttl: nat, rest: seq<Timed>)
    requires s.kind.OfPtr? && HostKnown(s, at, host)
    ensures AddressKnown(FoundAll(s, at, [(IpRec(host, ip), ttl)] + rest), at, host, ip)
  {
    hide Found, First, EqNoCase, HostKnown;
    FirstIsKnown(s, at, host);
    var t := Found(s, at, IpRec(host, ip), ttl);
    TakenByFirst(s, at, host, ip, ttl);
    RecordEdits(s, at, IpRec(host, ip), ttl);
    AddressStays(t, at, rest, host, ip);
    assert ([(IpRec(host, ip), ttl)] + rest)[1..] == rest;
  }

  lemma TakenByFirst(s: Search, at: Where, host: CString, ip: Addr, ttl: nat)
    requires s.kind.OfPtr? && First(s.results, at, Host(host)) < |s.results|
    ensures AddressKnown(Found(s, at, IpRec(host, ip), ttl), at, host, ip)
  {
    hide First, EqNoCase;
    var i := First(s.results, at, Host(host));
    var t := Found(s, at, IpRec(host, ip), ttl);
    assert t.results[i] in t.results;
  }

  /** The same two records, in either order: the address is found only behind the SRV record. */
  lemma AddressNeedsHost(s: Search, at: Where, instance: CString, host: CString, port: nat, ip: Addr, ttl: nat)
    requires s.kind.OfPtr? && HasRoom(s) && instance != [] && host != [] && !HostKnown(s, at, host)
    requires First(s.results, at, Instance(instance)) == |s.results|
    ensures var srv, a := (SrvRec(instance, host, port), ttl), (IpRec(host, ip), ttl);
            && AddressKnown(FoundAll(s, at, [srv, a]), at, host, ip)
            && !AddressKnown(FoundAll(s, at, [a, srv]), at, host, ip)
  {
    hide Found, First, AddressKnown;
    var srv, a := (SrvRec(instance, host, port), ttl), (IpRec(host, ip), ttl);
    NewInstance(s, at, Answer(instance, host, port, 0), srv.0, ttl);
    var t := Found(s, at, srv.0, ttl);
    EqSelf(host);
    assert t.results[0] in t.results;
    AddressIsTaken(t, at, host, ip, ttl, []);
    assert [srv, a][1..] == [a] && [a] + [] == [a];
    AddressIsLost(s, at, [a, srv], 0);
    assert [a, srv][..0] + [a, srv][1..] == [srv] && [srv][1..] == [];
    OnlyFresh(s, t, at, host, ip);
  }

  /** Only the new result is on the host, and it has no address. */
  lemma OnlyFresh(s: Search, t: Search, at: Where, host: CString, ip: Addr)
    requires !HostKnown(s, at, host) && t.results != [] && t.results[1..] == s.results && t.results[0].addrs == []
    ensures !AddressKnown(t, at, host, ip)
  {
    hide EqNoCase;
    assert forall r :: r in t.results ==> r == t.results[0] || r in t.results[1..];
  }

  // ---------- One record, any search ----------

  /** The first result of a place; none at it. */
  predicate FirstAt(results: seq<Result>, at: Where, i: nat) {
    i < |results| && results[i].at == at && forall j :: 0 <= j < i ==> results[j].at != at
  }

  predicate NoneAt(results: seq<Result>, at: Where) {
    forall r :: r in results ==> r.at != at
  }

  /** A result at a place on a host, and one for an instance, up to case. */
  predicate OnHost(r: Result, at: Where, host: CString) {
    r.at == at && r.hostname.Some? && r.hostname.value != [] && EqNoCase(host, r.hostname.value)
  }

  predicate OfInstance(r: Result, at: Where, instance: CString) {
    r.at == at && r.instance.Some? && r.instance.value != [] && EqNoCase(instance, r.instance.value)
  }

  predicate FirstOnHost(results: seq<Result>, at: Where, host: CString, i: nat) {
    i < |results| && OnHost(results[i], at, host) && forall j :: 0 <= j < i ==> !OnHost(results[j], at, host)
  }

  predicate FirstOfInstance(results: seq<Result>, at: Where, instance: CString, i: nat) {
    i < |results| && OfInstance(results[i], at, instance)
    && forall j :: 0 <= j < i ==> !OfInstance(results[j], at, instance)
  }

  /** Exactly one new result, in front, if the limit leaves room, and nothing otherwise. */
  predicate Gets(s: Search, t: Search, r: Result) {
    if s.max == 0 || s.num < s.max then t == s.(results := [r] + s.results, num := (s.num + 1) % 256) else t == s
  }

  /** One result becomes another, and nothing else changes. */
  predicate Becomes(s: Search, t: Search, i: nat, r: Result) {
    i < |s.results| && t == s.(results := s.results[i := r])
  }

  function Lesser(a: nat, b: nat): nat {
    if a <= b then a else b
  }

  /** The result with an address it did not have, and the lesser time to live. */
  function WithAddress(r: Result, ip: Addr, ttl: nat): Result {
    r.(addrs := (if ip in r.addrs then [] else [ip]) + r.addrs, ttl := Lesser(r.ttl, ttl))
  }

  lemma PlaceIsFirst(s: Search, at: Where)
    ensures var i := First(s.results, at, Place); if i < |s.results| then FirstAt(s.results, at, i)
            else NoneAt(s.results, at)
  {}

  lemma HostIsFirst(s: Search, at: Where, host: CString)
    ensures var i := First(s.results, at, Host(host));
            if i < |s.results| then FirstOnHost(s.results, at, host, i)
            else forall r :: r in s.results ==> !OnHost(r, at, host)
  {
    hide EqNoCase;
  }

  lemma InstanceIsFirst(s: Search, at: Where, instance: CString)
    ensures var i := First(s.results, at, Instance(instance));
            if i < |s.results| then FirstOfInstance(s.results, at, instance, i)
            else forall r :: r in s.results ==> !OfInstance(r, at, instance)
  {
    hide EqNoCase;
  }

  /** There is one first. */
  lemma HostOnce(results: seq<Result>, at: Where, host: CString, i: nat)
    requires FirstOnHost(results, at, host, i)
    ensures i < |results| && results[i] in results && OnHost(results[i], at, host)
    ensures forall j :: FirstOnHost(results, at, host, j) ==> j == i
  {
    hide EqNoCase;
  }

  lemma InstanceOnce(results: seq<Result>, at: Where, instance: CString, i: nat)
    requires FirstOfInstance(results, at, instance, i)
    ensures i < |results| && results[i] in results && OfInstance(results[i], at, instance)
    ensures forall j :: FirstOfInstance(results, at, instance, j) ==> j == i
  {
    hide EqNoCase;
  }

  /** The families a search for addresses is for. */
  predicate Wants(kind: Kind, ip: Addr) {
    match kind
    case OfA => ip.V4?
    case OfAaaa => ip.V6?
    case OfAny => true
    case _ => false
  }

  /** An address in a search for addresses: of another family it changes nothing; else the first result of the place
   * has it afterwards, and with no result there, one new result with the host, the address and the time to live
   * stands in front. */
  lemma AddressGoesIn(s: Search, at: Where, host: CString, ip: Addr, ttl: nat)
    requires s.kind.OfA? || s.kind.OfAaaa? || s.kind.OfAny?
    ensures var t := Found(s, at, IpRec(host, ip), ttl);
            && (!Wants(s.kind, ip) ==> t == s)
            && (Wants(s.kind, ip) && NoneAt(s.results, at) ==>
                  Gets(s, t, Result(at, None, Some(host), 0, None, [ip], ttl)))
            && forall i: nat :: Wants(s.kind, ip) && FirstAt(s.results, at, i) ==>
                 Becomes(s, t, i, WithAddress(s.results[i], ip, ttl))
  {
    hide First;
    PlaceIsFirst(s, at);
    var k := First(s.results, at, Place);
    forall i: nat | FirstAt(s.results, at, i)
      ensures i == k
    {
      assert s.results[i] in s.results;
    }
    if k < |s.results| {
      assert [] + s.results[k].addrs == s.results[k].addrs;
    }
  }

  /** An address in a search for services or for one SRV record: the first result on its host has it afterwards, and
   * with no result on that host nothing changes.  A TXT search takes none. */
  lemma HostAddressGoesIn(s: Search, at: Where, host: CString, ip: Addr, ttl: nat)
    requires s.kind.OfPtr? || s.kind.OfSrv? || s.kind.OfTxt?
    ensures var t := Found(s, at, IpRec(host, ip), ttl);
            && (s.kind.OfTxt? || (forall r :: r in s.results ==> !OnHost(r, at, host)) ==> t == s)
            && forall i: nat :: !s.kind.OfTxt? && FirstOnHost(s.results, at, host, i) ==>
                 Becomes(s, t, i, WithAddress(s.results[i], ip, ttl))
  {
    hide First, EqNoCase, FirstOnHost, OnHost;
    HostIsFirst(s, at, host);
    var k := First(s.results, at, Host(host));
    forall i: nat | FirstOnHost(s.results, at, host, i)
      ensures i == k && i < |s.results|
    {
      HostOnce(s.results, at, host, i);
    }
    if k < |s.results| {
      HostOnce(s.results, at, host, k);
      assert [] + s.results[k].addrs == s.results[k].addrs;
    }
  }

  /** An SRV record in a search that is not for services: a result on its host keeps its port and has the lesser time
   * to live; with none, there is one new result with the host and the port. */
  lemma ServiceGoesIn(s: Search, at: Where, instance: CString, host: CString, port: nat, ttl: nat)
    requires !s.kind.OfPtr?
    ensures var t := Found(s, at, SrvRec(instance, host, port), ttl);
            && ((forall r :: r in s.results ==> !OnHost(r, at, host)) ==>
                  Gets(s, t, Result(at, None, Some(host), port, None, [], ttl)))
            && forall i: nat :: FirstOnHost(s.results, at, host, i) ==>
                 Becomes(s, t, i, s.results[i].(ttl := Lesser(s.results[i].ttl, ttl)))
  {
    hide First, EqNoCase, FirstOnHost, OnHost;
    HostIsFirst(s, at, host);
    var k := First(s.results, at, Host(host));
    forall i: nat | FirstOnHost(s.results, at, host, i)
      ensures i == k && i < |s.results|
    {
      HostOnce(s.results, at, host, i);
    }
    if k < |s.results| {
      HostOnce(s.results, at, host, k);
    }
  }

  /** A TXT record in a search that is not for services: the first result of the place keeps the data it has, or gets
   * them; with none, there is one new result with the data. */
  lemma TextGoesIn(s: Search, at: Where, instance: CString, txt: nat, ttl: nat)
    requires !s.kind.OfPtr?
    ensures var t := Found(s, at, TxtRec(instance, txt), ttl);
            && (NoneAt(s.results, at) ==> Gets(s, t, Result(at, None, None, 0, Some(txt), [], ttl)))
            && forall i: nat :: FirstAt(s.results, at, i) ==>
                 var r := s.results[i];
                 Becomes(s, t, i, if r.txt.Some? then r else r.(txt := Some(txt), ttl := Lesser(r.ttl, ttl)))
  {
    hide First;
    PlaceIsFirst(s, at);
    var k := First(s.results, at, Place);
    forall i: nat | FirstAt(s.results, at, i)
      ensures i == k
    {
      assert s.results[i] in s.results;
    }
    if k < |s.results| {
      assert s.results[k := s.results[k]] == s.results;
    }
  }

  /** A PTR record: the result of the instance has the lesser time to live, or there is a new one. */
  lemma PointerGoesIn(s: Search, at: Where, instance: CString, ttl: nat)
    ensures var t := Found(s, at, PtrRec(instance), ttl);
            && ((forall r :: r in s.results ==> !OfInstance(r, at, instance)) ==>
                  Gets(s, t, Result(at, Some(instance), None, 0, None, [], ttl)))
            && forall i: nat :: FirstOfInstance(s.results, at, instance, i) ==>
                 Becomes(s, t, i, s.results[i].(ttl := Lesser(s.results[i].ttl, ttl)))
  {
    hide First, EqNoCase, FirstOfInstance, OfInstance;
    InstanceIsFirst(s, at, instance);
    var k := First(s.results, at, Instance(instance));
    forall i: nat | FirstOfInstance(s.results, at, instance, i)
      ensures i == k && i < |s.results|
    {
      InstanceOnce(s.results, at, instance, i);
    }
    if k < |s.results| {
      InstanceOnce(s.results, at, instance, k);
    }
  }

  predicate FirstNamed(results: seq<Result>, at: Where, instance: CString, i: nat) {
    i < |results| && results[i].at == at && results[i].instance == Some(instance)
    && forall j :: 0 <= j < i ==> !(results[j].at == at && results[j].instance == Some(instance))
  }

  /** What an SRV or TXT record says of its instance, where nothing was said before. */
  function Filled(r: Result, rec: Record): Result {
    match rec
    case SrvRec(_, host, port) => if r.hostname.None? then r.(hostname := Some(host), port := port) else r
    case TxtRec(_, txt) => if r.txt.None? then r.(txt := Some(txt)) else r
    case _ => r
  }

  lemma NamedIsFirst(s: Search, at: Where, instance: CString)
    ensures var i := First(s.results, at, Exact(instance));
            if i < |s.results| then FirstNamed(s.results, at, instance, i)
            else forall r :: r in s.results ==> !(r.at == at && r.instance == Some(instance))
  {}

  lemma NamedOnce(results: seq<Result>, at: Where, instance: CString, i: nat)
    requires FirstNamed(results, at, instance, i)
    ensures i < |results| && results[i] in results && results[i].at == at && results[i].instance == Some(instance)
    ensures forall j :: FirstNamed(results, at, instance, j) ==> j == i
  {}

  lemma FilledIn(s: Search, at: Where, rec: Record, ttl: nat)
    requires s.kind.OfPtr? && (rec.SrvRec? || rec.TxtRec?)
    ensures var (t, i) := ForInstance(s, at, rec.instance, ttl);
            Found(s, at, rec, ttl) ==
              if i < |t.results| then t.(results := t.results[i := Filled(t.results[i], rec)]) else t
  {
    hide ForInstance;
    var (t, i) := ForInstance(s, at, rec.instance, ttl);
    if i < |t.results| {
      assert t.results[i := t.results[i]] == t.results;
    }
  }

  /** SRV and TXT records in a search for services fill what is missing in the result that has exactly their name, or
   * else in that of the instance up to case, whose time to live is the lesser then, or else in a new one. */
  lemma InstanceDataGoesIn(s: Search, at: Where, rec: Record, ttl: nat)
    requires s.kind.OfPtr? && (rec.SrvRec? || rec.TxtRec?)
    ensures var t := Found(s, at, rec, ttl); var name := rec.instance;
            && (forall i: nat :: FirstNamed(s.results, at, name, i) ==> Becomes(s, t, i, Filled(s.results[i], rec)))
            && ((forall r :: r in s.results ==> !(r.at == at && r.instance == Some(name))) ==>
                  && (forall i: nat :: FirstOfInstance(s.results, at, name, i) ==>
                       Becomes(s, t, i, Filled(s.results[i].(ttl := Lesser(s.results[i].ttl, ttl)), rec)))
                  && ((forall r :: r in s.results ==> !OfInstance(r, at, name)) ==>
                       Gets(s, t, Filled(Result(at, Some(name), None, 0, None, [], ttl), rec))))
  {
    hide First, EqNoCase, FirstNamed, FirstOfInstance, OfInstance, Found, Filled;
    var name := rec.instance;
    NamedIsFirst(s, at, name);
    InstanceIsFirst(s, at, name);
    FilledIn(s, at, rec, ttl);
    var k := First(s.results, at, Exact(name));
    var m := First(s.results, at, Instance(name));
    forall i: nat | FirstNamed(s.results, at, name, i)
      ensures i == k && i < |s.results|
    {
      NamedOnce(s.results, at, name, i);
    }
    forall i: nat | FirstOfInstance(s.results, at, name, i)
      ensures i == m && i < |s.results|
    {
      InstanceOnce(s.results, at, name, i);
    }
    if k < |s.results| {
      NamedOnce(s.results, at, name, k);
    } else if m < |s.results| {
      InstanceOnce(s.results, at, name, m);
      var r := s.results[m].(ttl := Least(s.results[m].ttl, ttl));
      assert s.results[m := r][m := Filled(r, rec)] == s.results[m := Filled(r, rec)];
    } else if HasRoom(s) {
      var r := Result(at, Some(name), None, 0, None, [], ttl);
      assert ([r] + s.results)[0 := Filled(r, rec)] == [Filled(r, rec)] + s.results;
    }
  }
}
