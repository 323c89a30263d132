/** The browse cache (mdns_browser.c) and the part of the packet parser that fills it: addresses are staged
 * while the records of a packet are read, and applied when all host names are known. */
module Browse {
  import opened Bytes

  datatype TxtItem = TxtItem(key: CString, value: seq<byte>)

  /** mdns_result_t; `id` stands for its address.  No TXT items and no TXT data are the same. */
  datatype Entry = Entry(id: nat, at: Where, instance: CString, hostname: Option<CString>, port: nat,
                         txt: seq<TxtItem>, addrs: seq<Addr>, ttl: nat)

  datatype Staged = Staged(host: CString, ip: Addr, at: Where, ttl: nat)

  /** One browse: the service looked for, and what was found. */
  datatype Cache = Cache(service: CString, proto: CString, entries: seq<Entry>)

  /** A cache and the entries that changed while a packet is read. */
  datatype Work = Work(entries: seq<Entry>, changed: seq<nat>, nextId: nat)

  // ---------- Changing the cache ----------

  /** add_browse_result: at the head, unless it is there. */
  function Changed(changed: seq<nat>, id: nat): seq<nat> {
    if id in changed then changed else [id] + changed
  }

  /** A TTL of zero gives way; otherwise the least counts. */
  function NewTtl(was: nat, ttl: nat): nat {
    if was == 0 then ttl else if was < ttl then was else ttl
  }

  predicate IsInstance(e: Entry, at: Where, instance: CString) {
    e.at == at && e.instance != [] && EqNoCase(instance, e.instance)
  }

  function Find(entries: seq<Entry>, at: Where, instance: CString): (i: nat)
    ensures i <= |entries| && (i < |entries| ==> IsInstance(entries[i], at, instance))
    ensures forall j :: 0 <= j < i ==> !IsInstance(entries[j], at, instance)
  {
    if entries == [] || IsInstance(entries[0], at, instance) then 0 else 1 + Find(entries[1..], at, instance)
  }

  function Added(w: Work, e: Entry): Work {
    Work([e.(id := w.nextId)] + w.entries, Changed(w.changed, w.nextId), w.nextId + 1)
  }

  function Replaced(w: Work, i: nat, e: Entry, changed: bool): Work
    requires i < |w.entries|
  {
    w.(entries := w.entries[i := e], changed := if changed then Changed(w.changed, e.id) else w.changed)
  }

  /** mdns_priv_browse_result_add_ptr. */
  function AddPtr(w: Work, at: Where, instance: CString, ttl: nat): Work {
    if instance == [] then w
    else
      var i := Find(w.entries, at, instance);
      if i < |w.entries| then
        var e := w.entries[i];
        Replaced(w, i, e.(ttl := NewTtl(e.ttl, ttl)), NewTtl(e.ttl, ttl) != e.ttl)
      else Added(w, Entry(0, at, instance, None, 0, [], [], ttl))
  }

  predicate SameHost(a: Option<CString>, b: Option<CString>) {
    Given(a) && Given(b) && EqNoCase(a.value, b.value)
  }

  /** copy_address_in_previous_result: from the first entry of the host that has addresses, on any interface. */
  function CopiedAddrs(entries: seq<Entry>, e: Entry): seq<Addr> {
    if entries == [] || e.addrs != [] then e.addrs
    else if SameHost(entries[0].hostname, e.hostname) && entries[0].at.v6 == e.at.v6 && entries[0].addrs != []
    then entries[0].addrs
    else CopiedAddrs(entries[1..], e)
  }

  /** mdns_priv_browse_result_add_srv. */
  function AddSrv(w: Work, at: Where, instance: CString, host: CString, port: nat, ttl: nat): Work {
    if instance == [] then w
    else
      var i := Find(w.entries, at, instance);
      if i < |w.entries| then
        var e := w.entries[i];
        var moved := !SameHost(Some(host), e.hostname);
        var e1 := if moved then e.(hostname := Some(host), port := port) else e;
        var e2 := if moved then e1.(addrs := CopiedAddrs(w.entries[i := e1], e1)) else e1;
        Replaced(w, i, e2.(ttl := NewTtl(e.ttl, ttl)), moved || NewTtl(e.ttl, ttl) != e.ttl)
      else Added(w, Entry(0, at, instance, Some(host), port, [], [], ttl))
  }

  /** is_txt_item_in_list: the first item of that key decides. */
  predicate TxtKnown(item: TxtItem, txt: seq<TxtItem>) {
    txt != [] && if item.key == txt[0].key then item.value == txt[0].value else TxtKnown(item, txt[1..])
  }

  predicate TxtChanged(txt: seq<TxtItem>, was: seq<TxtItem>) {
    was != [] && (|txt| != |was| || exists item :: item in txt && !TxtKnown(item, was))
  }

  /** mdns_priv_browse_result_add_txt: the first TXT data of an entry is no change. */
  function AddTxt(w: Work, at: Where, instance: CString, txt: seq<TxtItem>, ttl: nat): Work {
    if instance == [] then w
    else
      var i := Find(w.entries, at, instance);
      if i < |w.entries| then
        var e := w.entries[i];
        Replaced(w, i, e.(txt := txt, ttl := NewTtl(e.ttl, ttl)), TxtChanged(txt, e.txt) || NewTtl(e.ttl, ttl) != e.ttl)
      else Added(w, Entry(0, at, instance, None, 0, txt, [], ttl))
  }

  /** The first entry of the host at the place that has not got the address. */
  function FindLacking(entries: seq<Entry>, at: Where, host: CString, ip: Addr): (i: nat)
    ensures i <= |entries|
    ensures i < |entries| ==>
              entries[i].at == at && SameHost(Some(host), entries[i].hostname) && ip !in entries[i].addrs
  {
    if entries == [] then 0
    else if entries[0].at == at && SameHost(Some(host), entries[0].hostname) && ip !in entries[0].addrs then 0
    else 1 + FindLacking(entries[1..], at, host, ip)
  }

  /** mdns_priv_browse_result_add_ip. */
  function AddIp(w: Work, x: Staged): Work {
    var i := FindLacking(w.entries, x.at, x.host, x.ip);
    if i < |w.entries| then
      var e := w.entries[i];
      Replaced(w, i, e.(addrs := [x.ip] + e.addrs, ttl := NewTtl(e.ttl, x.ttl)), true)
    else w
  }

  /** mdns_priv_browse_apply_staged_ips, from the head of the list. */
  function Apply(w: Work, staged: seq<Staged>): Work
    decreases |staged|
  {
    if staged == [] then w else Apply(AddIp(w, staged[0]), staged[1..])
  }

  // ---------- One packet ----------

  /** A record of a response, with the name it is for. */
  datatype Record =
    | PtrRec(service: CString, proto: CString, instance: CString, ttl: nat)
    | SrvRec(instance: CString, service: CString, proto: CString, host: CString, port: nat, ttl: nat)
    | TxtRec(instance: CString, service: CString, proto: CString, txt: seq<TxtItem>, ttl: nat)
    | IpRec(host: CString, ip: Addr, ttl: nat)

  /** While a packet is read: the browses, the one the packet was last found to be for, the one whose changes
   * are collected, those changes, and the addresses staged, the last one first. */
  datatype Parse = Parse(caches: seq<Cache>, packet: Option<nat>, sync: Option<nat>, changed: seq<nat>,
                         staged: seq<Staged>, nextId: nat)

  predicate IsFor(c: Cache, service: CString, proto: CString) {
    EqNoCase(service, c.service) && EqNoCase(proto, c.proto)
  }

  /** The first browse for a service. */
  function FindService(caches: seq<Cache>, service: CString, proto: CString): (i: nat)
    ensures i <= |caches| && (i < |caches| ==> IsFor(caches[i], service, proto))
  {
    if caches == [] || IsFor(caches[0], service, proto) then 0 else 1 + FindService(caches[1..], service, proto)
  }

  predicate KnowsHost(entries: seq<Entry>, at: Where, host: CString) {
    exists e :: e in entries && e.at == at && SameHost(Some(host), e.hostname)
  }

  /** The first browse with an entry on that host. */
  function FindHost(caches: seq<Cache>, at: Where, host: CString): (i: nat)
    ensures i <= |caches| && (i < |caches| ==> KnowsHost(caches[i].entries, at, host))
    ensures forall j :: 0 <= j < i ==> !KnowsHost(caches[j].entries, at, host)
  {
    if caches == [] || KnowsHost(caches[0].entries, at, host) then 0 else 1 + FindHost(caches[1..], at, host)
  }

  /** The browse a record is for, or the number of browses. */
  function FindBrowse(caches: seq<Cache>, at: Where, rec: Record): (i: nat)
    ensures i <= |caches|
  {
    match rec
    case PtrRec(service, proto, _, _) =>
      if service == [] || proto == [] then |caches| else FindService(caches, service, proto)
    case SrvRec(_, service, proto, _, _, _) => FindService(caches, service, proto)
    case TxtRec(_, service, proto, _, _) => FindService(caches, service, proto)
    case IpRec(host, _, _) => FindHost(caches, at, host)
  }

  /** The effect of a PTR, SRV or TXT record on the cache it is for.  Nothing is added to a browse without a
   * service and protocol. */
  function Enter(w: Work, c: Cache, at: Where, rec: Record): Work {
    if c.service == [] || c.proto == [] then w
    else
      match rec
      case PtrRec(_, _, instance, ttl) => AddPtr(w, at, instance, ttl)
      case SrvRec(instance, _, _, host, port, ttl) => AddSrv(w, at, instance, host, port, ttl)
      case TxtRec(instance, _, _, txt, ttl) => AddTxt(w, at, instance, txt, ttl)
      case IpRec(_, _, _) => w
  }

  function WorkOn(p: Parse, b: nat): Work
    requires b < |p.caches|
  {
    Work(p.caches[b].entries, p.changed, p.nextId)
  }

  function WorkedOn(p: Parse, b: nat, w: Work): Parse
    requires b < |p.caches|
  {
    p.(caches := p.caches[b := p.caches[b].(entries := w.entries)], changed := w.changed, nextId := w.nextId)
  }

  /** One record of the parser's loop (mdns_receive.c:819-872, 964-971, 1044-1051, 1123-1128, 1189-1194): only
   * the first browse a packet is for has its changes collected. */
  function Read(p: Parse, at: Where, rec: Record): Parse {
    var b := FindBrowse(p.caches, at, rec);
    var q := if b < |p.caches| then p.(packet := Some(b), sync := if p.sync.Some? then p.sync else Some(b)) else p;
    if rec.IpRec? then
      if q.packet.Some? then q.(staged := [Staged(rec.host, rec.ip, at, rec.ttl)] + q.staged) else q
    else if b < |q.caches| && q.sync == Some(b) then WorkedOn(q, b, Enter(WorkOn(q, b), q.caches[b], at, rec))
    else q
  }

  function ReadAll(p: Parse, at: Where, recs: seq<Record>): Parse
    decreases |recs|
  {
    if recs == [] then p else ReadAll(Read(p, at, recs[0]), at, recs[1..])
  }

  /** The end of the packet: the staged addresses are applied to the packet's browse. */
  function Finish(p: Parse): Parse {
    if p.packet.Some? && p.sync == p.packet && p.packet.value < |p.caches|
    then WorkedOn(p, p.packet.value, Apply(WorkOn(p, p.packet.value), p.staged)).(staged := [])
    else p.(staged := [])
  }

  function Packet(caches: seq<Cache>, nextId: nat, at: Where, recs: seq<Record>): Parse {
    Finish(ReadAll(Parse(caches, None, None, [], [], nextId), at, recs))
  }

  // ---------- The order of addresses ----------

  function Addresses(recs: seq<Record>, at: Where): seq<Staged> {
    if recs == [] then []
    else (if recs[0].IpRec? then [Staged(recs[0].host, recs[0].ip, at, recs[0].ttl)] else []) + Addresses(recs[1..], at)
  }

  function Others(recs: seq<Record>): seq<Record> {
    if recs == [] then [] else (if recs[0].IpRec? then [] else [recs[0]]) + Others(recs[1..])
  }

  /** The records of a packet are for one browse only, or for none. */
  ghost predicate Single(caches: seq<Cache>, b: nat, at: Where, recs: seq<Record>) {
    && b < |caches|
    && (forall rec :: rec in recs && !rec.IpRec? ==>
          var i := FindBrowse(caches, at, rec); i == b || i == |caches|)
    && (forall rec, i :: rec in recs && rec.IpRec? && 0 <= i < |caches| && i != b ==>
          !KnowsHost(caches[i].entries, at, rec.host))
  }

  /** The other records alone, on the one cache. */
  function EnterAll(w: Work, caches: seq<Cache>, b: nat, at: Where, recs: seq<Record>): Work
    requires b < |caches|
    decreases |recs|
  {
    if recs == [] then w
    else
      EnterAll(if FindBrowse(caches, at, recs[0]) == b then Enter(w, caches[b], at, recs[0]) else w,
               caches, b, at, recs[1..])
  }

  /** The other browses are as they were, and this one is for the same service. */
  predicate SameElsewhere(caches: seq<Cache>, now: seq<Cache>, b: nat) {
    |now| == |caches| && forall i :: 0 <= i < |caches| ==>
      now[i].service == caches[i].service && now[i].proto == caches[i].proto && (i != b ==> now[i] == caches[i])
  }

  lemma {:induction false} FindServiceSame(caches: seq<Cache>, now: seq<Cache>, service: CString, proto: CString)
    requires |now| == |caches|
    requires forall i :: 0 <= i < |caches| ==> now[i].service == caches[i].service && now[i].proto == caches[i].proto
    ensures FindService(now, service, proto) == FindService(caches, service, proto)
    decreases |caches|
  {
    hide EqNoCase;
    if caches != [] {
      FindServiceSame(caches[1..], now[1..], service, proto);
    }
  }

  lemma FindBrowseSame(caches: seq<Cache>, now: seq<Cache>, b: nat, at: Where, rec: Record)
    requires SameElsewhere(caches, now, b) && !rec.IpRec?
    ensures FindBrowse(now, at, rec) == FindBrowse(caches, at, rec)
  {
    hide FindService;
    FindServiceSame(caches, now, rec.service, rec.proto);
  }

  /** Addresses are for this browse or for none that is known yet. */
  lemma FindHostSingle(caches: seq<Cache>, now: seq<Cache>, b: nat, at: Where, host: CString)
    requires SameElsewhere(caches, now, b) && b < |caches|
    requires forall i :: 0 <= i < |caches| && i != b ==> !KnowsHost(caches[i].entries, at, host)
    ensures var i := FindHost(now, at, host); i == b || i == |caches|
  {
    hide KnowsHost, FindHost;
    var i := FindHost(now, at, host);
    assert i < |now| ==> KnowsHost(now[i].entries, at, host);
  }

  /** The state of the parse in the course of a packet that is for browse `b`. */
  predicate OnBrowse(p: Parse, caches: seq<Cache>, b: nat) {
    b < |caches| && SameElsewhere(caches, p.caches, b) && p.packet == Some(b) && p.sync == Some(b)
  }

  lemma ReadAddress(p: Parse, caches: seq<Cache>, b: nat, at: Where, rec: Record)
    requires OnBrowse(p, caches, b) && rec.IpRec? && Single(caches, b, at, [rec])
    ensures Read(p, at, rec) == p.(staged := [Staged(rec.host, rec.ip, at, rec.ttl)] + p.staged)
  {
    hide KnowsHost, FindHost;
    assert rec in [rec];
    FindHostSingle(caches, p.caches, b, at, rec.host);
  }

  lemma ReadOther(p: Parse, caches: seq<Cache>, b: nat, at: Where, rec: Record)
    requires OnBrowse(p, caches, b) && !rec.IpRec? && Single(caches, b, at, [rec])
    ensures var w := if FindBrowse(caches, at, rec) == b then Enter(WorkOn(p, b), caches[b], at, rec) else WorkOn(p, b);
            Read(p, at, rec) == WorkedOn(p, b, w)
    ensures OnBrowse(Read(p, at, rec), caches, b)
  {
    hide AddPtr, AddSrv, AddTxt, FindBrowse;
    assert rec in [rec];
    FindBrowseSame(caches, p.caches, b, at, rec);
    assert p.caches[b := p.caches[b].(entries := p.caches[b].entries)] == p.caches;
    SameNames(p.caches[b], caches[b]);
  }

  lemma SameNames(a: Cache, b: Cache)
    requires a.service == b.service && a.proto == b.proto
    ensures forall w: Work, at: Where, rec: Record :: Enter(w, a, at, rec) == Enter(w, b, at, rec)
  {
    hide AddPtr, AddSrv, AddTxt;
  }

  lemma SingleParts(caches: seq<Cache>, b: nat, at: Where, recs: seq<Record>)
    requires recs != [] && Single(caches, b, at, recs)
    ensures Single(caches, b, at, [recs[0]]) && Single(caches, b, at, recs[1..])
  {
    hide KnowsHost, FindBrowse;
    assert forall rec :: rec in recs[1..] ==> rec in recs;
  }

  /** Reading a packet stages its addresses in reverse, and enters the other records in order. */
  lemma {:induction false} ReadingSplits(p: Parse, caches: seq<Cache>, b: nat, at: Where, recs: seq<Record>)
    requires OnBrowse(p, caches, b) && Single(caches, b, at, recs)
    ensures ReadAll(p, at, recs) ==
              WorkedOn(p, b, EnterAll(WorkOn(p, b), caches, b, at, Others(recs)))
              .(staged := Reverse(Addresses(recs, at)) + p.staged)
    decreases |recs|
  {
    hide Read, Enter, FindBrowse, Single;
    if recs == [] {
      assert p.caches[b := p.caches[b].(entries := p.caches[b].entries)] == p.caches;
      assert [] + p.staged == p.staged;
    } else {
      var rec, rest := recs[0], recs[1..];
      SingleParts(caches, b, at, recs);
      if rec.IpRec? {
        ReadAddress(p, caches, b, at, rec);
        ReadingSplits(Read(p, at, rec), caches, b, at, rest);
        var x := Staged(rec.host, rec.ip, at, rec.ttl);
        AddressFirst(recs, at);
        assert Reverse(Addresses(rest, at)) + ([x] + p.staged) == Reverse(Addresses(rest, at)) + [x] + p.staged;
      } else {
        ReadOther(p, caches, b, at, rec);
        OtherFirst(recs, at);
        ReadingSplits(Read(p, at, rec), caches, b, at, rest);
        EnterFirst(p, caches, b, at, rec, Others(rest));
      }
    }
  }

  lemma AddressFirst(recs: seq<Record>, at: Where)
    requires recs != [] && recs[0].IpRec?
    ensures var x := Staged(recs[0].host, recs[0].ip, at, recs[0].ttl);
            Reverse(Addresses(recs, at)) == Reverse(Addresses(recs[1..], at)) + [x]
    ensures Others(recs) == Others(recs[1..])
  {
    var x := Staged(recs[0].host, recs[0].ip, at, recs[0].ttl);
    assert Addresses(recs, at)[0] == x && Addresses(recs, at)[1..] == Addresses(recs[1..], at);
    assert [] + Others(recs[1..]) == Others(recs[1..]);
  }

  lemma OtherFirst(recs: seq<Record>, at: Where)
    requires recs != [] && !recs[0].IpRec?
    ensures Addresses(recs, at) == Addresses(recs[1..], at)
    ensures Others(recs) == [recs[0]] + Others(recs[1..])
  {
    assert [] + Addresses(recs[1..], at) == Addresses(recs[1..], at);
  }

  lemma EnterFirst(p: Parse, caches: seq<Cache>, b: nat, at: Where, rec: Record, rest: seq<Record>)
    requires OnBrowse(p, caches, b)
    ensures var w := if FindBrowse(caches, at, rec) == b then Enter(WorkOn(p, b), caches[b], at, rec) else WorkOn(p, b);
            var q := WorkedOn(p, b, w);
            && EnterAll(WorkOn(p, b), caches, b, at, [rec] + rest) == EnterAll(WorkOn(q, b), caches, b, at, rest)
            && forall v: Work :: WorkedOn(q, b, v) == WorkedOn(p, b, v)
  {
    hide Enter, FindBrowse;
    assert ([rec] + rest)[1..] == rest;
    var w := if FindBrowse(caches, at, rec) == b then Enter(WorkOn(p, b), caches[b], at, rec) else WorkOn(p, b);
    var q := WorkedOn(p, b, w);
    forall v: Work
      ensures WorkedOn(q, b, v) == WorkedOn(p, b, v)
    {
      assert WorkedOn(q, b, v).caches == WorkedOn(p, b, v).caches;
    }
  }

  /** A record that is for browse `b`, and no address. */
  ghost predicate Opens(caches: seq<Cache>, b: nat, at: Where, rec: Record) {
    !rec.IpRec? && FindBrowse(caches, at, rec) == b
  }

  /** What becomes of a packet whose first record is a PTR, SRV or TXT record of the browse: the other records
   * are entered in their order, then the addresses applied, the last one first. */
  lemma PacketIs(caches: seq<Cache>, nextId: nat, b: nat, at: Where, recs: seq<Record>)
    requires recs != [] && Single(caches, b, at, recs) && Opens(caches, b, at, recs[0])
    ensures var w := EnterAll(Work(caches[b].entries, [], nextId), caches, b, at, Others(recs));
            var v := Apply(w, Reverse(Addresses(recs, at)));
            Packet(caches, nextId, at, recs) ==
              Parse(caches[b := caches[b].(entries := v.entries)], Some(b), Some(b), v.changed, [], v.nextId)
  {
    hide FindBrowse, Enter, KnowsHost, Apply;
    var p0 := Parse(caches, None, None, [], [], nextId);
    var open := Parse(caches, Some(b), Some(b), [], [], nextId);
    FirstOpens(p0, open, b, at, recs[0]);
    assert ReadAll(p0, at, recs) == ReadAll(open, at, recs);
    ReadingSplits(open, caches, b, at, recs);
    var w := EnterAll(WorkOn(open, b), caches, b, at, Others(recs));
    var staged := Reverse(Addresses(recs, at));
    assert staged + [] == staged;
    var p := WorkedOn(open, b, w).(staged := staged);
    assert ReadAll(p0, at, recs) == p;
    assert WorkOn(p, b) == w;
  }

  lemma FirstOpens(p: Parse, open: Parse, b: nat, at: Where, rec: Record)
    requires b < |p.caches| && !rec.IpRec? && FindBrowse(p.caches, at, rec) == b
    requires p.sync == None && open == p.(packet := Some(b), sync := Some(b))
    ensures Read(p, at, rec) == Read(open, at, rec)
  {}

  /** Moving the addresses of a packet among its other records makes no difference to any cache, nor to which
   * entries are reported as changed. */
  lemma AddressOrderDoesNotMatter(caches: seq<Cache>, nextId: nat, b: nat, at: Where, recs: seq<Record>,
                                  moved: seq<Record>)
    requires recs != [] && moved != []
    requires Single(caches, b, at, recs) && Single(caches, b, at, moved)
    requires Opens(caches, b, at, recs[0]) && Opens(caches, b, at, moved[0])
    requires Others(moved) == Others(recs) && Addresses(moved, at) == Addresses(recs, at)
    ensures Packet(caches, nextId, at, moved) == Packet(caches, nextId, at, recs)
  {
    hide Packet, Single, Opens, EnterAll, Apply;
    PacketIs(caches, nextId, b, at, recs);
    PacketIs(caches, nextId, b, at, moved);
  }

  /** The first record matters: an address that comes before any record of a browse, for a host no cache knows,
   * is lost. */
  lemma EarlyAddressIsLost(caches: seq<Cache>, nextId: nat, at: Where, rec: Record, recs: seq<Record>)
    requires rec.IpRec? && forall i :: 0 <= i < |caches| ==> !KnowsHost(caches[i].entries, at, rec.host)
    ensures Packet(caches, nextId, at, [rec] + recs) == Packet(caches, nextId, at, recs)
  {
    hide KnowsHost, Finish;
    var p := Parse(caches, None, None, [], [], nextId);
    assert FindHost(caches, at, rec.host) == |caches|;
    assert Read(p, at, rec) == p;
    assert ([rec] + recs)[0] == rec && ([rec] + recs)[1..] == recs;
  }

  // ---------- What every record keeps ----------

  predicate Twins(a: Entry, b: Entry) {
    a.at == b.at && b.instance != [] && EqNoCase(a.instance, b.instance)
  }

  /** One entry for an instance on an interface and protocol; every entry reported as changed is there, and
   * reported once. */
  predicate WorkOk(w: Work) {
    && (forall i, j :: 0 <= i < j < |w.entries|
         ==> !Twins(w.entries[i], w.entries[j]) && w.entries[i].id != w.entries[j].id)
    && (forall i :: 0 <= i < |w.entries| ==> w.entries[i].id < w.nextId)
    && (forall i, j :: 0 <= i < j < |w.changed| ==> w.changed[i] != w.changed[j])
    && (forall id :: id in w.changed ==> exists e :: e in w.entries && e.id == id)
  }

  lemma ReplacedKeeps(w: Work, i: nat, e: Entry, changed: bool)
    requires WorkOk(w) && i < |w.entries|
    requires e.id == w.entries[i].id && e.at == w.entries[i].at && e.instance == w.entries[i].instance
    ensures WorkOk(Replaced(w, i, e, changed))
  {
    hide EqNoCase;
    var t := Replaced(w, i, e, changed);
    assert t.entries[i] in t.entries;
    forall id | id in t.changed
      ensures exists x :: x in t.entries && x.id == id
    {
      if id != e.id {
        var x :| x in w.entries && x.id == id;
        var j :| 0 <= j < |w.entries| && w.entries[j] == x;
        assert t.entries[j] == x;
      }
    }
  }

  lemma AddedKeeps(w: Work, e: Entry)
    requires WorkOk(w) && Find(w.entries, e.at, e.instance) == |w.entries|
    ensures WorkOk(Added(w, e))
  {
    hide EqNoCase, Find;
    var t := Added(w, e);
    var head := e.(id := w.nextId);
    assert t.entries == [head] + w.entries;
    forall i, j | 0 <= i < j < |t.entries|
      ensures !Twins(t.entries[i], t.entries[j]) && t.entries[i].id != t.entries[j].id
    {
      assert t.entries[j] == w.entries[j - 1];
      assert !IsInstance(w.entries[j - 1], e.at, e.instance);
      if i > 0 {
        assert t.entries[i] == w.entries[i - 1];
      }
    }
    assert w.nextId !in w.changed;
    assert head in t.entries && forall x :: x in w.entries ==> x in t.entries;
  }

  lemma EnterKeeps(w: Work, c: Cache, at: Where, rec: Record)
    requires WorkOk(w)
    ensures WorkOk(Enter(w, c, at, rec))
  {
    hide WorkOk, Replaced, Added, EqNoCase, Find, CopiedAddrs, TxtChanged;
    if !rec.IpRec? && c.service != [] && c.proto != [] && rec.instance != [] {
      var i := Find(w.entries, at, rec.instance);
      if i < |w.entries| {
        var e := w.entries[i];
        match rec {
          case PtrRec(_, _, instance, ttl) =>
            ReplacedKeeps(w, i, e.(ttl := NewTtl(e.ttl, ttl)), NewTtl(e.ttl, ttl) != e.ttl);
          case SrvRec(instance, _, _, host, port, ttl) =>
            var moved := !SameHost(Some(host), e.hostname);
            var e1 := if moved then e.(hostname := Some(host), port := port) else e;
            var e2 := if moved then e1.(addrs := CopiedAddrs(w.entries[i := e1], e1)) else e1;
            ReplacedKeeps(w, i, e2.(ttl := NewTtl(e.ttl, ttl)), moved || NewTtl(e.ttl, ttl) != e.ttl);
          case TxtRec(instance, _, _, txt, ttl) =>
            ReplacedKeeps(w, i, e.(txt := txt, ttl := NewTtl(e.ttl, ttl)),
                          TxtChanged(txt, e.txt) || NewTtl(e.ttl, ttl) != e.ttl);
        }
      } else {
        match rec {
          case PtrRec(_, _, instance, ttl) => AddedKeeps(w, Entry(0, at, instance, None, 0, [], [], ttl));
          case SrvRec(instance, _, _, host, port, ttl) => AddedKeeps(w,
                 Entry(0, at, instance, Some(host), port, [], [], ttl));
          case TxtRec(instance, _, _, txt, ttl) => AddedKeeps(w, Entry(0, at, instance, None, 0, txt, [], ttl));
        }
      }
    }
  }

  lemma {:induction false} ApplyKeeps(w: Work, staged: seq<Staged>)
    requires WorkOk(w)
    ensures WorkOk(Apply(w, staged))
    decreases |staged|
  {
    hide WorkOk, Replaced, FindLacking;
    if staged != [] {
      var x := staged[0];
      var i := FindLacking(w.entries, x.at, x.host, x.ip);
      if i < |w.entries| {
        var e := w.entries[i];
        ReplacedKeeps(w, i, e.(addrs := [x.ip] + e.addrs, ttl := NewTtl(e.ttl, x.ttl)), true);
      }
      ApplyKeeps(AddIp(w, x), staged[1..]);
    }
  }

  /** Every cache is in order, and the changes collected are of the one they are collected for. */
  ghost predicate ParseOk(p: Parse) {
    && (p.sync.Some? ==> p.sync.value < |p.caches|)
    && (p.sync.None? ==> p.changed == [])
    && forall b :: 0 <= b < |p.caches| ==> WorkOk(ReportedOn(p, b))
  }

  ghost function ReportedOn(p: Parse, b: nat): Work
    requires b < |p.caches|
  {
    Work(p.caches[b].entries, if p.sync == Some(b) then p.changed else [], p.nextId)
  }

  /** More identities are in use. */
  lemma WorkOkLater(w: Work, nextId: nat)
    requires WorkOk(w) && w.nextId <= nextId
    ensures WorkOk(w.(nextId := nextId))
  {
    hide EqNoCase;
  }

  lemma EnterGrows(w: Work, c: Cache, at: Where, rec: Record)
    ensures w.nextId <= Enter(w, c, at, rec).nextId
  {
    hide EqNoCase, Find, CopiedAddrs, TxtChanged;
  }

  lemma {:induction false} ApplyGrows(w: Work, staged: seq<Staged>)
    ensures w.nextId <= Apply(w, staged).nextId
    decreases |staged|
  {
    hide FindLacking;
    if staged != [] {
      ApplyGrows(AddIp(w, staged[0]), staged[1..]);
    }
  }

  lemma WorkedOnKeeps(p: Parse, b: nat, w: Work)
    requires ParseOk(p) && b < |p.caches| && p.sync == Some(b) && WorkOk(w) && p.nextId <= w.nextId
    ensures ParseOk(WorkedOn(p, b, w))
  {
    hide WorkOk;
    var q := WorkedOn(p, b, w);
    forall i | 0 <= i < |q.caches|
      ensures WorkOk(ReportedOn(q, i))
    {
      if i != b {
        WorkOkLater(ReportedOn(p, i), q.nextId);
      }
    }
  }

  lemma ReadKeeps(p: Parse, at: Where, rec: Record)
    requires ParseOk(p)
    ensures ParseOk(Read(p, at, rec))
  {
    hide WorkOk, FindBrowse, Enter;
    var b := FindBrowse(p.caches, at, rec);
    var q := if b < |p.caches| then p.(packet := Some(b), sync := if p.sync.Some? then p.sync else Some(b)) else p;
    assert forall i :: 0 <= i < |p.caches| ==> ReportedOn(q, i) == ReportedOn(p, i);
    if rec.IpRec? {
      var r := Read(p, at, rec);
      assert forall i :: 0 <= i < |p.caches| ==> ReportedOn(r, i) == ReportedOn(q, i);
    } else if b < |q.caches| && q.sync == Some(b) {
      assert ReportedOn(q, b) == WorkOn(q, b);
      EnterKeeps(WorkOn(q, b), q.caches[b], at, rec);
      EnterGrows(WorkOn(q, b), q.caches[b], at, rec);
      WorkedOnKeeps(q, b, Enter(WorkOn(q, b), q.caches[b], at, rec));
    }
  }

  lemma {:induction false} ReadAllKeeps(p: Parse, at: Where, recs: seq<Record>)
    requires ParseOk(p)
    ensures ParseOk(ReadAll(p, at, recs))
    decreases |recs|
  {
    hide ParseOk, Read;
    if recs != [] {
      ReadKeeps(p, at, recs[0]);
      ReadAllKeeps(Read(p, at, recs[0]), at, recs[1..]);
    }
  }

  /** Whatever a packet holds, for one browse or several: afterwards every cache has one entry for an instance on
   * an interface and protocol, and the entries reported as changed are there, each once. */
  lemma EveryPacketKeeps(caches: seq<Cache>, nextId: nat, at: Where, recs: seq<Record>)
    requires forall b :: 0 <= b < |caches| ==> WorkOk(Work(caches[b].entries, [], nextId))
    ensures ParseOk(Packet(caches, nextId, at, recs))
  {
    hide WorkOk, Apply, ReadAll;
    var p0 := Parse(caches, None, None, [], [], nextId);
    assert ParseOk(p0);
    ReadAllKeeps(p0, at, recs);
    var p := ReadAll(p0, at, recs);
    if p.packet.Some? && p.sync == p.packet && p.packet.value < |p.caches| {
      var b := p.packet.value;
      assert ReportedOn(p, b) == WorkOn(p, b);
      ApplyKeeps(WorkOn(p, b), p.staged);
      ApplyGrows(WorkOn(p, b), p.staged);
      WorkedOnKeeps(p, b, Apply(WorkOn(p, b), p.staged));
    }
    var q := WorkedOff(p);
    assert forall i :: 0 <= i < |q.caches| ==> ReportedOn(Finish(p), i) == ReportedOn(q, i);
  }

  ghost function WorkedOff(p: Parse): Parse {
    if p.packet.Some? && p.sync == p.packet && p.packet.value < |p.caches|
    then WorkedOn(p, p.packet.value, Apply(WorkOn(p, p.packet.value), p.staged)) else p
  }
}
