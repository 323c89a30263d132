/** One-shot searches (mdns_querier.c): a list of running searches, the actions waiting for them, and what
 * is found.  Every search completes at most once, and none is touched after it was freed. */
module Searches {
  import opened Bytes

  datatype Result = Result(at: Where, instance: Option<CString>, hostname: Option<CString>, port: nat,
                           txt: Option<nat>, addrs: seq<Addr>, ttl: nat)

  datatype Kind = OfPtr | OfSrv | OfTxt | OfA | OfAaaa | OfAny

  datatype SearchState = Waiting | Active | Over

  /** mdns_search_once_t.  `notified` and `given` count the calls of the notifier and of the semaphore. */
  datatype Search = Search(state: SearchState, startedAt: nat, timeout: nat, sentAt: int, notifier: bool, kind: Kind,
                           max: byte, num: byte, results: seq<Result>, notified: nat, given: nat)

  /** The actions that name a search, and others. */
  datatype Act = Add(id: nat) | Send(id: nat) | End(id: nat) | Else

  /** `searches` remembers what freed searches held; `strayed` says whether one was touched. */
  datatype Sys = Sys(now: nat, list: seq<nat>, searches: map<nat, Search>, alive: set<nat>, fifo: seq<Act>,
                     nextId: nat, strayed: bool)
  {
    function With(id: nat, search: Search): Sys {
      this.(searches := searches[id := search], strayed := strayed || id !in alive)
    }
  }

  // ---------- What is found ----------

  /** How a result is looked for: by instance or host name, up to case, or by place alone. */
  datatype Key = Instance(name: CString) | Exact(name: CString) | Host(name: CString) | Place

  predicate Matches(r: Result, at: Where, key: Key) {
    && r.at == at
    && match key
       case Instance(name) => Given(r.instance) && EqNoCase(name, r.instance.value)
       case Exact(name) => r.instance == Some(name)
       case Host(name) => Given(r.hostname) && EqNoCase(name, r.hostname.value)
       case Place => true
  }

  function First(results: seq<Result>, at: Where, key: Key): (i: nat)
    ensures i <= |results| && (i < |results| ==> Matches(results[i], at, key))
    ensures forall j :: 0 <= j < i ==> !Matches(results[j], at, key)
  {
    if results == [] || Matches(results[0], at, key) then 0 else 1 + First(results[1..], at, key)
  }

  function Least(ttl: nat, other: nat): nat {
    if ttl < other then ttl else other
  }

  predicate HasRoom(s: Search) {
    s.max == 0 || s.num < s.max
  }

  /** A new result, at the head; the counter has 8 bits. */
  function Prepend(s: Search, r: Result): Search {
    s.(results := [r] + s.results, num := (s.num + 1) % 256)
  }

  function PrependIfRoom(s: Search, r: Result): Search {
    if HasRoom(s) then Prepend(s, r) else s
  }

  function Lower(s: Search, i: nat, ttl: nat): Search
    requires i < |s.results|
  {
    s.(results := s.results[i := s.results[i].(ttl := Least(s.results[i].ttl, ttl))])
  }

  function AddPtr(s: Search, at: Where, instance: CString, ttl: nat): Search {
    var i := First(s.results, at, Instance(instance));
    if i < |s.results| then Lower(s, i, ttl)
    else PrependIfRoom(s, Result(at, Some(instance), None, 0, None, [], ttl))
  }

  function AddSrv(s: Search, at: Where, host: CString, port: nat, ttl: nat): Search {
    var i := First(s.results, at, Host(host));
    if i < |s.results| then Lower(s, i, ttl)
    else PrependIfRoom(s, Result(at, None, Some(host), port, None, [], ttl))
  }

  function AddTxt(s: Search, at: Where, txt: nat, ttl: nat): Search {
    var i := First(s.results, at, Place);
    if i < |s.results| then
      if s.results[i].txt.Some? then s
      else Lower(s.(results := s.results[i := s.results[i].(txt := Some(txt))]), i, ttl)
    else PrependIfRoom(s, Result(at, None, None, 0, Some(txt), [], ttl))
  }

  function AddAddr(r: Result, ip: Addr): Result {
    if ip in r.addrs then r else r.(addrs := [ip] + r.addrs)
  }

  predicate TakesAddr(kind: Kind, ip: Addr) {
    (kind.OfA? && ip.V4?) || (kind.OfAaaa? && ip.V6?) || kind.OfAny?
  }

  function AddIp(s: Search, at: Where, host: CString, ip: Addr, ttl: nat): Search {
    if TakesAddr(s.kind, ip) then
      var i := First(s.results, at, Place);
      if i < |s.results| then Lower(s.(results := s.results[i := AddAddr(s.results[i], ip)]), i, ttl)
      else PrependIfRoom(s, Result(at, None, Some(host), 0, None, [ip], ttl))
    else if s.kind.OfPtr? || s.kind.OfSrv? then
      var i := First(s.results, at, Host(host));
      if i < |s.results| then Lower(s.(results := s.results[i := AddAddr(s.results[i], ip)]), i, ttl) else s
    else s
  }

  /** The result an SRV or TXT record of a PTR search belongs to: its exact name, or as a PTR record. */
  function ForInstance(s: Search, at: Where, instance: CString, ttl: nat): (r: (Search, nat))
    ensures r.1 <= |r.0.results|
  {
    var i := First(s.results, at, Exact(instance));
    if i < |s.results| then (s, i)
    else
      var j := First(s.results, at, Instance(instance));
      var added := AddPtr(s, at, instance, ttl);
      (added, if j < |s.results| then j else if HasRoom(s) then 0 else |added.results|)
  }

  /** A record handed to a search by the parser. */
  datatype Record =
    | PtrRec(instance: CString)
    | SrvRec(instance: CString, host: CString, port: nat)
    | TxtRec(instance: CString, txt: nat)
    | IpRec(host: CString, ip: Addr)

  function Found(s: Search, at: Where, rec: Record, ttl: nat): Search {
    match rec
    case PtrRec(instance) => AddPtr(s, at, instance, ttl)
    case SrvRec(instance, host, port) =>
      if !s.kind.OfPtr? then AddSrv(s, at, host, port, ttl)
      else
        var (t, i) := ForInstance(s, at, instance, ttl);
        if i < |t.results| && t.results[i].hostname.None?
        then t.(results := t.results[i := t.results[i].(port := port, hostname := Some(host))]) else t
    case TxtRec(instance, txt) =>
      if !s.kind.OfPtr? then AddTxt(s, at, txt, ttl)
      else
        var (t, i) := ForInstance(s, at, instance, ttl);
        if i < |t.results| && t.results[i].txt.None?
        then t.(results := t.results[i := t.results[i].(txt := Some(txt))]) else t
    case IpRec(host, ip) => AddIp(s, at, host, ip, ttl)
  }

  // ---------- The list of searches ----------

  /** queueDetach: the first place. */
  function Detach(list: seq<nat>, id: nat): seq<nat> {
    if list == [] then []
    else if list[0] == id then list[1..]
    else [list[0]] + Detach(list[1..], id)
  }

  /** search_finish. */
  function Finish(s: Sys, id: nat): Sys {
    if id !in s.list || id !in s.searches then s
    else
      var r := s.searches[id];
      s.(list := Detach(s.list, id))
       .With(id, r.(state := Over, notifier := false, notified := r.notified + if r.notifier then 1 else 0,
                    given := r.given + 1))
  }

  /** The service task takes an action. */
  function Take(s: Sys): Sys {
    if s.fifo == [] then s
    else
      var t := s.(fifo := s.fifo[1..]);
      match s.fifo[0]
      case Add(id) => t.(list := [id] + t.list, strayed := t.strayed || id !in t.alive)
      case Send(_) => t
      case End(id) => Finish(t, id)
      case Else => t
  }

  /** One search of the timer's loop; `accept` says whether the action queue takes the action. */
  function StartStop1(s: Sys, id: nat, accept: bool): Sys {
    if id !in s.searches then s
    else
      var r := s.searches[id];
      if r.state.Over? then s.With(id, r)
      else if s.now > r.startedAt + r.timeout then
        if accept then s.With(id, r.(state := Over)).(fifo := s.fifo + [End(id)])
        else s.With(id, r.(state := Active))
      else if r.state.Waiting? || s.now - r.sentAt > 1000 then
        if accept then s.With(id, r.(state := Active, sentAt := s.now)).(fifo := s.fifo + [Send(id)])
        else s.With(id, r.(state := Active, sentAt := s.now - 1000))
      else s.With(id, r)
  }

  /** mdns_priv_query_start_stop, from the given part of the list on. */
  function StartStop(s: Sys, ids: seq<nat>, accept: nat -> bool): Sys
    decreases |ids|
  {
    if ids == [] then s else StartStop(StartStop1(s, ids[0], accept(ids[0])), ids[1..], accept)
  }

  predicate Full(s: Sys, id: nat) {
    id in s.searches && s.searches[id].max != 0 && s.searches[id].num >= s.searches[id].max
  }

  /** mdns_priv_query_done, from the given part of the list on. */
  function QueryDone(s: Sys, ids: seq<nat>): Sys
    decreases |ids|
  {
    if ids == [] then s
    else
      var t := s.(strayed := s.strayed || ids[0] !in s.alive);
      QueryDone(if Full(t, ids[0]) then Finish(t, ids[0]) else t, ids[1..])
  }

  /** mdns_query_async_new and mdns_query: a search whose ADD action could not be queued is freed again. */
  function New(s: Sys, timeout: nat, notifier: bool, kind: Kind, max: nat, accept: bool): Sys {
    var search := Search(Waiting, s.now, timeout, 0, notifier, kind, max % 256, 0, [], 0, 0);
    var t := s.(searches := s.searches[s.nextId := search], nextId := s.nextId + 1);
    if accept then t.(alive := s.alive + {s.nextId}, fifo := s.fifo + [Add(s.nextId)]) else t
  }

  /** mdns_query_async_delete: refused until the search is over. */
  function Delete(s: Sys, id: nat): Sys {
    if id !in s.searches || !s.searches[id].state.Over? then s
    else s.(list := Detach(s.list, id), alive := s.alive - {id}).(strayed := s.strayed || id !in s.alive)
  }

  /** mdns_query frees its search once the semaphore was given. */
  function Collect(s: Sys, id: nat): Sys {
    s.(alive := s.alive - {id}, strayed := s.strayed || id !in s.alive)
  }

  // ---------- Whole runs ----------

  datatype Event =
    | Wait(ms: nat)
    | TimerTick(accept: nat -> bool)
    | TakeAction
    | PostElse
    | NewSearch(timeout: nat, notifier: bool, kind: Kind, max: nat, queued: bool)
    | DeleteSearch(id: nat)
    | CollectSearch(id: nat)
    | RecordFound(id: nat, at: Where, rec: Record, ttl: nat)
    | PacketParsed

  /** Callers delete a search they hold, once; a record is for a running search of the list. */
  predicate CanHappen(s: Sys, e: Event) {
    match e
    case DeleteSearch(id) => id in s.alive
    case CollectSearch(id) => id in s.alive && id in s.searches && s.searches[id].given > 0
    case RecordFound(id, _, _, _) => id in s.list && id in s.searches && !s.searches[id].state.Over?
    case _ => true
  }

  function Step(s: Sys, e: Event): Sys {
    match e
    case Wait(ms) => s.(now := s.now + ms)
    case TimerTick(accept) => StartStop(s, s.list, accept)
    case TakeAction => Take(s)
    case PostElse => s.(fifo := s.fifo + [Else])
    case NewSearch(timeout, notifier, kind, max, queued) => New(s, timeout, notifier, kind, max, queued)
    case DeleteSearch(id) => Delete(s, id)
    case CollectSearch(id) => Collect(s, id)
    case RecordFound(id, at, rec, ttl) => if id in s.searches then s.With(id, Found(s.searches[id], at, rec, ttl))
           else s
    case PacketParsed => QueryDone(s, s.list)
  }

  function Run(s: Sys, events: seq<Event>): Option<Sys>
    decreases |events|
  {
    if events == [] then Some(s)
    else if CanHappen(s, events[0]) then Run(Step(s, events[0]), events[1..])
    else None
  }

  const START := Sys(0, [], map[], {}, [], 0, false)

  // ---------- The invariant ----------

  /** The searches still to be added, in order. */
  function Adds(fifo: seq<Act>): seq<nat> {
    if fifo == [] then [] else (if fifo[0].Add? then [fifo[0].id] else []) + Adds(fifo[1..])
  }

  /** Two results for one instance on one interface and protocol. */
  predicate Twins(a: Result, b: Result) {
    a.at == b.at && Given(a.instance) && Given(b.instance) && EqNoCase(a.instance.value, b.instance.value)
  }

  predicate NoTwins(results: seq<Result>) {
    forall i, j :: 0 <= i < j < |results| ==> !Twins(results[i], results[j])
  }

  /** The results are counted, limited, and for a PTR search, one for each instance. */
  predicate Bounded(s: Search) {
    && s.num == |s.results| % 256
    && (s.max != 0 ==> |s.results| <= s.max)
    && (s.kind.OfPtr? ==> NoTwins(s.results))
  }

  predicate Waits(s: Sys, id: nat) {
    id in s.list || id in Adds(s.fifo)
  }

  predicate SearchOk(s: Sys, id: nat)
    requires id in s.searches
  {
    var r := s.searches[id];
    && id < s.nextId
    && Bounded(r)
    && r.notified <= r.given <= 1
    && (Waits(s, id) ==> id in s.alive && r.given == 0)
    && (id in s.alive && !Waits(s, id) ==> r.given == 1 && r.state.Over?)
    && (id in Adds(s.fifo) ==> r.state.Waiting?)
    && (id in s.list && r.state.Over? ==> End(id) in s.fifo)
  }

  predicate Inv(s: Sys) {
    && !s.strayed
    && NoRepeats(s.list + Adds(s.fifo))
    && s.alive <= s.searches.Keys
    && (forall id :: id in s.list + Adds(s.fifo) ==> id in s.alive)
    && (forall id :: id in s.searches ==> SearchOk(s, id))
  }

  // ---------- Results stay within their limit ----------

  /** The same instances at the same places. */
  predicate SameNames(a: seq<Result>, b: seq<Result>) {
    |a| == |b| && forall i :: 0 <= i < |a| ==> a[i].at == b[i].at && a[i].instance == b[i].instance
  }

  lemma EditKeepsBounds(s: Search, t: Search)
    requires Bounded(s) && t == s.(results := t.results) && SameNames(s.results, t.results)
    ensures Bounded(t)
  {
    if s.kind.OfPtr? {
      forall i, j | 0 <= i < j < |t.results|
        ensures !Twins(t.results[i], t.results[j])
      {
        assert !Twins(s.results[i], s.results[j]);
      }
    }
  }

  lemma PrependKeepsBounds(s: Search, r: Result)
    requires Bounded(s)
    requires s.kind.OfPtr? ==> forall i :: 0 <= i < |s.results| ==> !Twins(r, s.results[i])
    ensures Bounded(PrependIfRoom(s, r))
  {
    if HasRoom(s) && s.kind.OfPtr? {
      var t := [r] + s.results;
      forall i, j | 0 <= i < j < |t|
        ensures !Twins(t[i], t[j])
      {
        assert t[j] == s.results[j - 1];
        if i > 0 {
          assert t[i] == s.results[i - 1];
        }
      }
    }
  }

  lemma AddPtrKeepsBounds(s: Search, at: Where, instance: CString, ttl: nat)
    requires Bounded(s)
    ensures Bounded(AddPtr(s, at, instance, ttl))
  {
    hide Bounded, First, EqNoCase;
    var i := First(s.results, at, Instance(instance));
    if i < |s.results| {
      EditKeepsBounds(s, Lower(s, i, ttl));
    } else {
      forall j | 0 <= j < |s.results|
        ensures !Twins(Result(at, Some(instance), None, 0, None, [], ttl), s.results[j])
      {
        assert !Matches(s.results[j], at, Instance(instance));
      }
      PrependKeepsBounds(s, Result(at, Some(instance), None, 0, None, [], ttl));
    }
  }

  lemma AddIpKeepsBounds(s: Search, at: Where, host: CString, ip: Addr, ttl: nat)
    requires Bounded(s)
    ensures Bounded(AddIp(s, at, host, ip, ttl))
  {
    hide Bounded, First;
    var t := AddIp(s, at, host, ip, ttl);
    var i := First(s.results, at, if TakesAddr(s.kind, ip) then Place else Host(host));
    if i < |s.results| {
      EditKeepsBounds(s, t);
    } else {
      PrependKeepsBounds(s, Result(at, None, Some(host), 0, None, [ip], ttl));
    }
  }

  lemma AddSrvKeepsBounds(s: Search, at: Where, host: CString, port: nat, ttl: nat)
    requires Bounded(s)
    ensures Bounded(AddSrv(s, at, host, port, ttl))
  {
    hide Bounded, First;
    var i := First(s.results, at, Host(host));
    if i < |s.results| {
      EditKeepsBounds(s, Lower(s, i, ttl));
    } else {
      PrependKeepsBounds(s, Result(at, None, Some(host), port, None, [], ttl));
    }
  }

  lemma AddTxtKeepsBounds(s: Search, at: Where, txt: nat, ttl: nat)
    requires Bounded(s)
    ensures Bounded(AddTxt(s, at, txt, ttl))
  {
    hide Bounded, First;
    var i := First(s.results, at, Place);
    if i < |s.results| {
      EditKeepsBounds(s, AddTxt(s, at, txt, ttl));
    } else {
      PrependKeepsBounds(s, Result(at, None, None, 0, Some(txt), [], ttl));
    }
  }

  lemma ForInstanceKeepsBounds(s: Search, at: Where, instance: CString, ttl: nat)
    requires Bounded(s)
    ensures Bounded(ForInstance(s, at, instance, ttl).0)
  {
    hide Bounded, First, AddPtr;
    AddPtrKeepsBounds(s, at, instance, ttl);
  }

  /** The result a record of a PTR search is written to is the one of its instance. */
  lemma ForInstanceFinds(s: Search, at: Where, instance: CString, ttl: nat)
    ensures var (t, i) := ForInstance(s, at, instance, ttl);
            i < |t.results| ==> t.results[i].at == at && t.results[i].instance.Some?
                                && EqNoCase(instance, t.results[i].instance.value)
    ensures ForInstance(s, at, instance, ttl).1 == |ForInstance(s, at, instance, ttl).0.results|
            ==> !HasRoom(s) && ForInstance(s, at, instance, ttl).0 == s
  {
    hide First, EqNoCase;
    EqSelf(instance);
  }

  /** No record makes the counter wrong, exceeds the limit, or gives a PTR search two results for one
   * instance. */
  lemma FoundKeepsBounds(s: Search, at: Where, rec: Record, ttl: nat)
    requires Bounded(s)
    ensures Bounded(Found(s, at, rec, ttl))
  {
    hide Bounded, AddPtr, AddSrv, AddTxt, AddIp, ForInstance;
    match rec
    case PtrRec(instance) => AddPtrKeepsBounds(s, at, instance, ttl);
    case SrvRec(instance, host, port) =>
      AddSrvKeepsBounds(s, at, host, port, ttl);
      ForInstanceKeepsBounds(s, at, instance, ttl);
      if s.kind.OfPtr? {
        EditKeepsBounds(ForInstance(s, at, instance, ttl).0, Found(s, at, rec, ttl));
      }
    case TxtRec(instance, txt) =>
      AddTxtKeepsBounds(s, at, txt, ttl);
      ForInstanceKeepsBounds(s, at, instance, ttl);
      if s.kind.OfPtr? {
        EditKeepsBounds(ForInstance(s, at, instance, ttl).0, Found(s, at, rec, ttl));
      }
    case IpRec(host, ip) => AddIpKeepsBounds(s, at, host, ip, ttl);
  }

  /** A record changes the results and their number, and nothing else of a search. */
  predicate SameRest(s: Search, t: Search) {
    t == s.(results := t.results, num := t.num)
  }

  lemma AddPtrKeepsRest(s: Search, at: Where, instance: CString, ttl: nat)
    ensures SameRest(s, AddPtr(s, at, instance, ttl)) && SameRest(s, ForInstance(s, at, instance, ttl).0)
  {
    hide First;
  }

  lemma AddDataKeepsRest(s: Search, at: Where, host: CString, n: nat, ttl: nat)
    ensures SameRest(s, AddSrv(s, at, host, n, ttl)) && SameRest(s, AddTxt(s, at, n, ttl))
  {
    hide First;
  }

  lemma AddIpKeepsRest(s: Search, at: Where, host: CString, ip: Addr, ttl: nat)
    ensures SameRest(s, AddIp(s, at, host, ip, ttl))
  {
    hide First, AddAddr;
  }

  lemma FoundKeepsRest(s: Search, at: Where, rec: Record, ttl: nat)
    ensures SameRest(s, Found(s, at, rec, ttl))
  {
    hide First, AddPtr, AddSrv, AddTxt, AddIp, ForInstance;
    match rec
    case PtrRec(instance) => AddPtrKeepsRest(s, at, instance, ttl);
    case SrvRec(instance, host, port) =>
      AddPtrKeepsRest(s, at, instance, ttl);
      AddDataKeepsRest(s, at, host, port, ttl);
    case TxtRec(instance, txt) =>
      AddPtrKeepsRest(s, at, instance, ttl);
      AddDataKeepsRest(s, at, [], txt, ttl);
    case IpRec(host, ip) => AddIpKeepsRest(s, at, host, ip, ttl);
  }

  // ---------- Lists ----------

  lemma {:induction false} AddsAppend(a: seq<Act>, b: seq<Act>)
    ensures Adds(a + b) == Adds(a) + Adds(b)
    decreases |a|
  {
    if a == [] {
      assert a + b == b;
    } else {
      assert (a + b)[0] == a[0] && (a + b)[1..] == a[1..] + b;
      AddsAppend(a[1..], b);
      var head := if a[0].Add? then [a[0].id] else [];
      assert head + (Adds(a[1..]) + Adds(b)) == (head + Adds(a[1..])) + Adds(b);
    }
  }

  /** Posting another action adds no search. */
  lemma Posted(fifo: seq<Act>, a: Act)
    ensures Adds(fifo + [a]) == Adds(fifo) + if a.Add? then [a.id] else []
  {
    AddsAppend(fifo, [a]);
    assert [a][1..] == [];
    assert Adds([]) == [];
    assert (if a.Add? then [a.id] else []) + [] == if a.Add? then [a.id] else [];
  }

  lemma {:induction false} DetachIs(list: seq<nat>, id: nat)
    requires NoRepeats(list)
    ensures NoRepeats(Detach(list, id)) && forall x :: x in Detach(list, id) <==> x in list && x != id
    decreases |list|
  {
    if list != [] {
      var rest := list[1..];
      assert forall i :: 0 <= i < |rest| ==> rest[i] == list[i + 1];
      assert list == [list[0]] + rest && list[0] !in rest;
      DetachIs(rest, id);
      var r := Detach(list, id);
      if list[0] != id {
        assert forall i :: 1 <= i < |r| ==> r[i] == Detach(rest, id)[i - 1] && r[i] in Detach(rest, id);
      }
    }
  }

  lemma NoRepeatsParts(a: seq<nat>, b: seq<nat>)
    ensures NoRepeats(a + b) <==> NoRepeats(a) && NoRepeats(b) && forall x :: x in a ==> x !in b
  {
    var c := a + b;
    if NoRepeats(c) {
      forall i, j | 0 <= i < j < |a|
        ensures a[i] != a[j]
      {
        assert c[i] == a[i] && c[j] == a[j];
      }
      forall i, j | 0 <= i < j < |b|
        ensures b[i] != b[j]
      {
        assert c[|a| + i] == b[i] && c[|a| + j] == b[j];
      }
      forall x | x in a
        ensures x !in b
      {
        var i :| 0 <= i < |a| && a[i] == x;
        assert c[i] == x;
        forall j | 0 <= j < |b|
          ensures b[j] != x
        {
          assert c[|a| + j] == b[j];
        }
      }
    }
    if NoRepeats(a) && NoRepeats(b) && forall x :: x in a ==> x !in b {
      forall i, j | 0 <= i < j < |c|
        ensures c[i] != c[j]
      {
        if i < |a| <= j {
          assert c[i] in a && c[j] in b;
        }
      }
    }
  }

  // ---------- Every step ----------

  /** A change of one search that the rest of the state does not see. */
  lemma WithKeeps(s: Sys, id: nat, r: Search)
    requires Inv(s) && id in s.alive && Bounded(r)
    requires var was := s.searches[id];
             && r.notified == was.notified && r.given == was.given
             && (r.state == was.state || (id in s.list && was.state.Waiting? && r.state.Active?))
    ensures Inv(s.With(id, r))
  {
    hide Bounded, Adds;
    var t := s.With(id, r);
    NoRepeatsParts(s.list, Adds(s.fifo));
    forall x | x in t.searches
      ensures SearchOk(t, x)
    {
      assert SearchOk(s, x);
    }
  }

  lemma FinishKeeps(s: Sys, id: nat)
    requires Inv(s)
    ensures Inv(Finish(s, id)) && Finish(s, id).fifo == s.fifo
    ensures Finish(s, id).list == if id in s.list then Detach(s.list, id) else s.list
    ensures id in s.list ==> Finish(s, id).searches[id].given == 1
  {
    hide Bounded, Adds;
    NoRepeatsParts(s.list, Adds(s.fifo));
    if id in s.list {
      assert id in s.list + Adds(s.fifo);
      assert SearchOk(s, id);
      DetachIs(s.list, id);
      NoRepeatsParts(Detach(s.list, id), Adds(s.fifo));
      var t := Finish(s, id);
      BoundedAnyState(s.searches[id], t.searches[id]);
      forall x | x in t.searches
        ensures SearchOk(t, x)
      {
        assert SearchOk(s, x);
      }
      assert forall x :: x in t.list + Adds(t.fifo) ==> x in s.list + Adds(s.fifo);
    }
  }

  lemma BoundedAnyState(r: Search, t: Search)
    requires Bounded(r) && r.results == t.results && r.num == t.num && r.max == t.max && r.kind == t.kind
    ensures Bounded(t)
  {}

  lemma TakeKeeps(s: Sys)
    requires Inv(s)
    ensures Inv(Take(s))
  {
    hide Bounded;
    if s.fifo != [] {
      var t := s.(fifo := s.fifo[1..]);
      var adds := Adds(t.fifo);
      NoRepeatsParts(s.list, Adds(s.fifo));
      match s.fifo[0] {
        case Add(id) =>
          assert Adds(s.fifo) == [id] + adds;
          NoRepeatsParts([id], adds);
          NoRepeatsParts([id], s.list);
          NoRepeatsParts([id] + s.list, adds);
          assert id in s.list + Adds(s.fifo);
          var u := Take(s);
          AddedOk(s, u, id);
        case End(id) =>
          EndTaken(s, id);
        case _ =>
          assert Adds(s.fifo) == [] + adds == adds;
          OtherTaken(s);
      }
    }
  }

  lemma AddedOk(s: Sys, u: Sys, id: nat)
    requires Inv(s) && s.fifo != [] && s.fifo[0] == Add(id) && u == Take(s)
    requires NoRepeats(u.list + Adds(u.fifo)) && Adds(s.fifo) == [id] + Adds(u.fifo) && id in s.alive
    ensures Inv(u)
  {
    hide Bounded, Adds;
    forall x | x in u.searches
      ensures SearchOk(u, x)
    {
      assert SearchOk(s, x);
      assert id in Adds(s.fifo);
      assert Waits(u, x) <==> Waits(s, x);
      assert End(x) in s.fifo ==> End(x) in u.fifo;
    }
    forall x | x in u.list + Adds(u.fifo)
      ensures x in u.alive
    {
      assert x in s.list + Adds(s.fifo);
    }
  }

  lemma OtherTaken(s: Sys)
    requires Inv(s) && s.fifo != [] && !s.fifo[0].End? && Adds(s.fifo[1..]) == Adds(s.fifo)
    ensures Inv(s.(fifo := s.fifo[1..]))
  {
    hide Bounded, Adds;
    var t := s.(fifo := s.fifo[1..]);
    forall x | x in t.searches
      ensures SearchOk(t, x)
    {
      assert SearchOk(s, x);
      assert End(x) in s.fifo ==> End(x) in t.fifo;
    }
  }

  lemma FinishThenPop(s: Sys, id: nat, left: seq<Act>)
    ensures Finish(s.(fifo := left), id) == Finish(s, id).(fifo := left)
  {}

  /** The END action taken, whether or not its search is still in the list. */
  lemma EndTaken(s: Sys, id: nat)
    requires Inv(s) && s.fifo != [] && s.fifo[0] == End(id)
    ensures Inv(Take(s))
  {
    hide Bounded, Adds, Finish;
    var left := s.fifo[1..];
    FirstIsNoAdd(s.fifo);
    FinishKeeps(s, id);
    FinishThenPop(s, id, left);
    var a := Finish(s, id);
    NoRepeatsParts(s.list, Adds(s.fifo));
    DetachIs(s.list, id);
    assert id !in a.list;
    assert forall x :: x != id && End(x) in s.fifo ==> End(x) in left;
    PoppedOk(a, id, left);
  }

  /** An END action whose search has left the list is not needed. */
  lemma PoppedOk(a: Sys, id: nat, left: seq<Act>)
    requires Inv(a) && id !in a.list && Adds(left) == Adds(a.fifo)
    requires forall x :: x != id && End(x) in a.fifo ==> End(x) in left
    ensures Inv(a.(fifo := left))
  {
    hide Bounded, Adds;
    var b := a.(fifo := left);
    forall x | x in b.searches
      ensures SearchOk(b, x)
    {
      assert SearchOk(a, x);
    }
  }

  lemma FirstIsNoAdd(fifo: seq<Act>)
    requires fifo != [] && !fifo[0].Add?
    ensures Adds(fifo[1..]) == Adds(fifo)
  {
    assert [] + Adds(fifo[1..]) == Adds(fifo[1..]);
  }

  /** Posting an action for a search, or for anything but a new search. */
  lemma PostKeeps(s: Sys, a: Act)
    requires Inv(s) && !a.Add?
    ensures Inv(s.(fifo := s.fifo + [a]))
  {
    hide Bounded, Adds;
    Posted(s.fifo, a);
    var t := s.(fifo := s.fifo + [a]);
    assert Adds(s.fifo) + [] == Adds(s.fifo);
    forall x | x in t.searches
      ensures SearchOk(t, x)
    {
      assert SearchOk(s, x);
    }
  }

  lemma StartStop1Keeps(s: Sys, id: nat, accept: bool)
    requires Inv(s) && id in s.list
    ensures Inv(StartStop1(s, id, accept)) && StartStop1(s, id, accept).list == s.list
  {
    hide Bounded, Adds;
    assert id in s.list + Adds(s.fifo);
    var r := s.searches[id];
    assert SearchOk(s, id);
    BoundedAnyState(r, r.(state := Over));
    BoundedAnyState(r, r.(state := Active));
    BoundedAnyState(r, r.(state := Active, sentAt := s.now));
    BoundedAnyState(r, r.(state := Active, sentAt := s.now - 1000));
    if r.state.Over? {
      WithKeeps(s, id, r);
    } else if s.now > r.startedAt + r.timeout {
      if accept {
        PostKeeps(s, End(id));
        OverKeeps(s.(fifo := s.fifo + [End(id)]), id);
      } else {
        WithKeeps(s, id, r.(state := Active));
      }
    } else if r.state.Waiting? || s.now - r.sentAt > 1000 {
      if accept {
        WithKeeps(s, id, r.(state := Active, sentAt := s.now));
        PostKeeps(s.With(id, r.(state := Active, sentAt := s.now)), Send(id));
      } else {
        WithKeeps(s, id, r.(state := Active, sentAt := s.now - 1000));
      }
    } else {
      WithKeeps(s, id, r);
    }
  }

  lemma OverKeeps(s: Sys, id: nat)
    requires Inv(s) && id in s.list && End(id) in s.fifo && id in s.searches
    ensures Inv(s.With(id, s.searches[id].(state := Over)))
  {
    hide Bounded, Adds;
    NoRepeatsParts(s.list, Adds(s.fifo));
    assert id in s.list + Adds(s.fifo);
    var t := s.With(id, s.searches[id].(state := Over));
    BoundedAnyState(s.searches[id], t.searches[id]);
    forall x | x in t.searches
      ensures SearchOk(t, x)
    {
      assert SearchOk(s, x);
    }
  }

  lemma {:induction false} StartStopKeeps(s: Sys, ids: seq<nat>, accept: nat -> bool)
    requires Inv(s) && forall id :: id in ids ==> id in s.list
    ensures Inv(StartStop(s, ids, accept)) && StartStop(s, ids, accept).list == s.list
    decreases |ids|
  {
    hide Inv, StartStop1;
    if ids != [] {
      StartStop1Keeps(s, ids[0], accept(ids[0]));
      StartStopKeeps(StartStop1(s, ids[0], accept(ids[0])), ids[1..], accept);
    }
  }

  lemma {:induction false} QueryDoneKeeps(s: Sys, ids: seq<nat>)
    requires Inv(s) && NoRepeats(ids) && forall id :: id in ids ==> id in s.list
    ensures Inv(QueryDone(s, ids))
    decreases |ids|
  {
    hide Bounded, Adds, Finish, SearchOk;
    if ids != [] {
      var id := ids[0];
      var rest := ids[1..];
      assert id in s.list + Adds(s.fifo);
      assert forall i :: 0 <= i < |rest| ==> rest[i] == ids[i + 1];
      NoRepeatsParts(s.list, Adds(s.fifo));
      DetachIs(s.list, id);
      FinishKeeps(s, id);
      assert forall x :: x in rest ==> x in ids && x != id;
      QueryDoneKeeps(if Full(s, id) then Finish(s, id) else s, rest);
      assert s.(strayed := s.strayed || id !in s.alive) == s;
    }
  }

  lemma NewKeeps(s: Sys, timeout: nat, notifier: bool, kind: Kind, max: nat, accept: bool)
    requires Inv(s)
    ensures Inv(New(s, timeout, notifier, kind, max, accept))
  {
    hide Adds;
    var id := s.nextId;
    var t := New(s, timeout, notifier, kind, max, accept);
    Posted(s.fifo, Add(id));
    forall x | x in s.searches
      ensures x < id
    {
      assert SearchOk(s, x);
    }
    assert id !in s.list + Adds(s.fifo);
    NoRepeatsParts(s.list + Adds(s.fifo), [id]);
    assert s.list + (Adds(s.fifo) + [id]) == s.list + Adds(s.fifo) + [id];
    forall x | x in t.searches
      ensures SearchOk(t, x)
    {
      if x != id {
        assert SearchOk(s, x);
      }
    }
  }

  lemma DeleteKeeps(s: Sys, id: nat)
    requires Inv(s) && id in s.alive
    ensures Inv(Delete(s, id))
  {
    hide Bounded, Adds;
    assert SearchOk(s, id);
    NoRepeatsParts(s.list, Adds(s.fifo));
    if s.searches[id].state.Over? {
      DetachIs(s.list, id);
      NoRepeatsParts(Detach(s.list, id), Adds(s.fifo));
      var t := Delete(s, id);
      forall x | x in t.searches
        ensures SearchOk(t, x)
      {
        assert SearchOk(s, x);
      }
      forall x | x in t.list + Adds(t.fifo)
        ensures x in t.alive
      {
        assert x in s.list + Adds(s.fifo);
        assert id !in Adds(s.fifo);
      }
    }
  }

  lemma CollectKeeps(s: Sys, id: nat)
    requires Inv(s) && id in s.alive && s.searches[id].given > 0
    ensures Inv(Collect(s, id))
  {
    hide Bounded, Adds;
    assert SearchOk(s, id);
    var t := Collect(s, id);
    forall x | x in t.searches
      ensures SearchOk(t, x)
    {
      assert SearchOk(s, x);
    }
  }

  lemma StepKeeps(s: Sys, e: Event)
    requires Inv(s) && CanHappen(s, e)
    ensures Inv(Step(s, e))
  {
    hide SearchOk, Adds, Found, Take, StartStop, QueryDone, New, Delete, Collect, Bounded;
    NoRepeatsParts(s.list, Adds(s.fifo));
    match e
    case Wait(ms) => WaitKeeps(s, ms);
    case TimerTick(accept) => StartStopKeeps(s, s.list, accept);
    case TakeAction => TakeKeeps(s);
    case PostElse => PostKeeps(s, Else);
    case NewSearch(timeout, notifier, kind, max, queued) => NewKeeps(s, timeout, notifier, kind, max, queued);
    case DeleteSearch(id) => DeleteKeeps(s, id);
    case CollectSearch(id) => CollectKeeps(s, id);
    case RecordFound(id, at, rec, ttl) =>
      assert id in s.list + Adds(s.fifo);
      var r := s.searches[id];
      BoundsOf(s, id);
      FoundKeepsBounds(r, at, rec, ttl);
      FoundKeepsRest(r, at, rec, ttl);
      WithKeeps(s, id, Found(r, at, rec, ttl));
    case PacketParsed => QueryDoneKeeps(s, s.list);
  }

  lemma BoundsOf(s: Sys, id: nat)
    requires Inv(s) && id in s.searches
    ensures Bounded(s.searches[id])
  {
    assert SearchOk(s, id);
  }

  lemma WaitKeeps(s: Sys, ms: nat)
    requires Inv(s)
    ensures Inv(s.(now := s.now + ms))
  {
    hide Bounded, Adds;
    forall x | x in s.searches
      ensures SearchOk(s.(now := s.now + ms), x)
    {
      assert SearchOk(s, x);
    }
  }

  lemma {:induction false} RunKeeps(s: Sys, events: seq<Event>)
    requires Inv(s) && Run(s, events).Some?
    ensures Inv(Run(s, events).value)
    decreases |events|
  {
    hide Inv, Step, CanHappen;
    if events != [] {
      StepKeeps(s, events[0]);
      RunKeeps(Step(s, events[0]), events[1..]);
    }
  }

  /** In every run from the start: no freed search was touched; every search has had its notifier and its
   * semaphore called at most once; it counts its results, and with a limit never exceeds it. */
  lemma EveryRun(events: seq<Event>)
    requires Run(START, events).Some?
    ensures var s := Run(START, events).value;
            && !s.strayed
            && forall id :: id in s.searches ==>
                 var r := s.searches[id];
                 && r.notified <= 1 && r.given <= 1
                 && (r.max != 0 ==> r.num == |r.results| <= r.max)
                 && (id in s.alive && r.given == 0 ==> Waits(s, id))
  {
    hide Run;
    StartsOk();
    RunKeeps(START, events);
    var s := Run(START, events).value;
    forall id | id in s.searches
      ensures var r := s.searches[id];
              && r.notified <= 1 && r.given <= 1
              && (r.max != 0 ==> r.num == |r.results| <= r.max)
              && (id in s.alive && r.given == 0 ==> Waits(s, id))
    {
      assert SearchOk(s, id);
    }
  }

  lemma StartsOk()
    ensures Inv(START)
  {}

  // ---------- Searches do complete ----------

  function TakeAll(s: Sys): (t: Sys)
    decreases |s.fifo|
  {
    if s.fifo == [] then s else TakeShrinks(s); TakeAll(Take(s))
  }

  lemma TakeShrinks(s: Sys)
    requires s.fifo != []
    ensures Take(s).fifo == s.fifo[1..]
  {}

  /** Done, or about to be. */
  predicate Ends(s: Sys, id: nat) {
    id in s.searches && (s.searches[id].given == 1 || (id in s.list && End(id) in s.fifo))
  }

  lemma TakeEnds(s: Sys, id: nat)
    requires Inv(s) && Ends(s, id) && s.fifo != []
    ensures Ends(Take(s), id)
  {
    hide Bounded, Adds;
    TakeKeeps(s);
    assert SearchOk(s, id);
    assert id in Take(s).searches;
    assert SearchOk(Take(s), id);
    assert s.fifo == [s.fifo[0]] + s.fifo[1..];
    NoRepeatsParts(s.list, Adds(s.fifo));
    match s.fifo[0] {
      case End(x) =>
        if x in s.list {
          DetachIs(s.list, x);
        }
      case _ =>
    }
  }

  lemma {:induction false} TakeAllEnds(s: Sys, id: nat)
    requires Inv(s) && Ends(s, id)
    ensures Inv(TakeAll(s)) && Ends(TakeAll(s), id) && TakeAll(s).fifo == []
    decreases |s.fifo|
  {
    hide Inv, Ends, Take;
    if s.fifo != [] {
      TakeShrinks(s);
      TakeKeeps(s);
      TakeEnds(s, id);
      TakeAllEnds(Take(s), id);
    }
  }

  lemma {:induction false} OverStays(s: Sys, ids: seq<nat>, accept: nat -> bool, id: nat)
    requires id in s.searches && s.searches[id].state.Over?
    ensures var t := StartStop(s, ids, accept); id in t.searches && t.searches[id].state.Over?
    decreases |ids|
  {
    if ids != [] {
      OverStays(StartStop1(s, ids[0], accept(ids[0])), ids[1..], accept, id);
    }
  }

  lemma {:induction false} Expires(s: Sys, ids: seq<nat>, accept: nat -> bool, id: nat)
    requires id in ids && id in s.searches && accept(id)
    requires s.now > s.searches[id].startedAt + s.searches[id].timeout
    ensures var t := StartStop(s, ids, accept); id in t.searches && t.searches[id].state.Over?
    decreases |ids|
  {
    var t := StartStop1(s, ids[0], accept(ids[0]));
    if ids[0] == id {
      OverStays(t, ids[1..], accept, id);
    } else {
      assert id in ids[1..];
      Expires(t, ids[1..], accept, id);
    }
  }

  /** Once the time of a search has passed, a tick whose action is taken, and the service task catching up,
   * complete it. */
  lemma TimedOutCompletes(s: Sys, accept: nat -> bool, id: nat)
    requires Inv(s) && id in s.list && accept(id) && id in s.searches
    requires s.now > s.searches[id].startedAt + s.searches[id].timeout
    ensures var t := TakeAll(Step(s, TimerTick(accept))); id in t.searches && t.searches[id].given == 1
  {
    hide Bounded, Adds, StartStop, TakeAll;
    StartStopKeeps(s, s.list, accept);
    Expires(s, s.list, accept, id);
    var t := Step(s, TimerTick(accept));
    assert SearchOk(t, id);
    TakeAllEnds(t, id);
  }
}
