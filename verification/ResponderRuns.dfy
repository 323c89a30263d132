/** Whole runs of the responder: timer ticks, the service task, interfaces coming and going, services
 * added and removed, names set, and what received packets cause, in any order. */
module ResponderRuns {
  import opened Bytes
  import opened TxQueue
  import opened Responder
  import opened ResponderInv
  import opened ResponderSteps
  import opened ResponderRemoval
  import opened ResponderAll

  datatype Event =
    | Wait(ms: nat)
    | TimerTick
    | TakeAction
    | PostOther
    | EnableIf(port: Port, up: bool, random: nat)
    | DisableIf(port: Port, up: bool, random: nat)
    | AnnounceIp(port: Port, random: nat)
    | DuplicateFound(ifx: Ifx, random: nat, random6: nat)
    | SetName(rnd: Port -> nat)
    | ProbeAgain(services: seq<Svc>, clear: bool, rnd: Port -> nat)
    | AnnounceAgain(services: seq<Svc>, ip: bool, rnd: Port -> nat)
    | AddSvc(svc: Svc, rnd: Port -> nat)
    | RemoveSvc(svc: Svc)
    | ProbeLost(port: Port)
    | Conflict(port: Port, services: seq<Svc>, ip: bool, random: nat)
    | Respond(port: Port, body: Body, ms: nat)
    | KnownAnswer(port: Port, kind: RecordType, service: Option<Svc>)

  /** Services handed to the probe machine are registered ones, each once. */
  predicate SomeServices(s: Sys, services: seq<Svc>, ip: bool) {
    NoRepeats(services) && (services != [] || ip) && forall svc :: svc in services ==> svc in s.services
  }

  /** When an event can happen.  A response is scheduled only after probing (mdns_receive.c:1267). */
  predicate CanHappen(s: Sys, e: Event)
    requires forall p: Port :: p in s.pcbs
  {
    match e
    case PostOther => |s.q.fifo| < ACTION_QUEUE_LEN
    case ProbeAgain(services, _, _) => SomeServices(s, services, false)
    case AnnounceAgain(services, ip, _) => SomeServices(s, services, ip)
    case AddSvc(svc, _) => svc !in s.services
    case Conflict(_, services, ip, _) => SomeServices(s, services, ip)
    case Respond(port, _, _) => s.pcbs[port].state.AfterProbing()
    case _ => true
  }

  function Step(s: Sys, e: Event): (s': Sys)
    requires s.Wf() && CanHappen(s, e)
    ensures s'.Wf()
  {
    match e
    case Wait(ms) => s.(q := s.q.(now := s.q.now + ms))
    case TimerTick => s.(q := Tick(s.q))
    case TakeAction => RunAction(s)
    case PostOther => s.(q := s.q.(fifo := s.q.fifo + [Other]))
    case EnableIf(port, up, random) => Enable(s, port, up, random)
    case DisableIf(port, up, random) => Disable(s, port, up, random)
    case AnnounceIp(port, random) => Announce(s, port, [], true, random)
    case DuplicateFound(ifx, random, random6) =>
      MarkDuplicate(MarkDuplicate(s, Port(ifx, false), random), Port(ifx, true), random6)
    case SetName(rnd) => RestartAll(s.(named := true), rnd)
    case ProbeAgain(services, clear, rnd) => ProbeAll(s, ALL_PORTS, services, false, clear, rnd)
    case AnnounceAgain(services, ip, rnd) => AnnounceAll(s, ALL_PORTS, services, ip, rnd)
    case AddSvc(svc, rnd) => ProbeAll(s.(services := [svc] + s.services), ALL_PORTS, [svc], false, false, rnd)
    case RemoveSvc(svc) => RemoveService(s, svc)
    case ProbeLost(port) => s.Set(port, s.Of(port).(failed := s.Of(port).failed + 1))
    case Conflict(port, services, ip, random) => InitProbe(s, port, services, ip, random)
    case Respond(port, body, ms) => s.(q := SendNew(s.q, port, body, ms))
    case KnownAnswer(port, kind, service) => s.(q := s.q.(tx := RemoveKnown(s.q.tx, port, kind, service)))
  }

  /** Before anything is enabled. */
  predicate Initial(s: Sys) {
    && s.q.tx == [] && s.q.fifo == [] && s.services == [] && !s.named && !s.overran && s.log == []
    && forall p :: p in s.pcbs ==> s.pcbs[p] == DOWN
  }

  /** A state reached from `s` by a list of events, or none if one could not happen. */
  function Run(s: Sys, events: seq<Event>): (r: Option<Sys>)
    requires s.Wf()
    ensures r.Some? ==> r.value.Wf()
    decreases |events|
  {
    if events == [] then Some(s)
    else if CanHappen(s, events[0]) then Run(Step(s, events[0]), events[1..])
    else None
  }

  // ---------- The invariant ----------

  lemma QueueSteps(s: Sys, e: Event)
    requires Inv(s) && CanHappen(s, e) && (e.Wait? || e.TimerTick? || e.PostOther? || e.KnownAnswer?)
    ensures Inv(Step(s, e))
  {
    hide QInv, Tick, PortInv, NoRepeats;
    match e
    case Wait(ms) => WaitKeeps(s.q, ms); QueueOnly(s, Step(s, e).q);
    case TimerTick => TickStep(s);
    case PostOther => PushKeeps(s.q); QueueOnly(s, Step(s, e).q);
    case KnownAnswer(port, kind, service) => RemoveKnownKeeps(s, port, kind, service);
  }

  /** A tick changes no body and no address. */
  lemma TickStep(s: Sys)
    requires Inv(s)
    ensures Inv(s.(q := Tick(s.q)))
  {
    hide QInv, PortInv, NoRepeats, Tick;
    TickKeeps(s.q);
    var q' := Tick(s.q);
    TickBodies(s.q);
    QueueDistinct(q');
    forall p: Port
      ensures PortInv(s.(q := q'), p)
    {
      EditedPort(s, q', p);
    }
  }

  lemma QueueDistinct(q: Queue)
    requires QInv(q)
    ensures DistinctIds(q.tx)
  {}

  /** The same packets, some of them now posted. */
  ghost predicate SameButPosted(a: seq<Packet>, b: seq<Packet>) {
    |a| == |b| && forall i :: 0 <= i < |a| ==> b[i] == a[i].(queued := b[i].queued)
  }

  lemma TickBodies(q: Queue)
    requires QInv(q)
    ensures SameButPosted(q.tx, Tick(q).tx)
  {
    hide Live, QueuedIds, Post;
    var tail := q.tx[QueuedLen(q.tx)..];
    var m := DueLen(tail, q.now);
    PostTakes(tail, q.now, Room(q.fifo, |q.tx|));
    TickEdits(q, Room(q.fifo, |q.tx|)[..m]);
    assert Tick(q) == TickWith(q, Room(q.fifo, |q.tx|)[..m]);
    forall i | 0 <= i < |q.tx|
      ensures Tick(q).tx[i] == q.tx[i].(queued := Tick(q).tx[i].queued)
    {
      assert TickEdit(q, Room(q.fifo, |q.tx|)[..m], i, Tick(q).tx[i]);
    }
  }

  lemma PostedOnlyOne(a: seq<Packet>, b: seq<Packet>, port: Port)
    requires DistinctIds(b) && SameButPosted(a, b) && OnlyOne(a, port)
    ensures OnlyOne(b, port)
  {
    forall x, y | x in b && y in b && x.port == port && y.port == port
      ensures x == y
    {
      var i :| 0 <= i < |b| && b[i] == x;
      var j :| 0 <= j < |b| && b[j] == y;
      assert a[i] in a && a[j] in a;
      assert b[i].id == a[i].id && b[j].id == a[j].id;
    }
  }

  lemma PostedScheduled(a: seq<Packet>, b: seq<Packet>, port: Port, pcb: Pcb)
    requires SameButPosted(a, b)
    ensures ProbeIsScheduled(a, port, pcb) ==> ProbeIsScheduled(b, port, pcb)
    ensures AnnouncementIsScheduled(a, port) ==> AnnouncementIsScheduled(b, port)
  {
    hide Claims, Lasting;
    if ProbeIsScheduled(a, port, pcb) {
      var x :| x in a && x.port == port && Claims(x.body, pcb.services, pcb.probeIp);
      var i :| 0 <= i < |a| && a[i] == x;
      assert b[i] in b && b[i].body == x.body && b[i].port == port;
    }
    if AnnouncementIsScheduled(a, port) {
      var x :| x in a && x.port == port && Lasting(x.body);
      var i :| 0 <= i < |a| && a[i] == x;
      assert b[i] in b && b[i].body == x.body && b[i].port == port;
    }
  }

  lemma EditedPort(s: Sys, q': Queue, port: Port)
    requires s.Wf() && PortInv(s, port) && DistinctIds(q'.tx) && SameButPosted(s.q.tx, q'.tx)
    ensures PortInv(s.(q := q'), port)
  {
    hide PcbOk, OnlyOne, ProbeIsScheduled, AnnouncementIsScheduled, DistinctIds, SameButPosted;
    if s.Of(port).state.Probing() {
      PostedOnlyOne(s.q.tx, q'.tx, port);
    }
    PostedScheduled(s.q.tx, q'.tx, port, s.Of(port));
  }

  lemma RespondKeeps(s: Sys, port: Port, body: Body, ms: nat)
    requires Inv(s) && s.Of(port).state.AfterProbing()
    ensures Inv(s.(q := SendNew(s.q, port, body, ms)))
  {
    hide QInv, SendNew, PcbOk, Lasting, NoRepeats, SamePackets;
    SendFresh(s, port, body, ms);
    assert PortInv(s, port);
    assert PortInv(s.(q := SendNew(s.q, port, body, ms)), port);
    LocalKeeps(s, s.(q := SendNew(s.q, port, body, ms)), port);
  }

  lemma ProbeLostKeeps(s: Sys, port: Port)
    requires Inv(s)
    ensures Inv(s.Set(port, s.Of(port).(failed := s.Of(port).failed + 1)))
  {
    hide QInv, SamePackets;
    var s' := s.Set(port, s.Of(port).(failed := s.Of(port).failed + 1));
    SameRefl(s.q.tx);
    assert PortInv(s, port);
    assert PortInv(s', port);
    LocalKeeps(s, s', port);
  }

  /** Every step keeps the invariant. */
  lemma StepKeeps(s: Sys, e: Event)
    requires Inv(s) && CanHappen(s, e)
    ensures Inv(Step(s, e))
  {
    hide Inv, RunAction, Enable, Disable, Announce, MarkDuplicate, RestartAll, ProbeAll, AnnounceAll, RemoveService,
         InitProbe, SendNew, NoRepeats;
    assert s.Wf() by { WellFormed(s); }
    match e
    case Wait(_) => QueueSteps(s, e);
    case TimerTick => QueueSteps(s, e);
    case TakeAction => RunActionKeeps(s);
    case PostOther => QueueSteps(s, e);
    case EnableIf(port, up, random) => EnableKeeps(s, port, up, random);
    case DisableIf(port, up, random) => DisableKeeps(s, port, up, random);
    case AnnounceIp(port, random) => NoneRepeat(); AnnounceKeeps(s, port, [], true, random);
    case DuplicateFound(ifx, random, random6) =>
      MarkDuplicateKeeps(s, Port(ifx, false), random);
      MarkDuplicateKeeps(MarkDuplicate(s, Port(ifx, false), random), Port(ifx, true), random6);
    case SetName(rnd) => SetNameKeeps(s, rnd);
    case ProbeAgain(services, clear, rnd) => ProbeAllKeeps(s, services, false, clear, rnd);
    case AnnounceAgain(services, ip, rnd) => AnnounceAllKeeps(s, ALL_PORTS, services, ip, rnd);
    case AddSvc(svc, rnd) => AddServiceKeeps(s, svc, rnd);
    case RemoveSvc(svc) => RemoveServiceKeeps(s, svc);
    case ProbeLost(port) => ProbeLostKeeps(s, port);
    case Conflict(port, services, ip, random) => InitProbeKeeps(s, port, services, ip, random);
    case Respond(port, body, ms) => RespondKeeps(s, port, body, ms);
    case KnownAnswer(_, _, _) => QueueSteps(s, e);
  }

  lemma StartsOk(s: Sys)
    requires s.Wf() && Initial(s)
    ensures Inv(s)
  {}

  /** In every state of every run: no packet is stranded, every interface that is up and probing or
   * announcing owns a scheduled packet, and every duplicate has a partner that is up. */
  lemma {:induction false} EveryRun(s: Sys, events: seq<Event>)
    requires Inv(s) && Run(s, events).Some?
    ensures Inv(Run(s, events).value)
    decreases |events|
  {
    hide Inv, Step, CanHappen;
    WellFormed(s);
    if events != [] {
      RunStep(s, events);
      StepKeeps(s, events[0]);
      EveryRun(Step(s, events[0]), events[1..]);
    }
  }

  lemma RunStep(s: Sys, events: seq<Event>)
    requires s.Wf() && Run(s, events).Some? && events != []
    ensures CanHappen(s, events[0]) && Run(s, events) == Run(Step(s, events[0]), events[1..])
  {}

  lemma RunOne(s: Sys, e: Event, rest: seq<Event>)
    requires s.Wf() && CanHappen(s, e)
    ensures Run(s, [e] + rest) == Run(Step(s, e), rest)
  {
    assert ([e] + rest)[1..] == rest;
  }

  /** The interface's only packet claims what it probes. */
  predicate OnlyItsClaim(s: Sys, port: Port)
    requires forall p: Port :: p in s.pcbs
  {
    exists x :: x in s.q.tx && x.port == port && Claims(x.body, s.pcbs[port].services, s.pcbs[port].probeIp)
                && forall y :: y in s.q.tx && y.port == port ==> y == x
  }

  /** What holds of every interface in every state reached from the start: a duplicate is silent and its partner
   * is up; an interface that is up keeps a list of services only while probing; then its only packet claims what it
   * probes; and while announcing, it owns a packet that announces something.  Whether the only packet is a probe
   * that asks for every service, too, is the subject of ResponderAsks. */
  lemma FromTheStart(s: Sys, events: seq<Event>, port: Port)
    requires s.Wf() && Initial(s) && Run(s, events).Some?
    ensures var r := Run(s, events).value; var pcb := r.Of(port);
            && (pcb.state.Dup? ==>
                  !pcb.ready && port.ifx in r.partner && r.Of(Port(r.partner[port.ifx], port.v6)).ready)
            && (pcb.ready ==> (pcb.probeRunning <==> pcb.state.Probing()))
            && (pcb.ready && pcb.services != [] ==> pcb.state.Probing())
            && (pcb.ready && pcb.state.Probing() ==> OnlyItsClaim(r, port))
            && (pcb.ready && pcb.state.Announcing() ==> exists x :: x in r.q.tx && x.port == port && Lasting(x.body))
  {
    hide QInv, Run, Claims, Lasting, NoRepeats;
    StartsOk(s);
    EveryRun(s, events);
    assert PortInv(Run(s, events).value, port);
  }

  /** In every state reached from the start, the posted packets come first and are due, and the pending sends that
   * name a packet of the list name exactly these, in the same order. */
  lemma NothingIsStranded(s: Sys, events: seq<Event>)
    requires s.Wf() && Initial(s) && Run(s, events).Some?
    ensures var q := Run(s, events).value.q;
            && Sorted(q.tx) && QueuedFirst(q.tx)
            && Live(q.fifo, IdSet(q.tx)) == QueuedIds(q.tx)
            && forall p :: p in q.tx && p.queued ==> p.sendAt < q.now
  {
    hide Run, PortInv, NoRepeats;
    StartsOk(s);
    EveryRun(s, events);
  }
}
