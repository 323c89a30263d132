/** The responder as the program has it: a list, a FIFO and per-interface records changed in place, step
 * by step.  Every method is proved to do what the corresponding function of TxQueue or Responder says. */
module Engine {
  import opened TxQueue
  import opened Responder
  import opened EngineParts
  import opened ResponderRemoval

  class Mdns {
    var now: nat
    var tx: seq<Packet>
    var fifo: seq<Action>
    var nextId: nat
    var pcbs: map<Port, Pcb>
    var partner: map<Ifx, Ifx>
    var services: seq<Svc>
    var named: bool
    ghost var overran: bool
    ghost var log: seq<Sent>

    ghost function Queue(): Queue
      reads this
    {
      TxQueue.Queue(now, tx, fifo, nextId)
    }

    ghost function State(): Sys
      reads this
    {
      Sys(Queue(), pcbs, partner, services, named, overran, log)
    }

    ghost predicate Valid()
      reads this
    {
      State().Wf()
    }

    constructor (partner: map<Ifx, Ifx>, pcbs: map<Port, Pcb>)
      requires forall p: Port :: p in pcbs && pcbs[p] == DOWN
      requires forall i :: i in partner ==> partner[i] != i && partner[i] in partner && partner[partner[i]] == i
      ensures Valid() && State() == Sys(TxQueue.Queue(0, [], [], 0), pcbs, partner, [], false, false, [])
    {
      now, tx, fifo, nextId := 0, [], [], 0;
      this.pcbs, this.partner, services, named := pcbs, partner, [], false;
      overran, log := false, [];
    }

    // ---------- The transmit list ----------

    /** mdns_priv_send_after. */
    method SendAfter(id: nat, port: Port, body: Body, ms: nat)
      modifies this`tx
      ensures Queue() == TxQueue.SendAfter(old(Queue()), id, port, body, ms)
    {
      var p := Packet(id, now + ms, false, port, body);
      if tx == [] || tx[0].sendAt > p.sendAt {
        tx := [p] + tx;
        return;
      }
      var i := 0;
      ghost var r := Insert(tx, p);
      InsertGoesOn(tx, p, 0);
      assert tx[..0] + Insert(tx[0..], p) == Insert(tx[0..], p) && tx[0..] == tx;
      while i + 1 < |tx| && tx[i + 1].sendAt <= p.sendAt
        invariant i < |tx| && tx[..i + 1] + Insert(tx[i + 1..], p) == r
      {
        InsertGoesOn(tx, p, i + 1);
        i := i + 1;
      }
      InsertHere(tx[i + 1..], p);
      assert tx[..i + 1] + ([p] + tx[i + 1..]) == tx[..i + 1] + [p] + tx[i + 1..];
      tx := tx[..i + 1] + [p] + tx[i + 1..];
      assert tx == r;
    }

    method SendNew(port: Port, body: Body, ms: nat)
      modifies this`tx, this`nextId
      ensures Queue() == TxQueue.SendNew(old(Queue()), port, body, ms)
    {
      var id := nextId;
      nextId := nextId + 1;
      SendAfter(id, port, body, ms);
    }

    /** mdns_priv_clear_tx_queue_if. */
    method ClearIf(port: Port)
      modifies this`tx
      ensures tx == Without(old(tx), port)
    {
      while tx != [] && tx[0].port == port
        invariant Without(tx, port) == Without(old(tx), port)
        decreases |tx|
      {
        tx := tx[1..];
      }
      if tx == [] {
        return;
      }
      var i := 1;
      WithoutGoesOn(tx, port, 0);
      assert tx[..0] + Without(tx[0..], port) == Without(tx[0..], port) && tx[0..] == tx;
      while i < |tx|
        invariant 1 <= i <= |tx| && tx[..i] + Without(tx[i..], port) == Without(old(tx), port)
        decreases |tx| - i
      {
        WithoutGoesOn(tx, port, i);
        if tx[i].port == port {
          ghost var was := tx;
          tx := tx[..i] + tx[i + 1..];
          assert tx[..i] == was[..i] && tx[i..] == was[i + 1..];
        } else {
          i := i + 1;
        }
      }
      assert tx[..i] + [] == tx;
    }

    /** mdns_priv_get_next_packet: the place of the first packet of the interface. */
    method NextPacket(port: Port) returns (i: nat)
      ensures i == FirstOf(tx, port)
    {
      i := 0;
      while i < |tx| && tx[i].port != port
        invariant i <= |tx| && i + FirstOf(tx[i..], port) == FirstOf(tx, port)
      {
        assert tx[i..][1..] == tx[i + 1..];
        i := i + 1;
      }
    }

    /** The posting loop of mdns_priv_send_packets. */
    method PostDue(from: nat)
      requires from <= |tx|
      modifies this`tx, this`fifo
      ensures var (rest, posted) := Post(old(tx)[from..], now, Room(old(fifo), |old(tx)|));
              tx == old(tx)[..from] + rest && fifo == old(fifo) + posted
    {
      hide Post;
      var i := from;
      ghost var left, accept := tx[from..], Room(fifo, |tx|);
      ghost var spec := Post(left, now, accept);
      ghost var before := |fifo|;
      ghost var allTx, allFifo := tx[..from] + spec.0, fifo + spec.1;
      while i < |tx| && tx[i].sendAt < now
        invariant from <= i <= |tx| && |tx| == |old(tx)| && tx[i..] == left
        invariant accept == Room(old(fifo), |old(tx)|)[i - from..]
        invariant var r := Post(left, now, accept); tx[..i] + r.0 == allTx && fifo + r.1 == allFifo
        invariant before <= |fifo| <= before + (i - from)
        invariant before + (i - from) <= ACTION_QUEUE_LEN ==> |fifo| == before + (i - from)
        invariant before + (i - from) > ACTION_QUEUE_LEN ==> |fifo| >= ACTION_QUEUE_LEN
      {
        assert tx[i] == left[0];
        PostGoesOn(left, now, accept);
        assert accept[0] == (|fifo| < ACTION_QUEUE_LEN);
        ghost var r := Post(left[1..], now, accept[1..]);
        Replaced(tx, i, tx[i].(queued := accept[0]), r.0);
        if |fifo| < ACTION_QUEUE_LEN {
          assert fifo + ([Tx(tx[i].id)] + r.1) == fifo + [Tx(tx[i].id)] + r.1;
          tx := tx[i := tx[i].(queued := true)];
          fifo := fifo + [Tx(tx[i].id)];
        } else {
          assert [] + r.1 == r.1;
          tx := tx[i := tx[i].(queued := false)];
        }
        left, accept := left[1..], accept[1..];
        i := i + 1;
      }
      PostEnds(left, now, accept);
      assert tx[..i] + left == tx && fifo + [] == fifo;
    }

    /** mdns_priv_send_packets. */
    method SendPackets()
      modifies this`tx, this`fifo
      ensures Queue() == Tick(old(Queue()))
    {
      var i := 0;
      while i < |tx| && tx[i].queued
        invariant i <= |tx| && i + QueuedLen(tx[i..]) == QueuedLen(tx)
        modifies {}
      {
        QueuedGoesOn(tx, i);
        i := i + 1;
      }
      if i < |tx| {
        QueuedGoesOn(tx, i);
      }
      assert i == QueuedLen(tx);
      PostDue(i);
      TickIs(old(Queue()), Room(old(fifo), |old(tx)|));
    }

    // ---------- Probing ----------

    /** init_probe_new_service. */
    method InitProbeNewService(port: Port, list: seq<Svc>, ip: bool, random: nat)
      requires Valid()
      modifies this
      ensures State() == StartProbe(old(State()), port, list, ip, random) && Valid()
    {
      hide ProbeBody, TxQueue.SendNew, StartProbe;
      var pcb := pcbs[port];
      var finalLen := |list|;
      if pcb.state.IsProbing() {
        finalLen := finalLen + |pcb.services|;
      }
      ghost var over;
      var merged: seq<Svc>;
      merged, over := MergeLists(list, pcb.services, finalLen);
      var withIp := pcb.probeIp || ip;
      var body := ProbeBody(merged, withIp);
      var delay := (if pcb.failed > 5 then 1000 else 120) + random % 128;
      StartProbeIs(State(), port, list, ip, random, merged, over);
      overran := overran || over;
      SendNew(port, body, delay);
      pcbs := pcbs[port := Pcb(Probe1, merged, withIp, true, pcb.failed, pcb.ready)];
    }

    /** mdns_priv_init_pcb_probe. */
    method InitPcbProbe(port: Port, list: seq<Svc>, ip: bool, random: nat)
      requires Valid()
      modifies this
      ensures Valid() && State() == InitProbe(old(State()), port, list, ip, random)
    {
      ClearIf(port);
      if !named {
        pcbs := pcbs[port := pcbs[port].(state := Running)];
        return;
      }
      if pcbs[port].state.IsProbing() {
        var added := NewProbeServices(list, pcbs[port].services);
        InitProbeNewService(port, added, ip, random);
      } else {
        InitProbeNewService(port, list, ip, random);
      }
    }

    /** restart_pcb. */
    method RestartPcb(port: Port, random: nat)
      requires Valid()
      modifies this
      ensures Valid() && State() == Restart(old(State()), port, random)
    {
      InitPcbProbe(port, services, true, random);
    }

    /** mdns_priv_pcb_enable. */
    method PcbEnable(port: Port, up: bool, random: nat)
      requires Valid()
      modifies this
      ensures Valid() && State() == Enable(old(State()), port, up, random)
    {
      if !pcbs[port].ready {
        if !up {
          pcbs := pcbs[port := pcbs[port].(failed := 0)];
          return;
        }
      }
      pcbs := pcbs[port := pcbs[port].(ready := true)];
      RestartPcb(port, random);
    }

    /** mdns_priv_pcb_disable. */
    method PcbDisable(port: Port, up: bool, random: nat)
      requires Valid()
      modifies this
      ensures Valid() && State() == Disable(old(State()), port, up, random)
    {
      hide Enable, Without;
      if pcbs[port].ready {
        ClearIf(port);
        pcbs := pcbs[port := DOWN];
        if port.ifx in partner {
          var other := Port(partner[port.ifx], port.v6);
          if pcbs[other].state.Dup? {
            pcbs := pcbs[other := pcbs[other].(state := Off)];
            PcbEnable(other, up, random);
          }
        }
      }
      pcbs := pcbs[port := pcbs[port].(state := Off)];
    }

    // ---------- Announcing ----------

    /** mdns_priv_pcb_announce. */
    method PcbAnnounce(port: Port, list: seq<Svc>, ip: bool, random: nat)
      requires Valid()
      modifies this
      ensures Valid() && State() == Announce(old(State()), port, list, ip, random)
    {
      var pcb := pcbs[port];
      if pcb.ready {
        if pcb.state.IsProbing() {
          InitPcbProbe(port, list, ip, random);
        } else if pcb.state.Announcing() {
          var i := NextPacket(port);
          if i < |tx| {
            tx := tx[i := tx[i].(body := Extend(tx[i].body, list, ip))];
            pcbs := pcbs[port := pcb.(state := Ann1)];
          }
        } else if pcb.state.Running? {
          if !named {
            return;
          }
          pcbs := pcbs[port := pcb.(state := Ann1)];
          SendNew(port, AnnounceBody(list, ip), 0);
        }
      }
    }

    /** mdns_priv_pcb_set_duplicate. */
    method SetDuplicate(ifx: Ifx, random: nat, random6: nat)
      requires Valid()
      modifies this
      ensures Valid()
      ensures State() == MarkDuplicate(MarkDuplicate(old(State()), Port(ifx, false), random), Port(ifx, true), random6)
    {
      if ifx !in partner {
        return;
      }
      var other := partner[ifx];
      ghost var s := State();
      var v6 := false;
      var rounds := 0;
      while rounds < 2
        invariant 0 <= rounds <= 2 && Valid() && v6 == (rounds == 1)
        invariant partner == old(partner)
        invariant State() == if rounds == 0 then old(State())
                             else if rounds == 1 then MarkDuplicate(old(State()), Port(ifx, false), random)
                             else MarkDuplicate(MarkDuplicate(old(State()), Port(ifx, false), random), Port(ifx, true),
                                    random6)
      {
        ghost var before := State();
        if pcbs[Port(other, v6)].ready {
          if pcbs[Port(ifx, v6)].ready {
            ClearIf(Port(ifx, v6));
            pcbs := pcbs[Port(ifx, v6) := DOWN];
          }
          pcbs := pcbs[Port(ifx, v6) := pcbs[Port(ifx, v6)].(state := Dup)];
          PcbAnnounce(Port(other, v6), [], true, if v6 then random6 else random);
        }
        assert State() == MarkDuplicate(before, Port(ifx, v6), if v6 then random6 else random);
        KeepsPartner(before, Port(ifx, v6), if v6 then random6 else random);
        rounds := rounds + 1;
        v6 := !v6 && rounds == 1;
      }
    }

    // ---------- Sending ----------

    /** mdns_priv_pcb_schedule_tx_packet. */
    method ScheduleTxPacket(p: Packet)
      requires Valid()
      modifies this
      ensures Valid() && State() == ScheduleNext(old(State()), p)
    {
      var pcb := pcbs[p.port];
      var after := 1000;
      match pcb.state {
        case Probe1 => SendAfter(p.id, p.port, p.body, 250); pcbs := pcbs[p.port := pcb.(state := Probe2)];
        case Probe2 => SendAfter(p.id, p.port, p.body, 250); pcbs := pcbs[p.port := pcb.(state := Probe3)];
        case Probe3 =>
          pcb := pcb.(probeRunning := false, probeIp := false, failed := 0, services := []);
          after := 250;
          SendNew(p.port, AnnounceFromProbe(p.body), after);
          pcbs := pcbs[p.port := pcb.(state := Ann1)];
        case Ann1 => SendAfter(p.id, p.port, p.body, after); pcbs := pcbs[p.port := pcb.(state := Ann2)];
        case Ann2 => SendAfter(p.id, p.port, p.body, after); pcbs := pcbs[p.port := pcb.(state := Ann3)];
        case Ann3 => pcbs := pcbs[p.port := pcb.(state := Running)];
        case _ =>
      }
    }

    /** send_packet and handle_packet. */
    method SendPacket(id: nat)
      requires Valid()
      modifies this
      ensures Valid()
      ensures var s := old(State());
              State() == match Claimed(s.q, id)
                         case None => s
                         case Some(p) => Handle(s.(q := AfterClaim(s.q, id)), p)
    {
      if tx != [] && tx[0].id == id && tx[0].queued {
        var p := tx[0].(queued := false);
        tx := tx[1..];
        if pcbs[p.port].state.Off? {
          return;
        }
        ghost var entry := Sent(p.port, pcbs[p.port].state, now, p.id);
        ScheduleTxPacket(p);
        log := log + [entry];
        SameLog(old(State()).(q := AfterClaim(old(Queue()), id)), p);
      }
    }

    /** service_task, one action. */
    method TakeAction()
      requires Valid()
      modifies this
      ensures Valid() && State() == RunAction(old(State()))
    {
      if fifo != [] {
        var a := fifo[0];
        fifo := fifo[1..];
        if a.Tx? {
          SendPacket(a.id);
        }
      }
    }

    // ---------- Removing a service ----------

    /** mdns_priv_pcb_check_probing_services. */
    method CheckProbingServices(port: Port, svc: Svc, removedAnswers: bool) returns (removeQuestions: bool)
      requires Valid()
      modifies this`pcbs
      ensures Valid()
      ensures pcbs == old(pcbs)[port := CheckProbing(old(pcbs)[port], svc, removedAnswers).0]
      ensures removeQuestions == CheckProbing(old(pcbs)[port], svc, removedAnswers).1
    {
      var pcb := pcbs[port];
      removeQuestions := false;
      if pcb.state.IsProbing() {
        if svc in pcb.services {
          if |pcb.services| > 1 {
            var left := ShiftOut(pcb.services, svc);
            pcbs := pcbs[port := pcb.(services := left)];
          } else {
            pcb := pcb.(services := []);
            if !pcb.probeIp {
              pcb := pcb.(probeRunning := false, state := Running);
            }
            pcbs := pcbs[port := pcb];
          }
          removeQuestions := true;
        }
      } else if pcb.state.Announcing() && removedAnswers {
        pcbs := pcbs[port := pcb.(state := Running)];
      }
      assert pcbs == old(pcbs)[port := pcbs[port]];
    }

    /** One packet of mdns_priv_remove_scheduled_service_packets. */
    method RemoveFromPacket(p: Packet, svc: Svc) returns (body: Body)
      requires Valid()
      modifies this`pcbs
      ensures Valid()
      ensures var (pcb, left) := Strip(old(pcbs)[p.port], p.body, svc);
              body == left && pcbs == old(pcbs)[p.port := pcb]
    {
      var had := p.body.answers != [];
      var answers := DeallocServiceAnswers(p.body.answers, svc);
      var additional := DeallocServiceAnswers(p.body.additional, svc);
      var servers := DeallocServiceAnswers(p.body.servers, svc);
      body := p.body.(answers := answers, additional := additional, servers := servers);
      if pcbs[p.port].ready {
        var asked := CheckProbingServices(p.port, svc, had && answers == []);
        if asked {
          var questions := RemoveQuestion(body.questions, svc);
          body := body.(questions := questions);
        }
      }
      assert pcbs == old(pcbs)[p.port := pcbs[p.port]];
    }

    /** mdns_priv_remove_scheduled_service_packets. */
    method RemoveScheduledServicePackets(svc: Svc)
      requires Valid()
      modifies this`tx, this`pcbs
      ensures Valid() && (tx, pcbs) == StripAll(old(tx), old(pcbs), svc)
    {
      hide Strip, StripAll;
      var i := 0;
      ghost var left := tx;
      ghost var spec := StripAll(tx, pcbs, svc);
      assert tx[0..] == tx && tx[..0] + spec.0 == spec.0;
      while i < |tx|
        invariant Valid() && 0 <= i <= |tx| && tx[i..] == left
        invariant var r := StripAll(left, pcbs, svc); tx[..i] + r.0 == spec.0 && r.1 == spec.1
        decreases |left|
      {
        var p := tx[i];
        assert p == left[0];
        StripStep(left, pcbs, svc);
        var body := RemoveFromPacket(p, svc);
        ghost var rest := StripAll(left[1..], pcbs, svc).0;
        if body.questions == [] && body.answers == [] && body.additional == [] && body.servers == [] {
          Removed(tx, i);
          tx := tx[..i] + tx[i + 1..];
        } else {
          Replaced(tx, i, p.(body := body), rest);
          tx := tx[i := p.(body := body)];
          i := i + 1;
        }
        left := left[1..];
      }
      StripNothing(pcbs, svc);
      assert tx[..i] + [] == tx;
    }

    // ---------- All interfaces ----------

    /** mdns_priv_probe_all_pcbs. */
    method ProbeAllPcbs(list: seq<Svc>, ip: bool, clear: bool, random: Port -> nat)
      requires Valid()
      modifies this
      ensures Valid() && State() == ProbeAll(old(State()), ALL_PORTS, list, ip, clear, random)
    {
      hide InitProbe, ProbeOne, ProbeAll;
      var i := 0;
      assert ALL_PORTS[0..] == ALL_PORTS;
      while i < 3
        invariant 0 <= i <= 3 && Valid()
        invariant ProbeAll(State(), ALL_PORTS[2 * i..], list, ip, clear, random)
                  == ProbeAll(old(State()), ALL_PORTS, list, ip, clear, random)
      {
        var j := 0;
        while j < 2
          invariant 0 <= j <= 2 && Valid()
          invariant ProbeAll(State(), ALL_PORTS[2 * i + j..], list, ip, clear, random)
                    == ProbeAll(old(State()), ALL_PORTS, list, ip, clear, random)
        {
          var port := Port(i, j == 1);
          ghost var before := State();
          PortAt(i, j);
          ProbeAllStep(before, ALL_PORTS[2 * i + j..], list, ip, clear, random);
          ProbeOneIs(before, port, list, ip, clear, random(port));
          if pcbs[port].ready {
            if clear {
              pcbs := pcbs[port := pcbs[port].(services := [], probeRunning := false)];
            }
            InitPcbProbe(port, list, ip, random(port));
          }
          assert State() == ProbeOne(before, port, list, ip, clear, random(port));
          j := j + 1;
        }
        i := i + 1;
      }
      assert ALL_PORTS[6..] == [];
      ProbeAllEnd(State(), list, ip, clear, random);
    }

    /** mdns_priv_restart_all_pcbs. */
    method RestartAllPcbs(random: Port -> nat)
      requires Valid()
      modifies this
      ensures Valid() && State() == RestartAll(old(State()), random)
    {
      while tx != []
        modifies this`tx
        decreases |tx|
      {
        tx := tx[1..];
      }
      ProbeAllPcbs(services, true, true, random);
    }
  }

  lemma InsertHere(tx: seq<Packet>, p: Packet)
    requires tx == [] || tx[0].sendAt > p.sendAt
    ensures Insert(tx, p) == [p] + tx
  {}

  lemma StartProbeIs(s: Sys, port: Port, list: seq<Svc>, ip: bool, random: nat, merged: seq<Svc>, over: bool)
    requires s.Wf()
    requires var pcb := s.Of(port);
             var room := |list| + (if pcb.state.IsProbing() then |pcb.services| else 0);
             var copied := if room > 0 then list + pcb.services else [];
             merged == (if |copied| <= room then copied else copied[..room]) && over == (|copied| > room)
    ensures var pcb := s.Of(port);
            var delay := (if pcb.failed > 5 then 1000 else 120) + random % 128;
            StartProbe(s, port, list, ip, random) ==
              s.(pcbs := s.pcbs[port := Pcb(Probe1, merged, pcb.probeIp || ip, true, pcb.failed, pcb.ready)],
                 q := TxQueue.SendNew(s.q, port, ProbeBody(merged, pcb.probeIp || ip), delay),
                 overran := s.overran || over)
  {
    hide ProbeBody, TxQueue.SendNew;
  }

  lemma Removed<T>(tx: seq<T>, i: nat)
    requires i < |tx|
    ensures var r := tx[..i] + tx[i + 1..]; r[..i] == tx[..i] && r[i..] == tx[i..][1..]
  {}

  lemma Replaced<T>(tx: seq<T>, i: nat, x: T, rest: seq<T>)
    requires i < |tx|
    ensures var r := tx[i := x]; r[..i + 1] + rest == tx[..i] + ([x] + rest) && r[i + 1..] == tx[i..][1..]
  {}

  lemma PortAt(i: Ifx, j: nat)
    requires j < 2
    ensures ALL_PORTS[2 * i + j..] == [Port(i, j == 1)] + ALL_PORTS[2 * i + j + 1..]
  {
    assert ALL_PORTS[2 * i + j] == Port(i, j == 1);
  }

  lemma ProbeAllStep(s: Sys, ports: seq<Port>, list: seq<Svc>, ip: bool, clear: bool, random: Port -> nat)
    requires s.Wf() && ports != []
    ensures ProbeAll(s, ports, list, ip, clear, random)
            == ProbeAll(ProbeOne(s, ports[0], list, ip, clear, random(ports[0])), ports[1..], list, ip, clear, random)
  {}

  lemma ProbeAllEnd(s: Sys, list: seq<Svc>, ip: bool, clear: bool, random: Port -> nat)
    requires s.Wf()
    ensures ProbeAll(s, [], list, ip, clear, random) == s
  {}

  lemma ProbeOneIs(s: Sys, port: Port, list: seq<Svc>, ip: bool, clear: bool, random: nat)
    requires s.Wf()
    ensures ProbeOne(s, port, list, ip, clear, random) ==
              if !s.Of(port).ready then s
              else InitProbe(if clear then s.Set(port, s.Of(port).(services := [], probeRunning := false)) else s,
                             port, list, ip, random)
  {}

  lemma ProbeKeepsPartner(s: Sys, port: Port, list: seq<Svc>, ip: bool, random: nat)
    requires s.Wf()
    ensures InitProbe(s, port, list, ip, random).partner == s.partner
  {
    hide ProbeBody, TxQueue.SendNew, NewOnes, Without;
  }

  lemma KeepsPartner(s: Sys, port: Port, random: nat)
    requires s.Wf()
    ensures MarkDuplicate(s, port, random).partner == s.partner
  {
    hide TxQueue.SendNew, Without, AnnounceBody, Extend, InitProbe;
    if Partner(s, port).Some? && s.Of(Partner(s, port).value).ready {
      var s1 := if s.Of(port).ready then s.(q := s.q.(tx := Without(s.q.tx, port))).Set(port, DOWN) else s;
      ProbeKeepsPartner(s1.Set(port, s1.Of(port).(state := Dup)), Partner(s, port).value, [], true, random);
    }
  }

  lemma SameLog(s: Sys, p: Packet)
    requires s.Wf()
    ensures ScheduleNext(s, p).log == s.log
  {
    hide TxQueue.SendNew, TxQueue.SendAfter, AnnounceFromProbe;
  }
}
