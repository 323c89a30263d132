/** The steps that go over every interface keep the responder's invariant. */
module ResponderAll {
  import opened Bytes
  import opened TxQueue
  import opened Responder
  import opened ResponderInv

  /** What holds of an interface while another is being restarted: its packets may be gone. */
  ghost predicate PortWeak(s: Sys, port: Port)
    requires s.Wf()
  {
    && PcbOk(s.Of(port), s.named)
    && (s.Of(port).state.Dup? ==> PartnerUp(s, port))
    && (s.Of(port).state.Probing() ==> OnlyOne(s.q.tx, port))
  }

  lemma WeakWhenDown(s: Sys, port: Port)
    requires s.Wf() && PortWeak(s, port) && !s.Of(port).ready
    ensures PortInv(s, port)
  {}

  lemma WeakOf(s: Sys, port: Port)
    requires s.Wf() && PortInv(s, port)
    ensures PortWeak(s, port)
  {}

  lemma FrameWeak(s: Sys, s': Sys, port: Port)
    requires s.Wf() && s'.Wf() && PortWeak(s, port)
    requires s'.Of(port) == s.Of(port) && s'.partner == s.partner && s'.named == s.named
    requires s.Of(port).state.Dup? && PartnerUp(s, port) ==> PartnerUp(s', port)
    requires SamePackets(s.q.tx, s'.q.tx, port)
    ensures PortWeak(s', port)
  {
    assert forall x :: x in s'.q.tx ==> x in s.q.tx + s'.q.tx;
  }

  /** The interfaces restarted so far are in order, and the others have lost no more than their packets. */
  ghost predicate Restarting(s: Sys, left: seq<Port>) {
    && s.Wf() && QInv(s.q) && NoRepeats(s.services)
    && (forall port: Port :: PortWeak(s, port))
    && (forall port: Port :: port !in left ==> PortInv(s, port))
  }

  lemma ProbeOneOk(s: Sys, port: Port, services: seq<Svc>, ip: bool, clear: bool, random: nat)
    requires s.Wf() && QInv(s.q) && PortWeak(s, port) && s.Of(port).ready
    requires NoRepeats(services) && (services != [] || ip)
    ensures var s' := ProbeOne(s, port, services, ip, clear, random);
            && Local(s, s', port) && QInv(s'.q) && PortInv(s', port) && s'.log == s.log
            && s'.Of(port).state == if s.named then Probe1 else Running
  {
    hide QInv, SamePackets, InitProbe, OnlyOne;
    NoneRepeat();
    var pcb := s.Of(port);
    var cleared := if clear then s.Set(port, pcb.(services := [], probeRunning := false)) else s;
    SameRefl(s.q.tx);
    InitProbeOk(cleared, port, services, ip, random);
    LocalTrans(s, cleared, ProbeOne(s, port, services, ip, clear, random), port);
  }

  lemma ProbeOneRestarts(s: Sys, left: seq<Port>, services: seq<Svc>, ip: bool, clear: bool, random: nat)
    requires Restarting(s, left) && left != [] && NoRepeats(services) && (services != [] || ip)
    ensures Restarting(ProbeOne(s, left[0], services, ip, clear, random), left[1..])
  {
    hide QInv, SamePackets, ProbeOne, PortWeak, PortInv, NoRepeats;
    var port := left[0];
    var s' := ProbeOne(s, port, services, ip, clear, random);
    assert left == [port] + left[1..];
    if s.Of(port).ready {
      ProbeOneOk(s, port, services, ip, clear, random);
      WeakOf(s', port);
      forall p: Port | p != port
        ensures PortWeak(s', p) && (p !in left ==> PortInv(s', p))
      {
        FrameWeak(s, s', p);
        if p !in left {
          Frame(s, s', p);
        }
      }
    } else {
      ProbeDown(s, port, services, ip, clear, random);
      WeakWhenDown(s, port);
    }
  }

  lemma ProbeDown(s: Sys, port: Port, services: seq<Svc>, ip: bool, clear: bool, random: nat)
    requires s.Wf() && !s.Of(port).ready
    ensures ProbeOne(s, port, services, ip, clear, random) == s
  {}

  lemma {:induction false} ProbeAllRestarts(s: Sys, left: seq<Port>, services: seq<Svc>, ip: bool, clear: bool,
                                            random: Port -> nat)
    requires Restarting(s, left) && NoRepeats(services) && (services != [] || ip)
    ensures Inv(ProbeAll(s, left, services, ip, clear, random))
    decreases |left|
  {
    hide QInv, ProbeOne, PortWeak, PortInv, NoRepeats;
    if left != [] {
      ProbeOneRestarts(s, left, services, ip, clear, random(left[0]));
      ProbeAllRestarts(ProbeOne(s, left[0], services, ip, clear, random(left[0])), left[1..], services, ip, clear,
        random);
    }
  }

  lemma ProbeAllKeeps(s: Sys, services: seq<Svc>, ip: bool, clear: bool, random: Port -> nat)
    requires Inv(s) && NoRepeats(services) && (services != [] || ip)
    ensures Inv(ProbeAll(s, ALL_PORTS, services, ip, clear, random))
  {
    hide QInv, ProbeAll, PortWeak, PortInv, NoRepeats;
    forall p: Port
      ensures PortWeak(s, p)
    {
      WeakOf(s, p);
    }
    ProbeAllRestarts(s, ALL_PORTS, services, ip, clear, random);
  }

  lemma AllPorts(port: Port)
    ensures port in ALL_PORTS
  {
    assert port == ALL_PORTS[2 * port.ifx + if port.v6 then 1 else 0];
  }

  lemma {:induction false} NothingThins(tx: seq<Packet>)
    ensures Thinned([], tx)
    decreases |tx|
  {
    if tx != [] {
      NothingThins(tx[1..]);
    }
  }

  lemma Emptied(s: Sys, port: Port)
    requires s.Wf() && PortInv(s, port)
    ensures PortWeak(s.(q := s.q.(tx := []), named := true), port)
  {}

  /** Giving the device a name, or another one: every packet goes, and every interface that is up
   * probes everything again. */
  lemma SetNameKeeps(s: Sys, random: Port -> nat)
    requires Inv(s)
    ensures Inv(RestartAll(s.(named := true), random))
  {
    hide QInv, ProbeAll, PortWeak, PortInv, NoRepeats;
    var s1 := s.(q := s.q.(tx := []), named := true);
    NothingThins(s.q.tx);
    ThinningKeeps(s.q, []);
    forall p: Port
      ensures PortWeak(s1, p) && p in ALL_PORTS
    {
      Emptied(s, p);
      AllPorts(p);
    }
    ProbeAllRestarts(s1, ALL_PORTS, s1.services, true, true, random);
  }

  /** A new service is probed on every interface that is up. */
  lemma AddServiceKeeps(s: Sys, svc: Svc, random: Port -> nat)
    requires Inv(s) && svc !in s.services
    ensures Inv(ProbeAll(s.(services := [svc] + s.services), ALL_PORTS, [svc], false, false, random))
  {
    hide QInv, ProbeAll, PortInv, SamePackets;
    var s1 := s.(services := [svc] + s.services);
    SameRefl(s.q.tx);
    NoRepeatsAppend([svc], s.services);
    forall p: Port
      ensures PortInv(s1, p)
    {
      Frame(s, s1, p);
    }
    ProbeAllKeeps(s1, [svc], false, false, random);
  }

  lemma {:induction false} AnnounceAllKeeps(s: Sys, ports: seq<Port>, services: seq<Svc>, ip: bool, random: Port -> nat)
    requires Inv(s) && NoRepeats(services) && (services != [] || ip)
    ensures Inv(AnnounceAll(s, ports, services, ip, random))
    decreases |ports|
  {
    hide Inv, NoRepeats, Announce;
    if ports != [] {
      WellFormed(s);
      AnnounceKeeps(s, ports[0], services, ip, random(ports[0]));
      AnnounceAllKeeps(Announce(s, ports[0], services, ip, random(ports[0])), ports[1..], services, ip, random);
    }
  }
}
