/** The pace of probing and announcing (sections 8.1 and 8.3 of RFC 6762): left alone, an interface sends
 * three probes, each more than 250 ms after the one before, then three announcements, the first more than
 * 250 ms after the last probe and the others more than a second apart. */
module ResponderPace {
  import opened Bytes
  import opened TxQueue
  import opened Responder
  import opened ResponderInv
  import opened ResponderSteps
  import opened ResponderRuns
  import opened ResponderLists
  import opened ResponderProgress

  const STATES: seq<PState> := [Probe1, Probe2, Probe3, Ann1, Ann2, Ann3]

  /** At least this long, in milliseconds, between each of the six packets and the next. */
  const GAPS: seq<nat> := [250, 250, 250, 1000, 1000]

  /** What was sent on an interface. */
  function PortLog(log: seq<Sent>, port: Port): seq<Sent> {
    if log == [] then []
    else PortLog(log[..|log| - 1], port) + if log[|log| - 1].port == port then [log[|log| - 1]] else []
  }

  predicate Internal(e: Event) {
    e.Wait? || e.TimerTick? || e.TakeAction? || e.PostOther?
  }

  /** The packets in order, at the right pace. */
  predicate Paced(sent: seq<Sent>) {
    && |sent| <= 6
    && (forall i :: 0 <= i < |sent| ==> sent[i].state == STATES[i])
    && (forall i :: 0 <= i < |sent| - 1 ==> sent[i].at + GAPS[i] < sent[i + 1].at)
  }

  /** The interface goes on from what was sent: its only packet is the next one, and not too early. */
  predicate GoesOn(tx: seq<Packet>, state: PState, port: Port, sent: seq<Sent>) {
    && |sent| <= 6
    && if |sent| == 6 then state.Running? && forall x :: x in tx ==> x.port != port
    else
      && state == STATES[|sent|] && OnlyOne(tx, port)
      && (|sent| > 0 ==> forall x :: x in tx && x.port == port ==> sent[|sent| - 1].at + GAPS[|sent| - 1] <= x.sendAt)
  }

  /** `base`: the length of the log when the interface began. */
  predicate OnPace(s: Sys, port: Port, base: nat)
    requires forall p: Port :: p in s.pcbs
  {
    && base <= |s.log|
    && Paced(PortLog(s.log[base..], port))
    && GoesOn(s.q.tx, s.pcbs[port].state, port, PortLog(s.log[base..], port))
  }

  // ---------- The log ----------

  lemma LogGrows(log: seq<Sent>, base: nat, x: Sent, port: Port)
    requires base <= |log|
    ensures PortLog((log + [x])[base..], port) == PortLog(log[base..], port) + if x.port == port then [x] else []
  {
    var l := (log + [x])[base..];
    assert l == log[base..] + [x];
    assert l[..|l| - 1] == log[base..];
  }

  // ---------- Other interfaces ----------

  lemma GoesOnSame(a: seq<Packet>, b: seq<Packet>, state: PState, port: Port, sent: seq<Sent>)
    requires GoesOn(a, state, port, sent) && SamePackets(a, b, port)
    ensures GoesOn(b, state, port, sent)
  {
    assert forall x :: x in b ==> x in a + b;
  }

  lemma ScheduleNextOthers(s: Sys, p: Packet, port: Port)
    requires s.Wf() && port != p.port
    ensures SamePackets(s.q.tx, ScheduleNext(s, p).q.tx, port)
  {
    hide Insert, SamePackets, PState.IsProbing;
    SameRefl(s.q.tx);
    ScheduleNextShape(s, p);
    var s' := ScheduleNext(s, p);
    if s'.q.tx != s.q.tx {
      var x: Packet :| x.port == p.port && x.sendAt <= s.q.now + 1000 && s'.q.tx == Insert(s.q.tx, x);
      InsertOthers(s.q.tx, x, port);
    }
  }

  /** After a packet, the next one on the same interface waits for the gap. */
  function Gap(state: PState): nat {
    if state.Ann1? || state.Ann2? then 1000 else 250
  }

  lemma ScheduleNextGap(s: Sys, p: Packet)
    requires s.Wf() && (s.Of(p.port).state.Probing() || s.Of(p.port).state.Announcing())
    ensures var s' := ScheduleNext(s, p); var state := s.Of(p.port).state;
            if state.Ann3? then s'.q.tx == s.q.tx
            else exists x: Packet :: x.port == p.port && x.sendAt == s.q.now + Gap(state)
                   && s'.q.tx == Insert(s.q.tx, x)
  {
    hide Insert, AnnounceFromProbe;
    var s' := ScheduleNext(s, p);
    match s.Of(p.port).state {
      case Probe1 => assert s'.q.tx == Insert(s.q.tx, Packet(p.id, s.q.now + 250, false, p.port, p.body));
      case Probe2 => assert s'.q.tx == Insert(s.q.tx, Packet(p.id, s.q.now + 250, false, p.port, p.body));
      case Probe3 =>
        assert s'.q.tx == Insert(s.q.tx, Packet(s.q.nextId, s.q.now + 250, false, p.port, AnnounceFromProbe(p.body)));
      case Ann1 => assert s'.q.tx == Insert(s.q.tx, Packet(p.id, s.q.now + 1000, false, p.port, p.body));
      case Ann2 => assert s'.q.tx == Insert(s.q.tx, Packet(p.id, s.q.now + 1000, false, p.port, p.body));
      case _ =>
    }
  }

  /** The six packets, one after the other. */
  lemma NextOnPace(sent: seq<Sent>, tx: seq<Packet>, state: PState, after: PState, p: Packet, rest: seq<Packet>,
                   tx': seq<Packet>, now: nat)
    requires |sent| < 6 && Paced(sent) && GoesOn(tx, state, p.port, sent) && after == NextState(state)
    requires tx != [] && tx[0].port == p.port && tx[0].sendAt < now && forall x :: x in rest ==> x.port != p.port
    requires if state.Ann3? then tx' == rest
             else exists x: Packet :: x.port == p.port && x.sendAt == now + Gap(state) && tx' == Insert(rest, x)
    ensures var sent' := sent + [Sent(p.port, state, now, p.id)];
            Paced(sent') && GoesOn(tx', after, p.port, sent')
  {
    hide Insert;
    assert tx[0] in tx;
    var sent' := sent + [Sent(p.port, state, now, p.id)];
    if !state.Ann3? {
      var x: Packet :| x.port == p.port && x.sendAt == now + Gap(state) && tx' == Insert(rest, x);
      InsertMembers(rest, x);
    }
  }

  lemma SendStep(s: Sys, s1: Sys, p: Packet, port: Port, base: nat)
    requires Inv(s) && OnPace(s, port, base) && s.q.tx != [] && s.q.tx[0].(queued := false) == p && s.q.tx[0].queued
    requires s1.Wf() && s1.pcbs == s.pcbs && s1.log == s.log && s1.q.now == s.q.now && s1.q.tx == s.q.tx[1..]
    ensures OnPace(Handle(s1, p), port, base)
  {
    hide QInv, PortInv, ScheduleNext, OnlyOne, GoesOn, Paced, PortLog, NextState;
    var s' := Handle(s1, p);
    var sent := PortLog(s.log[base..], port);
    var state := s.Of(p.port).state;
    HeadFacts(s);
    if port != p.port {
      TailSame(s.q.tx, port);
      GoesOnSame(s.q.tx, s1.q.tx, s.Of(port).state, port, sent);
      if !state.Off? {
        LogGrows(s.log, base, Sent(p.port, state, s.q.now, p.id), port);
        assert sent + [] == sent;
        ScheduleNextLog(s1, p);
        ScheduleNextOthers(s1, p, port);
        ScheduledElsewhere(s1, p);
        GoesOnSame(s1.q.tx, s'.q.tx, s.Of(port).state, port, sent);
        assert ScheduleNext(s1, p).Of(port) == s1.Of(port);
        assert s'.Of(port) == s.Of(port);
      }
    } else {
      NotLast(s.q.tx, state, port, sent);
      LogGrows(s.log, base, Sent(p.port, state, s.q.now, p.id), port);
      ScheduleNextLog(s1, p);
      ScheduledPcb(s1, p);
      ScheduleNextGap(s1, p);
      OnlyHead(s, port, sent);
      NextOnPace(sent, s.q.tx, state, NextState(state), p, s1.q.tx, s'.q.tx, s.q.now);
    }
  }

  lemma ScheduleNextLog(s: Sys, p: Packet)
    requires s.Wf()
    ensures ScheduleNext(s, p).log == s.log
  {
    hide SendNew, SendAfter, AnnounceFromProbe;
  }

  lemma NotLast(tx: seq<Packet>, state: PState, port: Port, sent: seq<Sent>)
    requires GoesOn(tx, state, port, sent) && tx != [] && tx[0].port == port
    ensures |sent| < 6 && state == STATES[|sent|] && OnlyOne(tx, port)
    ensures state.Probing() || state.Announcing()
  {
    assert tx[0] in tx;
  }

  lemma HeadFacts(s: Sys)
    requires Inv(s) && s.q.tx != []
    ensures s.q.tx[0].queued ==> s.q.tx[0].sendAt < s.q.now
    ensures DistinctIds(s.q.tx)
  {
    assert s.q.tx[0] in s.q.tx;
  }

  lemma TailSame(tx: seq<Packet>, port: Port)
    requires tx != [] && tx[0].port != port
    ensures SamePackets(tx, tx[1..], port)
  {
    assert tx == [tx[0]] + tx[1..];
  }

  lemma OnlyHead(s: Sys, port: Port, sent: seq<Sent>)
    requires s.q.tx != [] && s.q.tx[0].port == port && DistinctIds(s.q.tx) && OnlyOne(s.q.tx, port)
    ensures forall x :: x in s.q.tx[1..] ==> x.port != port
  {
    forall x | x in s.q.tx[1..]
      ensures x.port != port
    {
      var i :| 0 <= i < |s.q.tx[1..]| && s.q.tx[1..][i] == x;
      assert s.q.tx[i + 1] == x && s.q.tx[0] in s.q.tx && x in s.q.tx;
    }
  }

  lemma PostedGoesOn(a: seq<Packet>, b: seq<Packet>, state: PState, port: Port, sent: seq<Sent>)
    requires GoesOn(a, state, port, sent) && SameButPosted(a, b) && DistinctIds(b)
    ensures GoesOn(b, state, port, sent)
  {
    if |sent| < 6 {
      PostedOnlyOne(a, b, port);
    }
    forall x | x in b
      ensures exists y :: y in a && y.port == x.port && y.sendAt == x.sendAt
    {
      var i :| 0 <= i < |b| && b[i] == x;
      assert a[i] in a && b[i] == a[i].(queued := b[i].queued);
    }
  }

  // ---------- Every internal run ----------

  lemma InternalStep(s: Sys, e: Event, port: Port, base: nat)
    requires Inv(s) && OnPace(s, port, base) && CanHappen(s, e) && Internal(e)
    ensures OnPace(Step(s, e), port, base)
  {
    hide QInv, PortInv, Paced, GoesOn, PortLog, Tick, Handle, DistinctIds, SameButPosted;
    match e {
      case TimerTick =>
        TickBodies(s.q);
        TickKeeps(s.q);
        QueueDistinct(Tick(s.q));
        PostedGoesOn(s.q.tx, Tick(s.q).tx, s.Of(port).state, port, PortLog(s.log[base..], port));
      case TakeAction =>
        if s.q.fifo != [] {
          TakeActionDrops(s);
          if Sends(s) {
            var q := s.q.(fifo := s.q.fifo[1..]);
            var p := Claimed(q, s.q.fifo[0].id).value;
            SendStep(s, s.(q := AfterClaim(q, p.id)), p, port, base);
          }
        }
      case _ =>
    }
  }

  lemma {:induction false} EveryInternalRun(s: Sys, events: seq<Event>, port: Port, base: nat)
    requires Inv(s) && OnPace(s, port, base) && Run(s, events).Some? && forall e :: e in events ==> Internal(e)
    ensures Inv(Run(s, events).value) && OnPace(Run(s, events).value, port, base)
    decreases |events|
  {
    hide Inv, Step, CanHappen, OnPace, Internal;
    WellFormed(s);
    if events != [] {
      assert events[0] in events;
      RunStep(s, events);
      StepKeeps(s, events[0]);
      InternalStep(s, events[0], port, base);
      assert forall e :: e in events[1..] ==> e in events;
      EveryInternalRun(Step(s, events[0]), events[1..], port, base);
    }
  }

  /** An interface that begins to probe, left alone: whatever was sent on it since is the beginning of three
   * probes and three announcements, in that order and at that pace, and all six were sent by the time it
   * runs. */
  lemma ThreeProbesThenThreeAnnouncements(s: Sys, events: seq<Event>, port: Port)
    requires Inv(s) && s.Of(port).ready && s.Of(port).state.Probe1?
    requires Run(s, events).Some? && forall e :: e in events ==> Internal(e)
    ensures |s.log| <= |Run(s, events).value.log|
    ensures var s' := Run(s, events).value; var sent := PortLog(s'.log[|s.log|..], port);
            && Paced(sent)
            && (s'.Of(port).state.Running? <==> |sent| == 6)
            && (|sent| < 6 ==> s'.Of(port).state == STATES[|sent|])
  {
    hide QInv, PcbOk, ProbeIsScheduled, AnnouncementIsScheduled, OnlyOne;
    assert PortInv(s, port);
    assert s.log[|s.log|..] == [];
    EveryInternalRun(s, events, port, |s.log|);
  }

  // ---------- Rounds are internal runs ----------

  lemma {:induction false} RunAppend(s: Sys, a: seq<Event>, b: seq<Event>)
    requires s.Wf() && Run(s, a).Some?
    ensures Run(s, a + b) == Run(Run(s, a).value, b)
    decreases |a|
  {
    hide Step, CanHappen;
    if a == [] {
      assert a + b == b;
    } else {
      RunStep(s, a);
      assert (a + b)[0] == a[0] && (a + b)[1..] == a[1..] + b;
      RunAppend(Step(s, a[0]), a[1..], b);
      RunOne(s, a[0], a[1..] + b);
      assert [a[0]] + (a[1..] + b) == a + b;
    }
  }

  lemma {:induction false} DrainIsRun(s: Sys) returns (events: seq<Event>)
    requires Inv(s)
    ensures Run(s, events) == Some(DrainAll(s)) && forall e :: e in events ==> Internal(e)
    decreases |s.q.fifo|
  {
    hide Inv, RunAction;
    WellFormed(s);
    events := [];
    if s.q.fifo != [] {
      RunActionKeeps(s);
      TakeActionDrops(s);
      var rest := DrainIsRun(RunAction(s));
      RunOne(s, TakeAction, rest);
      events := [TakeAction] + rest;
    }
  }

  lemma RoundIsRun(s: Sys, ms: nat) returns (events: seq<Event>)
    requires Inv(s)
    ensures Run(s, events) == Some(Round(s, ms)) && forall e :: e in events ==> Internal(e)
  {
    hide Inv, DrainAll, Step;
    WellFormed(s);
    StepKeeps(s, Wait(ms));
    var s1 := Step(s, Wait(ms));
    StepKeeps(s1, TimerTick);
    var s2 := Step(s1, TimerTick);
    WellFormed(s1);
    WellFormed(s2);
    var rest := DrainIsRun(s2);
    RunOne(s1, TimerTick, rest);
    RunOne(s, Wait(ms), [TimerTick] + rest);
    events := [Wait(ms)] + ([TimerTick] + rest);
  }

  lemma {:induction false} RoundsAreRun(s: Sys, waits: seq<nat>) returns (events: seq<Event>)
    requires Inv(s)
    ensures Run(s, events) == Some(Rounds(s, waits)) && forall e :: e in events ==> Internal(e)
    decreases |waits|
  {
    hide Inv, Round;
    WellFormed(s);
    events := [];
    if waits != [] {
      var first := RoundIsRun(s, waits[0]);
      var rest := RoundsAreRun(Round(s, waits[0]), waits[1..]);
      RunAppend(s, first, rest);
      events := first + rest;
    }
  }

  /** An interface that begins to probe and is left alone ends up running, having sent exactly three probes
   * and then three announcements. */
  lemma ExactlySix(s: Sys, port: Port, waits: seq<nat>)
    requires Inv(s) && s.Of(port).ready && s.Of(port).state.Probe1?
    requires (forall i :: 0 <= i < |waits| ==> waits[i] > 0) && |waits| >= Potential(s)
    ensures var s' := Rounds(DrainAll(s), waits);
            && |s.log| <= |s'.log|
            && s'.Of(port).state.Running?
            && var sent := PortLog(s'.log[|s.log|..], port); |sent| == 6 && Paced(sent)
  {
    hide QInv, PortInv, Rounds, DrainAll, Paced, Potential, Run;
    EveryInterfaceRuns(s, waits);
    var first := DrainIsRun(s);
    var rest := RoundsAreRun(DrainAll(s), waits);
    RunAppend(s, first, rest);
    ThreeProbesThenThreeAnnouncements(s, first + rest, port);
    StaysUp(s, first + rest, port);
  }

  lemma {:induction false} StaysUp(s: Sys, events: seq<Event>, port: Port)
    requires Inv(s) && s.Of(port).ready && Run(s, events).Some? && forall e :: e in events ==> Internal(e)
    ensures Run(s, events).value.Of(port).ready
    decreases |events|
  {
    hide Inv, Step, CanHappen, Internal;
    WellFormed(s);
    if events != [] {
      assert events[0] in events;
      RunStep(s, events);
      StepKeeps(s, events[0]);
      StepStaysUp(s, events[0], port);
      assert forall e :: e in events[1..] ==> e in events;
      StaysUp(Step(s, events[0]), events[1..], port);
    }
  }

  lemma StepStaysUp(s: Sys, e: Event, port: Port)
    requires s.Wf() && s.Of(port).ready && CanHappen(s, e) && Internal(e)
    ensures Step(s, e).Of(port).ready
  {
    hide Handle, Tick;
    if e.TakeAction? && Sends(s) {
      var q := s.q.(fifo := s.q.fifo[1..]);
      var p := Claimed(q, s.q.fifo[0].id).value;
      HandledPcb(s.(q := AfterClaim(q, p.id)), p);
    }
  }
}
