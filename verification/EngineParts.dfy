/** The loops over lists of services, answers and questions, each proved to do what the corresponding
 * function of Responder says. */
module EngineParts {
  import opened Bytes
  import opened TxQueue
  import opened Responder

  // ---------- Unfolding from the left ----------

  lemma InsertGoesOn(tx: seq<Packet>, p: Packet, i: nat)
    requires i < |tx| && tx[i].sendAt <= p.sendAt
    ensures tx[..i] + Insert(tx[i..], p) == tx[..i + 1] + Insert(tx[i + 1..], p)
  {
    assert tx[i..][1..] == tx[i + 1..] && tx[..i + 1] == tx[..i] + [tx[i]];
  }

  lemma WithoutGoesOn(tx: seq<Packet>, port: Port, i: nat)
    requires i < |tx|
    ensures tx[i].port == port ==> Without(tx[i..], port) == Without(tx[i + 1..], port)
    ensures tx[i].port != port ==> tx[..i] + Without(tx[i..], port) == tx[..i + 1] + Without(tx[i + 1..], port)
  {
    assert tx[i..][1..] == tx[i + 1..] && tx[..i + 1] == tx[..i] + [tx[i]];
  }

  lemma QueuedGoesOn(tx: seq<Packet>, i: nat)
    requires i < |tx|
    ensures QueuedLen(tx[i..]) == if tx[i].queued then 1 + QueuedLen(tx[i + 1..]) else 0
  {
    assert tx[i..][1..] == tx[i + 1..];
  }

  lemma PostGoesOn(tx: seq<Packet>, now: nat, accept: seq<bool>)
    requires tx != [] && Due(tx[0], now) && accept != []
    ensures var (rest, posted) := Post(tx[1..], now, accept[1..]); var r := Post(tx, now, accept);
            && r.0 == [tx[0].(queued := accept[0])] + rest
            && r.1 == (if accept[0] then [Tx(tx[0].id)] else []) + posted
  {
    var posted := Post(tx[1..], now, accept[1..]).1;
    assert [] + posted == posted;
  }

  lemma PostEnds(tx: seq<Packet>, now: nat, accept: seq<bool>)
    requires tx == [] || !Due(tx[0], now)
    ensures Post(tx, now, accept) == (tx, [])
  {}

  lemma NewOnesGoOn(services: seq<Svc>, probed: seq<Svc>, i: nat)
    requires i < |services|
    ensures NewOnes(services[..i + 1], probed) ==
              NewOnes(services[..i], probed) + (if services[i] in probed then [] else [services[i]])
    decreases i
  {
    if i == 0 {
      assert services[..1] == [services[0]] && services[..1][1..] == [] && services[..0] == [];
    } else {
      var rest := services[1..];
      assert services[..i + 1][1..] == rest[..i] && services[..i][1..] == rest[..i - 1];
      NewOnesGoOn(rest, probed, i - 1);
    }
  }

  lemma DropOneAt(services: seq<Svc>, svc: Svc, i: nat)
    requires i < |services| && services[i] == svc && svc !in services[..i]
    ensures DropOne(services, svc) == services[..i] + services[i + 1..]
    decreases i
  {
    if i > 0 {
      assert services[0] == services[..i][0];
      assert forall x :: x in services[1..][..i - 1] ==> x in services[..i];
      DropOneAt(services[1..], svc, i - 1);
    }
  }

  lemma ServiceGoesOn(answers: seq<Answer>, svc: Svc, i: nat)
    requires i < |answers|
    ensures answers[i].service == Some(svc) ==> DropService(answers[i..], svc) == DropService(answers[i + 1..], svc)
    ensures answers[i].service != Some(svc) ==>
              answers[..i] + DropService(answers[i..], svc) == answers[..i + 1] + DropService(answers[i + 1..], svc)
  {
    assert answers[i..][1..] == answers[i + 1..] && answers[..i + 1] == answers[..i] + [answers[i]];
  }

  lemma QuestionGoesOn(questions: seq<Question>, svc: Svc, i: nat)
    requires i < |questions|
    requires !(questions[i].ServiceQ? && questions[i].service.key == svc.key)
    ensures questions[..i] + DropQuestion(questions[i..], svc)
            == questions[..i + 1] + DropQuestion(questions[i + 1..], svc)
  {
    assert questions[i..][1..] == questions[i + 1..] && questions[..i + 1] == questions[..i] + [questions[i]];
  }

  // ---------- Parts of packets ----------

  /** dealloc_scheduled_service_answers: first at the head, then behind the first that stays. */
  method DeallocServiceAnswers(list: seq<Answer>, svc: Svc) returns (answers: seq<Answer>)
    ensures answers == DropService(list, svc)
  {
    answers := list;
    while answers != [] && answers[0].service == Some(svc)
      invariant DropService(answers, svc) == DropService(list, svc)
    {
      answers := answers[1..];
    }
    if answers == [] {
      return;
    }
    var i := 1;
    ServiceGoesOn(answers, svc, 0);
    assert answers[..0] + DropService(answers[0..], svc) == DropService(answers[0..], svc) && answers[0..] == answers;
    while i < |answers|
      invariant 1 <= i <= |answers|
      invariant answers[..i] + DropService(answers[i..], svc) == DropService(list, svc)
      decreases |answers| - i
    {
      ServiceGoesOn(answers, svc, i);
      if answers[i].service == Some(svc) {
        ghost var was := answers;
        answers := answers[..i] + answers[i + 1..];
        assert answers[..i] == was[..i] && answers[i..] == was[i + 1..];
      } else {
        i := i + 1;
      }
    }
    assert answers[..i] + [] == answers;
  }

  /** The question removed from a probe: the first of the same type and protocol. */
  method RemoveQuestion(list: seq<Question>, svc: Svc) returns (questions: seq<Question>)
    ensures questions == DropQuestion(list, svc)
  {
    questions := list;
    var i := 0;
    while i < |list| && !(list[i].ServiceQ? && list[i].service.key == svc.key)
      invariant i <= |list| && list[..i] + DropQuestion(list[i..], svc) == DropQuestion(list, svc)
    {
      QuestionGoesOn(list, svc, i);
      i := i + 1;
    }
    if i < |list| {
      questions := list[..i] + list[i + 1..];
      assert list[i..][1..] == list[i + 1..];
    } else {
      assert list[..i] + [] == list;
    }
  }

  /** The services not probed yet. */
  method NewProbeServices(services: seq<Svc>, probed: seq<Svc>) returns (added: seq<Svc>)
    ensures added == NewOnes(services, probed)
  {
    added := [];
    var j := 0;
    while j < |services|
      invariant j <= |services| && added == NewOnes(services[..j], probed)
    {
      var found := false;
      var i := 0;
      while i < |probed|
        invariant i <= |probed| && (found <==> services[j] in probed[..i])
      {
        if probed[i] == services[j] {
          found := true;
          assert probed[..i + 1][i] == services[j];
          break;
        }
        assert probed[..i + 1] == probed[..i] + [probed[i]];
        i := i + 1;
      }
      assert found <==> services[j] in probed by {
        if !found {
          assert probed[..i] == probed;
        }
      }
      NewOnesGoOn(services, probed, j);
      if !found {
        added := added + [services[j]];
      }
      j := j + 1;
    }
    assert services[..j] == services;
  }

  /** The copy of init_probe_new_service into a list allocated for `room` services. */
  method MergeLists(services: seq<Svc>, probed: seq<Svc>, room: nat) returns (merged: seq<Svc>, ghost over: bool)
    requires |services| <= room
    ensures room == 0 ==> merged == []
    ensures 0 < room && |services| + |probed| <= room ==> merged == services + probed
    ensures 0 < room < |services| + |probed| ==> merged == (services + probed)[..room]
    ensures over == (0 < room < |services| + |probed|)
  {
    merged := [];
    over := false;
    if room == 0 {
      return;
    }
    var i := 0;
    while i < |services|
      invariant i <= |services| && merged == services[..i]
    {
      merged := merged + [services[i]];
      i := i + 1;
    }
    i := 0;
    while i < |probed|
      invariant i <= |probed|
      invariant var copied := services + probed[..i]; merged == if |copied| <= room then copied else copied[..room]
      invariant over == (|services| + i > room)
    {
      ghost var copied, next := services + probed[..i], services + probed[..i + 1];
      assert next == copied + [probed[i]];
      if |services| + i < room {
        merged := merged + [probed[i]];
      } else {
        over := true;
        assert next[..room] == if |copied| <= room then copied else copied[..room];
      }
      i := i + 1;
    }
    assert probed[..i] == probed;
  }

  /** Removes the service at the first place it has, by shifting the others down. */
  method ShiftOut(list: seq<Svc>, svc: Svc) returns (services: seq<Svc>)
    requires svc in list
    ensures services == DropOne(list, svc)
  {
    services := list;
    var i := 0;
    while list[i] != svc
      invariant i < |list| && svc !in list[..i]
      decreases |list| - i
    {
      assert list[..i + 1] == list[..i] + [list[i]];
      assert svc !in list[..i + 1];
      i := i + 1;
    }
    DropOneAt(list, svc, i);
    var n := i + 1;
    while n < |list|
      invariant i + 1 <= n <= |list| && |services| == |list|
      invariant services[..n - 1] == list[..i] + list[i + 1..n] && services[n..] == list[n..]
    {
      assert services[n] == services[n..][0];
      ghost var was := services;
      services := services[n - 1 := services[n]];
      assert services[..n] == was[..n - 1] + [list[n]];
      assert list[i + 1..n + 1] == list[i + 1..n] + [list[n]];
      assert services[n + 1..] == was[n..][1..] == list[n..][1..];
      n := n + 1;
    }
    services := services[..|services| - 1];
    assert list[i + 1..|list|] == list[i + 1..];
  }
}
