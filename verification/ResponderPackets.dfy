/** What the packets of the responder say: a probe asks for each service it is for and offers its SRV record, and
 * the announcement made of it carries every record of just those services, each once. */
module ResponderPackets {
  import opened Bytes
  import opened TxQueue
  import opened Responder

  predicate Announces(x: Answer, s: Svc) {
    x in [Answer(SdPtr, Some(s), None), Answer(Ptr, Some(s), None), Answer(Srv, Some(s), None),
      Answer(Txt, Some(s), None)]
  }

  predicate Locates(x: Answer, host: nat) {
    x in [Answer(A, None, Some(host)), Answer(Aaaa, None, Some(host))]
  }

  lemma AddedAnswer(answers: seq<Answer>, a: Answer)
    ensures forall x :: x in AddAnswer(answers, a) <==> x in answers || x == a
    ensures NoRepeats(answers) ==> NoRepeats(AddAnswer(answers, a))
  {}

  lemma AddedService(answers: seq<Answer>, s: Svc)
    ensures forall x :: x in AddService(answers, s) <==> x in answers || Announces(x, s)
    ensures NoRepeats(answers) ==> NoRepeats(AddService(answers, s))
  {
    hide AddAnswer, NoRepeats;
    var a1 := AddAnswer(answers, Answer(SdPtr, Some(s), None));
    var a2 := AddAnswer(a1, Answer(Ptr, Some(s), None));
    var a3 := AddAnswer(a2, Answer(Srv, Some(s), None));
    AddedAnswer(answers, Answer(SdPtr, Some(s), None));
    AddedAnswer(a1, Answer(Ptr, Some(s), None));
    AddedAnswer(a2, Answer(Srv, Some(s), None));
    AddedAnswer(a3, Answer(Txt, Some(s), None));
  }

  lemma AddedHost(answers: seq<Answer>, host: nat)
    ensures forall x :: x in AddHost(answers, host) <==> x in answers || Locates(x, host)
    ensures NoRepeats(answers) ==> NoRepeats(AddHost(answers, host))
  {
    hide AddAnswer, NoRepeats;
    AddedAnswer(answers, Answer(A, None, Some(host)));
    AddedAnswer(AddAnswer(answers, Answer(A, None, Some(host))), Answer(Aaaa, None, Some(host)));
  }

  lemma {:induction false} AddedServices(answers: seq<Answer>, services: seq<Svc>)
    ensures forall x :: x in AddServices(answers, services) <==>
              x in answers || exists s :: s in services && Announces(x, s)
    ensures NoRepeats(answers) ==> NoRepeats(AddServices(answers, services))
    decreases |services|
  {
    hide AddService, Announces, NoRepeats;
    if services != [] {
      assert services == [services[0]] + services[1..];
      AddedService(answers, services[0]);
      AddedServices(AddService(answers, services[0]), services[1..]);
    }
  }

  lemma {:induction false} AddedHosts(answers: seq<Answer>, services: seq<Svc>)
    ensures forall x :: x in AddHosts(answers, services) <==>
              x in answers || exists s :: s in services && Locates(x, s.host)
    ensures NoRepeats(answers) ==> NoRepeats(AddHosts(answers, services))
    decreases |services|
  {
    hide AddHost, Locates, NoRepeats;
    if services != [] {
      assert services == [services[0]] + services[1..];
      AddedHost(answers, services[0].host);
      AddedHosts(AddHost(answers, services[0].host), services[1..]);
    }
  }

  /** The addresses that go with the services: of their hosts, or of this device when there are none. */
  ghost predicate Addresses(x: Answer, services: seq<Svc>) {
    (services == [] && Locates(x, 0)) || exists s :: s in services && Locates(x, s.host)
  }

  /** An announcement carries all four records of every service and nothing but those, each once; the addresses,
   * when they are announced, go into the section of servers. */
  lemma AnnouncementTells(services: seq<Svc>, ip: bool)
    ensures var body := AnnounceBody(services, ip);
            && (forall x :: x in body.answers <==> exists s :: s in services && Announces(x, s))
            && (forall x :: x in body.servers <==> ip && Addresses(x, services))
            && NoRepeats(body.answers) && NoRepeats(body.servers)
  {
    hide AddServices, AddHosts, AddHost, Announces, Locates;
    AddedServices([], services);
    AddedHosts([], services);
    AddedHost([], 0);
  }

  // ---------- Probes ----------

  lemma {:induction false} SrvAnswersAre(services: seq<Svc>)
    ensures forall x :: x in SrvAnswers(services) <==> exists s :: s in services && x == Answer(Srv, Some(s), None)
    ensures NoRepeats(SrvAnswers(services))
    decreases |services|
  {
    hide AddAnswer;
    if services != [] {
      var last := services[|services| - 1];
      assert services == services[..|services| - 1] + [last];
      SrvAnswersAre(services[..|services| - 1]);
      AddedAnswer(SrvAnswers(services[..|services| - 1]), Answer(Srv, Some(last), None));
    }
  }

  lemma AddedQuestion(questions: seq<Question>, q: Question)
    ensures forall x :: x in AddQuestion(questions, q) <==> x in questions || x == q
    ensures NoRepeats(questions) ==> NoRepeats(AddQuestion(questions, q))
  {}

  lemma {:induction false} ServiceQuestionsAre(services: seq<Svc>)
    ensures forall x :: x in ServiceQuestions(services) <==> exists s :: s in services && x == ServiceQ(s)
    ensures NoRepeats(ServiceQuestions(services))
    decreases |services|
  {
    hide AddQuestion;
    if services != [] {
      var last := services[|services| - 1];
      assert services == services[..|services| - 1] + [last];
      ServiceQuestionsAre(services[..|services| - 1]);
      AddedQuestion(ServiceQuestions(services[..|services| - 1]), ServiceQ(last));
    }
  }

  lemma {:induction false} AddedHostQuestions(questions: seq<Question>, services: seq<Svc>)
    ensures forall x :: x in HostQuestions(questions, services) <==>
              x in questions || exists s :: s in services && x == HostQ(Some(s))
    ensures NoRepeats(questions) ==> NoRepeats(HostQuestions(questions, services))
    decreases |services|
  {
    hide AddQuestion, NoRepeats;
    if services != [] {
      assert services == [services[0]] + services[1..];
      AddedQuestion(questions, HostQ(Some(services[0])));
      AddedHostQuestions(AddQuestion(questions, HostQ(Some(services[0]))), services[1..]);
    }
  }

  /** A probe asks once for every service, and for the host names if addresses are probed, and tells the SRV
   * records and addresses it is to be compared by. */
  lemma ProbeAsks(services: seq<Svc>, ip: bool)
    ensures var body := ProbeBody(services, ip);
            && (forall q :: q in body.questions <==>
                  (exists s :: s in services && q == ServiceQ(s))
                  || (ip && (q == HostQ(None) || exists s :: s in services && q == HostQ(Some(s)))))
            && (forall x :: x in body.servers <==>
                  (exists s :: s in services && x == Answer(Srv, Some(s), None)) || (ip && Addresses(x, services)))
            && body.answers == [] && NoRepeats(body.questions) && NoRepeats(body.servers)
  {
    hide AddHosts, AddHost, AddQuestion, HostQuestions, ServiceQuestions, SrvAnswers, Locates, NoRepeats;
    ServiceQuestionsAre(services);
    AddedQuestion(ServiceQuestions(services), HostQ(None));
    AddedHostQuestions(AddQuestion(ServiceQuestions(services), HostQ(None)), services);
    SrvAnswersAre(services);
    AddedHosts(SrvAnswers(services), services);
    AddedHost(SrvAnswers(services), 0);
  }

  // ---------- From the probe to the announcement ----------

  /** What one server record of a probe puts into the announcement. */
  ghost predicate Yields(server: Answer, x: Answer) {
    if server.kind == Srv && server.service.Some? then
      Announces(x, server.service.value) || Locates(x, server.service.value.host)
    else (server.kind == A || server.kind == Aaaa) && x == server.(service := None)
  }

  lemma AnnouncedIs(answers: seq<Answer>, s: Answer)
    ensures forall x :: x in Announced(answers, s) <==> x in answers || Yields(s, x)
    ensures NoRepeats(answers) ==> NoRepeats(Announced(answers, s))
  {
    hide AddService, AddHost, AddAnswer, Announces, Locates, NoRepeats;
    if s.kind == Srv && s.service.Some? {
      AddedService(answers, s.service.value);
      AddedHost(AddService(answers, s.service.value), s.service.value.host);
    } else if s.kind == A || s.kind == Aaaa {
      AddedAnswer(answers, s.(service := None));
    }
  }

  lemma {:induction false} AnnounceAnswersAre(answers: seq<Answer>, servers: seq<Answer>)
    ensures forall x :: x in AnnounceAnswers(answers, servers) <==>
              x in answers || exists s :: s in servers && Yields(s, x)
    ensures NoRepeats(answers) ==> NoRepeats(AnnounceAnswers(answers, servers))
    decreases |servers|
  {
    hide AddService, AddHost, AddAnswer, Yields, NoRepeats;
    if servers != [] {
      assert servers == [servers[0]] + servers[1..];
      var next := Announced(answers, servers[0]);
      AnnouncedIs(answers, servers[0]);
      AnnounceAnswersAre(next, servers[1..]);
      assert AnnounceAnswers(answers, servers) == AnnounceAnswers(next, servers[1..]);
    }
  }

  /** After probing, the announcement carries all four records of every service probed and the addresses of its
   * host, and nothing else but this device's addresses when they alone were probed; each record once. */
  lemma AnnouncementFollowsProbe(services: seq<Svc>, ip: bool)
    ensures var body := AnnounceFromProbe(ProbeBody(services, ip));
            && (forall x :: x in body.answers <==>
                  (exists s :: s in services && (Announces(x, s) || Locates(x, s.host)))
                  || (ip && services == [] && Locates(x, 0)))
            && NoRepeats(body.answers) && body.questions == [] && body.servers == []
  {
    hide ProbeBody, AnnounceAnswers, Announces, Locates;
    var probe := ProbeBody(services, ip);
    ProbeAsks(services, ip);
    AnnounceAnswersAre([], probe.servers);
    var answers := AnnounceFromProbe(probe).answers;
    forall x
      ensures x in answers <==>
                (exists s :: s in services && (Announces(x, s) || Locates(x, s.host)))
                || (ip && services == [] && Locates(x, 0))
    {
      YieldedBy(services, ip, probe.servers, x);
    }
  }

  lemma YieldedBy(services: seq<Svc>, ip: bool, servers: seq<Answer>, x: Answer)
    requires forall y :: y in servers <==>
               (exists s :: s in services && y == Answer(Srv, Some(s), None)) || (ip && Addresses(y, services))
    ensures (exists y :: y in servers && Yields(y, x)) <==>
              (exists s :: s in services && (Announces(x, s) || Locates(x, s.host)))
              || (ip && services == [] && Locates(x, 0))
  {
    hide Announces;
    if y :| y in servers && Yields(y, x) {
      if ip && Addresses(y, services) {
        assert Yields(y, x) && y.kind != Srv;
        assert x == y;
      }
    }
    if s :| s in services && (Announces(x, s) || Locates(x, s.host)) {
      var y := Answer(Srv, Some(s), None);
      assert y in servers && Yields(y, x);
    }
    if ip && services == [] && Locates(x, 0) {
      assert Addresses(x, services);
      assert x in servers && Yields(x, x);
    }
  }
}
