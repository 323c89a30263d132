/** The parsed packet and the response as the program changes them in place: lists walked and extended, flags set. */
module AnswerMethods {
  import opened Bytes
  import opened Answers

  lemma FoundOrNot(sv: Server, services: seq<Service>, i: nat, instance: Option<CString>, service: Option<CString>,
                   proto: Option<CString>)
    requires i < |services|
    ensures FindIn(sv, services[i..], instance, service, proto) ==
              if Fits(sv, services[i], instance, service, proto) then Some(services[i])
              else FindIn(sv, services[i + 1..], instance, service, proto)
  {
    hide Fits;
    assert services[i..][0] == services[i] && services[i..][1..] == services[i + 1..];
  }

  /** mdns_utils_get_service_item and mdns_utils_get_service_item_instance. */
  method GetServiceItem(sv: Server, instance: Option<CString>, service: Option<CString>, proto: Option<CString>)
    returns (r: Option<Service>)
    ensures r == Find(sv, instance, service, proto)
  {
    hide Fits, FindIn;
    var i := 0;
    assert sv.services[0..] == sv.services;
    while i < |sv.services|
      invariant 0 <= i <= |sv.services|
      invariant FindIn(sv, sv.services[i..], instance, service, proto) == Find(sv, instance, service, proto)
    {
      FoundOrNot(sv, sv.services, i, instance, service, proto);
      if Fits(sv, sv.services[i], instance, service, proto) {
        return Some(sv.services[i]);
      }
      i := i + 1;
    }
    NoneLeft(sv, sv.services[i..], instance, service, proto);
    return None;
  }

  lemma NoneLeft(sv: Server, services: seq<Service>, instance: Option<CString>, service: Option<CString>,
                 proto: Option<CString>)
    requires services == []
    ensures FindIn(sv, services, instance, service, proto) == None
  {}

  /** get_host_item. */
  method GetHostItem(sv: Server, name: Option<CString>) returns (r: Option<Host>)
    ensures r == HostOf(sv, name)
  {
    if name.None? || EqNoCase(name.value, sv.hostname) {
      return Some(sv.me);
    }
    var i := 0;
    assert sv.hosts[0..] == sv.hosts;
    while i < |sv.hosts|
      invariant 0 <= i <= |sv.hosts| && FindHost(sv.hosts[i..], name.value) == FindHost(sv.hosts, name.value)
    {
      assert sv.hosts[i..][0] == sv.hosts[i] && sv.hosts[i..][1..] == sv.hosts[i + 1..];
      if EqNoCase(sv.hosts[i].name, name.value) {
        return Some(sv.hosts[i]);
      }
      i := i + 1;
    }
    return None;
  }

  /** mdns_priv_create_answer, on one of the lists of a packet. */
  method CreateAnswer(list: seq<Answer>, kind: nat, service: Option<nat>, host: Option<nat>, flush: bool)
    returns (result: seq<Answer>)
    ensures result == Create(list, kind, service, host, flush)
  {
    var i := 0;
    while i < |list|
      invariant 0 <= i <= |list| && forall j :: 0 <= j < i ==> list[j].key != Key(kind, service, host)
    {
      if list[i].key == Key(kind, service, host) {
        return list;
      }
      i := i + 1;
    }
    result := list + [Answer(Key(kind, service, host), flush)];
  }

  // ---------- The query ----------

  /** mdns_parsed_packet_t. */
  class Query {
    var questions: seq<Question>
    var records: seq<Known>
    var probe: bool
    var discovery: bool
    var service: bool

    constructor (service: bool)
      ensures State() == Parsed([], [], false, false, service)
    {
      questions, records, probe, discovery, this.service := [], [], false, false, service;
    }

    function State(): Parsed
      reads this
    {
      Parsed(questions, records, probe, discovery, service)
    }

    /** One question of mdns_parse_packet's loop. */
    method Hear(sv: Server, name: Name, kind: nat, unicast: bool)
      modifies this
      ensures State() == Heard(sv, old(State()), name, kind, unicast)
    {
      hide IsOurs, IsDiscovery;
      if IsDiscovery(name, kind) {
        discovery := true;
        ghost var was := questions;
        var i := 0;
        assert sv.services[0..] == sv.services;
        while i < |sv.services|
          invariant 0 <= i <= |sv.services|
          invariant DiscoveryQuestions(sv.services[i..], unicast) + questions
                    == DiscoveryQuestions(sv.services, unicast) + was
          invariant records == old(records) && probe == old(probe) && discovery && service == old(service)
        {
          var s := sv.services[i];
          var q := Question(T_SDPTR, unicast, None, Some(s.service), Some(s.proto), false);
          NextService(sv.services, i, unicast);
          var rest := DiscoveryQuestions(sv.services[i + 1..], unicast);
          assert rest + [q] + questions == rest + ([q] + questions);
          questions := [q] + questions;
          i := i + 1;
        }
        assert DiscoveryQuestions(sv.services[i..], unicast) == [];
        assert [] + questions == questions;
      } else if IsOurs(sv, name) {
        if kind == T_ANY && name.host != [] {
          probe := true;
        }
        questions := [Question(kind, unicast, Kept(name.host), Kept(name.service), Kept(name.proto), name.sub)]
          + questions;
      }
    }

    /** remove_parsed_question. */
    method RemoveParsedQuestion(sv: Server, kind: nat, s: Option<Service>)
      modifies this
      ensures State() == old(State()).(questions := Removed(sv, old(questions), kind, s))
    {
      hide QuestionMatches, Removed;
      var i := 0;
      assert questions[..0] + Removed(sv, questions[0..], kind, s) == Removed(sv, questions, kind, s) by {
        assert questions[0..] == questions;
      }
      while i < |questions|
        invariant 0 <= i <= |questions| && State() == old(State())
        invariant questions[..i] + Removed(sv, questions[i..], kind, s) == Removed(sv, questions, kind, s)
      {
        NextRemoved(sv, questions, i, kind, s);
        if QuestionMatches(sv, questions[i], kind, s) {
          questions := questions[..i] + questions[i + 1..];
          return;
        }
        i := i + 1;
      }
      NoneRemoved(sv, questions[i..], kind, s);
      assert questions[..i] + [] == questions;
    }

    /** A record of a query that is for us, as far as questions and known answers go. */
    method Note(sv: Server, x: KnownRecord)
      modifies this
      ensures State() == Noted(sv, old(State()), x)
    {
      hide IsOurs, Find, Removed;
      match x
      case Pointer(isDiscovery, name, ttl) =>
        if !name.sub && IsOurs(sv, name) {
          var s := GetServiceItem(sv, Kept(name.host), Kept(name.service), Kept(name.proto));
          if s.Some? {
            if isDiscovery {
              RemoveParsedQuestion(sv, T_SDPTR, s);
            } else if questions != [] && !probe {
              RemoveParsedQuestion(sv, T_PTR, s);
            }
            records := [Known(Kept(name.host), Kept(name.service), Kept(name.proto), ttl)] + records;
          }
        }
      case Data(owner, kind) =>
        if !owner.sub && IsOurs(sv, owner) && questions != [] && !probe {
          var s := None;
          if kind != T_A && kind != T_AAAA {
            s := GetServiceItem(sv, None, Kept(owner.service), Kept(owner.proto));
          }
          RemoveParsedQuestion(sv, kind, s);
        }
    }
  }

  lemma NextService(services: seq<Service>, i: nat, unicast: bool)
    requires i < |services|
    ensures DiscoveryQuestions(services[i..], unicast) ==
              DiscoveryQuestions(services[i + 1..], unicast)
              + [Question(T_SDPTR, unicast, None, Some(services[i].service), Some(services[i].proto), false)]
  {
    assert services[i..][1..] == services[i + 1..];
  }

  lemma NextRemoved(sv: Server, questions: seq<Question>, i: nat, kind: nat, s: Option<Service>)
    requires i < |questions|
    ensures questions[..i] + Removed(sv, questions[i..], kind, s) ==
              if QuestionMatches(sv, questions[i], kind, s) then questions[..i] + questions[i + 1..]
              else questions[..i + 1] + Removed(sv, questions[i + 1..], kind, s)
  {
    hide QuestionMatches;
    assert questions[i..][0] == questions[i] && questions[i..][1..] == questions[i + 1..];
    assert questions[..i] + ([questions[i]] + Removed(sv, questions[i + 1..], kind, s))
        == questions[..i + 1] + Removed(sv, questions[i + 1..], kind, s);
  }

  lemma NoneRemoved(sv: Server, questions: seq<Question>, kind: nat, s: Option<Service>)
    requires questions == []
    ensures Removed(sv, questions, kind, s) == []
  {}

  // ---------- The response ----------

  /** mdns_tx_packet_t while it is filled. */
  class Response {
    var answers: seq<Answer>
    var additional: seq<Answer>
    var repeated: seq<Question>
    var count: nat
    var shared: bool
    var unicast: bool

    constructor ()
      ensures State() == NO_REPLY
    {
      answers, additional, repeated, count, shared, unicast := [], [], [], 0, false, false;
    }

    function State(): Reply
      reads this
    {
      Reply(answers, additional, repeated, count, shared, unicast)
    }

    /** create_answer_from_service. */
    method CreateAnswerFromService(sv: Server, s: Service, q: Question, flush: bool)
      modifies this
      ensures State() == FromService(sv, old(State()), s, q, old(shared), flush)
    {
      hide Create, HostOf;
      var host := GetHostItem(sv, s.host);
      var h := IdOf(host);
      var id := Some(s.id);
      if q.kind == T_ANY && Given(q.host) {
        answers := CreateAnswer(answers, T_SRV, id, None, flush);
        answers := CreateAnswer(answers, T_TXT, id, None, flush);
        additional := CreateAnswer(additional, T_A, id, h, flush);
        additional := CreateAnswer(additional, T_AAAA, id, h, flush);
      } else if q.kind == T_PTR || q.kind == T_ANY {
        answers := CreateAnswer(answers, T_PTR, id, None, false);
        additional := CreateAnswer(additional, T_SRV, id, None, flush);
        additional := CreateAnswer(additional, T_TXT, id, None, flush);
        if shared || host != Some(sv.me) {
          additional := CreateAnswer(additional, T_A, id, h, flush);
          additional := CreateAnswer(additional, T_AAAA, id, h, flush);
        } else {
          answers := CreateAnswer(answers, T_A, id, h, flush);
          answers := CreateAnswer(answers, T_AAAA, id, h, flush);
        }
      } else if q.kind == T_SRV {
        answers := CreateAnswer(answers, T_SRV, id, None, flush);
        additional := CreateAnswer(additional, T_A, id, h, flush);
        additional := CreateAnswer(additional, T_AAAA, id, h, flush);
      } else if q.kind == T_TXT {
        answers := CreateAnswer(answers, T_TXT, id, None, flush);
      } else if q.kind == T_SDPTR {
        answers := CreateAnswer(answers, T_SDPTR, id, None, false);
      }
    }

    /** append_host_list, into the answers. */
    method AppendHostList(sv: Server, flush: bool)
      modifies this
      ensures State() == old(State()).(answers := AllHosts(sv, old(answers), flush))
    {
      hide Create, Behind;
      answers := CreateAnswer(answers, T_A, None, Some(sv.me.id), flush);
      answers := CreateAnswer(answers, T_AAAA, None, Some(sv.me.id), flush);
      var i := 0;
      assert sv.hosts[0..] == sv.hosts;
      while i < |sv.hosts|
        invariant 0 <= i <= |sv.hosts|
        invariant Behind(answers, sv.hosts[i..], flush) == AllHosts(sv, old(answers), flush)
        invariant State() == old(State()).(answers := answers)
      {
        NextBehind(answers, sv.hosts, i, flush);
        i := i + 1;
        var h := if i < |sv.hosts| then Some(sv.hosts[i].id) else None;
        answers := CreateAnswer(answers, T_A, None, h, flush);
        answers := CreateAnswer(answers, T_AAAA, None, h, flush);
      }
      NoneBehind(answers, sv.hosts[i..], flush);
    }

    /** The services a question for a type is answered for, without those known. */
    method AnswerServices(sv: Server, p: Parsed, q: Question)
      modifies this
      ensures State() == FromServices(sv, p, old(State()), sv.services, q, old(shared))
    {
      hide FromServices, FromService, AnswersPtr, KnownBy;
      ghost var was := State();
      ghost var wanted := FromServices(sv, p, was, sv.services, q, was.shared);
      var i := 0;
      assert sv.services[0..] == sv.services;
      while i < |sv.services|
        invariant 0 <= i <= |sv.services| && shared == was.shared
        invariant FromServices(sv, p, State(), sv.services[i..], q, was.shared) == wanted
      {
        var s := sv.services[i];
        NextService1(sv, p, State(), i, q, was.shared);
        if AnswersPtr(sv, s, q) {
          var known := false;
          var j := 0;
          while j < |p.records| && !known
            modifies {}
            invariant 0 <= j <= |p.records|
            invariant known ==> IsKnown(sv, s, p.records)
            invariant !known ==> forall k :: 0 <= k < j ==> !KnownBy(sv, s, p.records[k])
          {
            known := KnownBy(sv, s, p.records[j]);
            j := j + 1;
          }
          assert known == IsKnown(sv, s, p.records);
          if !known {
            count := count + 1;
            FlagsStay(sv, State(), s, q, shared, p.service);
            CreateAnswerFromService(sv, s, q, p.service);
          }
        }
        i := i + 1;
      }
      NoServices(sv, p, State(), sv.services[i..], q, was.shared);
    }

    /** One question of mdns_priv_create_answer_from_parsed_packet. */
    method AnswerQuestion(sv: Server, p: Parsed, q: Question)
      modifies this
      ensures State() == Answer1(sv, p, old(State()), q)
    {
      hide FromService, FromServices, Find, HostOf, Create, AllHosts;
      shared := SharedFor(p, q);
      if ForInstance(q) {
        var s := GetServiceItem(sv, q.host, q.service, q.proto);
        if s.None? {
          return;
        }
        count := count + 1;
        CreateAnswerFromService(sv, s.value, q, p.service);
      } else if ForServices(q) {
        AnswerServices(sv, p, q);
      } else {
        if q.kind == T_A || q.kind == T_AAAA {
          var host := GetHostItem(sv, q.host);
          answers := CreateAnswer(answers, T_A, None, IdOf(host), p.service);
          answers := CreateAnswer(answers, T_AAAA, None, IdOf(host), p.service);
        } else if q.kind == T_ANY {
          AppendHostList(sv, p.service);
        } else {
          answers := CreateAnswer(answers, q.kind, None, None, p.service);
        }
        count := count + 1;
      }
      if !p.service && (q.kind == T_ANY || q.kind == T_A || q.kind == T_AAAA) {
        repeated := repeated + [q];
      }
      if q.unicast {
        unicast := true;
      }
    }

    method AnswerQuestions(sv: Server, p: Parsed)
      modifies this
      ensures State() == AnswerAll(sv, p, old(State()), p.questions)
    {
      hide Answer1, AnswerAll;
      var i := 0;
      assert p.questions[0..] == p.questions;
      while i < |p.questions|
        invariant 0 <= i <= |p.questions|
        invariant AnswerAll(sv, p, State(), p.questions[i..]) == AnswerAll(sv, p, old(State()), p.questions)
      {
        NextQuestion(sv, p, State(), i);
        AnswerQuestion(sv, p, p.questions[i]);
        i := i + 1;
      }
      NoQuestions(sv, p, State(), p.questions[i..]);
    }
  }

  /** mdns_priv_create_answer_from_parsed_packet; the counter `step` is kept by the caller. */
  method CreateAnswerFromParsedPacket(sv: Server, query: Query, step: nat) returns (outcome: Outcome, next: nat)
    ensures (outcome, next) == Respond(sv, query.State(), step)
  {
    hide AnswerAll;
    var p := query.State();
    if p.questions == [] {
      return Silent, step;
    }
    var packet := new Response();
    packet.AnswerQuestions(sv, p);
    if packet.count == 0 {
      return Silent, step;
    }
    var direct := packet.unicast || !p.service;
    if packet.shared {
      return Later(packet.State(), direct, 25 + step * 25), (step + 1) % 4;
    }
    return Now(packet.State(), direct), step;
  }

  // ---------- Steps of the loops ----------

  lemma NextBehind(answers: seq<Answer>, hosts: seq<Host>, i: nat, flush: bool)
    requires i < |hosts|
    ensures Behind(answers, hosts[i..], flush) ==
              Behind(Addresses(answers, None, if i + 1 < |hosts| then Some(hosts[i + 1].id) else None, flush),
                hosts[i + 1..], flush)
  {
    hide Create;
    assert hosts[i..][1..] == hosts[i + 1..];
  }

  lemma NoneBehind(answers: seq<Answer>, hosts: seq<Host>, flush: bool)
    requires hosts == []
    ensures Behind(answers, hosts, flush) == answers
  {}

  lemma NextService1(sv: Server, p: Parsed, r: Reply, i: nat, q: Question, shared: bool)
    requires i < |sv.services|
    ensures var s := sv.services[i];
            FromServices(sv, p, r, sv.services[i..], q, shared) ==
              FromServices(sv, p,
                           if AnswersPtr(sv, s, q) && !IsKnown(sv, s, p.records)
                           then FromService(sv, r.(count := r.count + 1), s, q, shared, p.service) else r,
                           sv.services[i + 1..], q, shared)
  {
    hide AnswersPtr, IsKnown, FromService;
    assert sv.services[i..][0] == sv.services[i] && sv.services[i..][1..] == sv.services[i + 1..];
  }

  lemma NoServices(sv: Server, p: Parsed, r: Reply, services: seq<Service>, q: Question, shared: bool)
    requires services == []
    ensures FromServices(sv, p, r, services, q, shared) == r
  {}

  lemma FlagsStay(sv: Server, r: Reply, s: Service, q: Question, shared: bool, flush: bool)
    ensures FromService(sv, r, s, q, shared, flush).shared == r.shared
  {
    hide Create, Addresses;
  }

  lemma NextQuestion(sv: Server, p: Parsed, r: Reply, i: nat)
    requires i < |p.questions|
    ensures AnswerAll(sv, p, r, p.questions[i..])
            == AnswerAll(sv, p, Answer1(sv, p, r, p.questions[i]), p.questions[i + 1..])
  {
    hide Answer1;
    assert p.questions[i..][0] == p.questions[i] && p.questions[i..][1..] == p.questions[i + 1..];
  }

  lemma NoQuestions(sv: Server, p: Parsed, r: Reply, questions: seq<Question>)
    requires questions == []
    ensures AnswerAll(sv, p, r, questions) == r
  {}
}
