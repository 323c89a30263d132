/** What a response holds, for every query: which records, in which section, each once; what known answers leave out;
 * and what a querier is sure to find beside an answer.  Record types have their numbers here: A 1, PTR 12, TXT 16,
 * AAAA 28, SRV 33, any 255, and 50 for the list of services. */
module AnswerResults {
  import opened Bytes
  import opened Answers

  // ---------- One answer, one service ----------

  predicate Once(answers: seq<Answer>) {
    forall i, j :: 0 <= i < j < |answers| ==> answers[i].key != answers[j].key
  }

  lemma Created(answers: seq<Answer>, kind: nat, service: Option<nat>, host: Option<nat>, flush: bool)
    ensures Keys(Create(answers, kind, service, host, flush)) == Keys(answers) + {Key(kind, service, host)}
    ensures Once(answers) ==> Once(Create(answers, kind, service, host, flush))
  {
    var key := Key(kind, service, host);
    if a :| a in answers && a.key == key {
      assert key in Keys(answers);
    } else {
      assert forall a :: a in answers ==> a.key in Keys(answers);
      assert answers + [Answer(key, flush)] == Create(answers, kind, service, host, flush);
    }
  }

  function AddressKeys(service: Option<nat>, host: Option<nat>): set<Key> {
    {Key(1, service, host), Key(28, service, host)}
  }

  lemma AddressesAre(answers: seq<Answer>, service: Option<nat>, host: Option<nat>, flush: bool)
    ensures Keys(Addresses(answers, service, host, flush)) == Keys(answers) + AddressKeys(service, host)
    ensures Once(answers) ==> Once(Addresses(answers, service, host, flush))
  {
    hide Keys, Create, Once;
    Created(answers, 1, service, host, flush);
    Created(Create(answers, 1, service, host, flush), 28, service, host, flush);
  }

  function RecordOf(kind: nat, s: Service): Key {
    Key(kind, Some(s.id), None)
  }

  function AddressesOf(sv: Server, s: Service): set<Key> {
    AddressKeys(Some(s.id), IdOf(HostOf(sv, s.host)))
  }

  /** A question for services of a type, or for one by the type that is asked for. */
  predicate Discovers(q: Question) {
    q.kind == 12 || (q.kind == 255 && !Given(q.host))
  }

  /** A question for the data of an instance. */
  predicate Resolves(q: Question, kind: nat) {
    q.kind == kind || (q.kind == 255 && Given(q.host))
  }

  /** The section of answers: what was asked for, and the address of this device in reply to a probe. */
  ghost predicate IsAnswer(sv: Server, s: Service, q: Question, shared: bool, key: Key) {
    || (key == RecordOf(12, s) && Discovers(q))
    || (key == RecordOf(33, s) && Resolves(q, 33))
    || (key == RecordOf(16, s) && Resolves(q, 16))
    || (key == RecordOf(50, s) && q.kind == 50)
    || (key in AddressesOf(sv, s) && Discovers(q) && !shared && HostOf(sv, s.host) == Some(sv.me))
  }

  /** The section of additional records: what the asker is to need next. */
  ghost predicate IsAdditional(sv: Server, s: Service, q: Question, shared: bool, key: Key) {
    || (key in [RecordOf(33, s), RecordOf(16, s)] && Discovers(q))
    || (key in AddressesOf(sv, s) && (Resolves(q, 33)
         || (Discovers(q) && (shared || HostOf(sv, s.host) != Some(sv.me)))))
  }

  lemma ServiceGives(sv: Server, r: Reply, s: Service, q: Question, shared: bool, flush: bool)
    ensures var t := FromService(sv, r, s, q, shared, flush);
            && (forall key :: key in Keys(t.answers) <==> key in Keys(r.answers) || IsAnswer(sv, s, q, shared, key))
            && (forall key :: key in Keys(t.additional)
                 <==> key in Keys(r.additional) || IsAdditional(sv, s, q, shared, key))
            && (Once(r.answers) ==> Once(t.answers)) && (Once(r.additional) ==> Once(t.additional))
            && t.count == r.count && t.shared == r.shared && t.unicast == r.unicast && t.repeated == r.repeated
  {
    hide Keys, Create, Addresses, Once, HostOf;
    var id := Some(s.id);
    var h := IdOf(HostOf(sv, s.host));
    Created(r.answers, 33, id, None, flush);
    Created(Create(r.answers, 33, id, None, flush), 16, id, None, flush);
    Created(r.additional, 33, id, None, flush);
    Created(Create(r.additional, 33, id, None, flush), 16, id, None, flush);
    AddressesAre(Create(Create(r.additional, 33, id, None, flush), 16, id, None, flush), id, h, flush);
    AddressesAre(r.additional, id, h, flush);
    Created(r.answers, 12, id, None, false);
    AddressesAre(Create(r.answers, 12, id, None, false), id, h, flush);
    Created(r.answers, 16, id, None, flush);
    Created(r.answers, 50, id, None, false);
  }

  // ---------- One question ----------

  /** The services a question is answered for. */
  ghost predicate Chosen(sv: Server, p: Parsed, q: Question, s: Service) {
    if ForInstance(q) then Find(sv, q.host, q.service, q.proto) == Some(s)
    else ForServices(q) && s in sv.services && AnswersPtr(sv, s, q) && !IsKnown(sv, s, p.records)
  }

  /** The hosts whose addresses a question for all hosts gets: this device, the others but the first, and, when
   * there are others, none at all. */
  ghost predicate Listed(sv: Server, h: Option<nat>) {
    || h == Some(sv.me.id)
    || (exists i :: 1 <= i < |sv.hosts| && h == Some(sv.hosts[i].id))
    || (sv.hosts != [] && h == None)
  }

  /** The answers to a question that is for no service. */
  ghost predicate IsHostAnswer(sv: Server, q: Question, key: Key) {
    key.service == None
    && if q.kind == 1 || q.kind == 28 then key in AddressKeys(None, IdOf(HostOf(sv, q.host)))
       else if q.kind == 255 then key.kind in [1, 28] && Listed(sv, key.host)
       else key == Key(q.kind, None, None)
  }

  ghost predicate Answered(sv: Server, p: Parsed, q: Question, key: Key) {
    || (exists s :: Chosen(sv, p, q, s) && IsAnswer(sv, s, q, SharedFor(p, q), key))
    || (!ForInstance(q) && !ForServices(q) && IsHostAnswer(sv, q, key))
  }

  ghost predicate Added(sv: Server, p: Parsed, q: Question, key: Key) {
    exists s :: Chosen(sv, p, q, s) && IsAdditional(sv, s, q, SharedFor(p, q), key)
  }

  /** A question something is counted for. */
  ghost predicate Counts(sv: Server, p: Parsed, q: Question) {
    (exists s :: Chosen(sv, p, q, s)) || (!ForInstance(q) && !ForServices(q))
  }

  ghost predicate Suits(sv: Server, p: Parsed, q: Question, services: seq<Service>, s: Service) {
    s in services && AnswersPtr(sv, s, q) && !IsKnown(sv, s, p.records)
  }

  lemma {:induction false} ServicesGive(sv: Server, p: Parsed, r: Reply, services: seq<Service>, q: Question,
                                        shared: bool)
    ensures var t := FromServices(sv, p, r, services, q, shared);
            && (forall key :: key in Keys(t.answers) <==>
                  key in Keys(r.answers) || exists s :: Suits(sv, p, q, services, s) && IsAnswer(sv, s, q, shared, key))
            && (forall key :: key in Keys(t.additional) <==>
                  key in Keys(r.additional) || exists s ::
                    Suits(sv, p, q, services, s) && IsAdditional(sv, s, q, shared, key))
            && (Once(r.answers) ==> Once(t.answers)) && (Once(r.additional) ==> Once(t.additional))
            && (t.count > r.count <==> exists s :: Suits(sv, p, q, services, s)) && t.count >= r.count
            && t.shared == r.shared && t.unicast == r.unicast && t.repeated == r.repeated
    decreases |services|
  {
    hide Keys, Once, FromService, IsAnswer, IsAdditional, AnswersPtr, IsKnown;
    if services != [] {
      var s := services[0];
      var rest := services[1..];
      assert forall x :: x in services <==> x == s || x in rest;
      var suits := AnswersPtr(sv, s, q) && !IsKnown(sv, s, p.records);
      assert suits == Suits(sv, p, q, services, s);
      var r1 := r.(count := r.count + 1);
      var r' := if suits then FromService(sv, r1, s, q, shared, p.service) else r;
      ServiceGives(sv, r1, s, q, shared, p.service);
      ServicesGive(sv, p, r', rest, q, shared);
      assert forall x :: Suits(sv, p, q, services, x) <==> (x == s && suits) || Suits(sv, p, q, rest, x);
    }
  }

  lemma {:induction false} BehindAre(answers: seq<Answer>, hosts: seq<Host>, flush: bool)
    ensures var t := Behind(answers, hosts, flush);
            && (forall key :: key in Keys(t) <==>
                  || key in Keys(answers)
                  || (key.service == None && key.kind in [1, 28]
                      && ((exists i :: 1 <= i < |hosts| && key.host == Some(hosts[i].id))
                           || (hosts != [] && key.host == None))))
            && (Once(answers) ==> Once(t))
    decreases |hosts|
  {
    hide Keys, Once, Addresses;
    if hosts != [] {
      var next := hosts[1..];
      var h := if next == [] then None else Some(next[0].id);
      AddressesAre(answers, None, h, flush);
      BehindAre(Addresses(answers, None, h, flush), next, flush);
      assert forall i :: 1 <= i < |next| ==> next[i] == hosts[i + 1];
      assert forall i :: 2 <= i < |hosts| ==> hosts[i] == next[i - 1];
    }
  }

  lemma HostAnswersAre(sv: Server, p: Parsed, r: Reply, q: Question)
    requires !ForInstance(q) && !ForServices(q)
    ensures var t := Answer1(sv, p, r, q);
            && (forall key :: key in Keys(t.answers) <==> key in Keys(r.answers) || IsHostAnswer(sv, q, key))
            && t.additional == r.additional && (Once(r.answers) ==> Once(t.answers)) && t.count == r.count + 1
  {
    hide Keys, Once, Addresses, Create, HostOf;
    if q.kind == 1 || q.kind == 28 {
      AddressesAre(r.answers, None, IdOf(HostOf(sv, q.host)), p.service);
    } else if q.kind == 255 {
      AddressesAre(r.answers, None, Some(sv.me.id), p.service);
      BehindAre(Addresses(r.answers, None, Some(sv.me.id), p.service), sv.hosts, p.service);
    } else {
      Created(r.answers, q.kind, None, None, p.service);
    }
  }

  lemma QuestionGives(sv: Server, p: Parsed, r: Reply, q: Question)
    ensures var t := Answer1(sv, p, r, q);
            && (forall key :: key in Keys(t.answers) <==> key in Keys(r.answers) || Answered(sv, p, q, key))
            && (forall key :: key in Keys(t.additional) <==> key in Keys(r.additional) || Added(sv, p, q, key))
            && (Once(r.answers) ==> Once(t.answers)) && (Once(r.additional) ==> Once(t.additional))
            && (t.count > r.count <==> Counts(sv, p, q)) && t.count >= r.count
            && t.shared == SharedFor(p, q)
  {
    hide Keys, Once, FromService, FromServices, IsAnswer, IsAdditional, AnswersPtr, IsKnown, Addresses, AllHosts, Find,
         Create, HostOf, IsHostAnswer;
    var shared := SharedFor(p, q);
    var r1 := r.(shared := shared);
    if ForInstance(q) {
      var f := Find(sv, q.host, q.service, q.proto);
      if f.Some? {
        ServiceGives(sv, r1.(count := r.count + 1), f.value, q, shared, p.service);
        assert Chosen(sv, p, q, f.value);
      }
    } else if ForServices(q) {
      ServicesGive(sv, p, r1, sv.services, q, shared);
      assert forall s :: Chosen(sv, p, q, s) <==> Suits(sv, p, q, sv.services, s);
    } else {
      HostAnswersAre(sv, p, r, q);
      assert forall s :: !Chosen(sv, p, q, s);
    }
  }

  lemma {:induction false} AllGive(sv: Server, p: Parsed, r: Reply, questions: seq<Question>)
    ensures var t := AnswerAll(sv, p, r, questions);
            && (forall key :: key in Keys(t.answers) <==>
                  key in Keys(r.answers) || exists q :: q in questions && Answered(sv, p, q, key))
            && (forall key :: key in Keys(t.additional) <==>
                  key in Keys(r.additional) || exists q :: q in questions && Added(sv, p, q, key))
            && (Once(r.answers) ==> Once(t.answers)) && (Once(r.additional) ==> Once(t.additional))
            && (t.count > r.count <==> exists q :: q in questions && Counts(sv, p, q)) && t.count >= r.count
            && (questions != [] ==> t.shared == SharedFor(p, questions[|questions| - 1]))
    decreases |questions|
  {
    hide Keys, Once, Answer1, Answered, Added, Counts, SharedFor;
    if questions != [] {
      var q, rest := questions[0], questions[1..];
      assert forall x :: x in questions <==> x == q || x in rest;
      QuestionGives(sv, p, r, q);
      AllGive(sv, p, Answer1(sv, p, r, q), rest);
    }
  }

  // ---------- The response ----------

  ghost function ReplyTo(sv: Server, p: Parsed): Reply {
    AnswerAll(sv, p, NO_REPLY, p.questions)
  }

  /** Every record of a response is asked for by a question and put where that question wants it, everything a
   * question asks for is there, and no section says anything twice. */
  lemma ResponseHolds(sv: Server, p: Parsed)
    ensures var r := ReplyTo(sv, p);
            && (forall key :: key in Keys(r.answers) <==> exists q :: q in p.questions && Answered(sv, p, q, key))
            && (forall key :: key in Keys(r.additional) <==> exists q :: q in p.questions && Added(sv, p, q, key))
            && Once(r.answers) && Once(r.additional)
  {
    hide Answered, Added;
    AllGive(sv, p, NO_REPLY, p.questions);
  }

  /** When something is sent, and when it waits: the last question decides, a shared record asked for or no probe,
   * and a delay of 25 to 100 ms that goes round with every response that waits. */
  lemma WhenItIsSent(sv: Server, p: Parsed, step: nat)
    requires step < 4
    ensures var (outcome, next) := Respond(sv, p, step);
            && (outcome.Silent? <==> forall q :: q in p.questions ==> !Counts(sv, p, q))
            && (!outcome.Silent? ==>
                  var last := p.questions[|p.questions| - 1];
                  outcome.Later? <==> last.kind == 12 || last.kind == 50 || !p.probe)
            && (outcome.Later? ==>
                  25 <= outcome.delay <= 100 && outcome.delay == 25 * (step + 1) && next == (step + 1) % 4)
            && (!outcome.Later? ==> next == step)
  {
    hide AnswerAll, Counts;
    AllGive(sv, p, NO_REPLY, p.questions);
  }

  /** No two services have the same identity. */
  predicate Apart(sv: Server) {
    forall i, j :: 0 <= i < j < |sv.services| ==> sv.services[i].id != sv.services[j].id
  }

  lemma SameService(sv: Server, s: Service, t: Service)
    requires Apart(sv) && s in sv.services && t in sv.services && s.id == t.id
    ensures s == t
  {}

  lemma ChosenIsOurs(sv: Server, p: Parsed, q: Question, s: Service)
    requires Chosen(sv, p, q, s)
    ensures s in sv.services
  {}

  /** What is said of a service, is said because a question is answered for that service; and all it asks for is. */
  lemma ServiceRecords(sv: Server, p: Parsed, s: Service)
    requires Apart(sv) && s in sv.services
    ensures var r := ReplyTo(sv, p);
            forall key: Key :: key.service == Some(s.id) ==>
              && (key in Keys(r.answers) <==>
                    exists q :: q in p.questions && Chosen(sv, p, q, s) && IsAnswer(sv, s, q, SharedFor(p, q), key))
              && (key in Keys(r.additional) <==>
                    exists q :: q in p.questions && Chosen(sv, p, q, s) && IsAdditional(sv, s, q, SharedFor(p, q), key))
  {
    hide ReplyTo, Chosen, HostOf, SharedFor, Keys;
    ResponseHolds(sv, p);
    forall q, t, key: Key | q in p.questions && Chosen(sv, p, q, t) && key.service == Some(s.id)
                       && (IsAnswer(sv, t, q, SharedFor(p, q), key) || IsAdditional(sv, t, q, SharedFor(p, q), key))
      ensures t == s
    {
      ChosenIsOurs(sv, p, q, t);
      SameService(sv, s, t);
    }
  }

  /** A service is pointed to exactly when a question discovers it and no known answer has it with more than half
   * of its time left. */
  lemma PointerIff(sv: Server, p: Parsed, s: Service)
    requires Apart(sv) && s in sv.services
    ensures RecordOf(12, s) in Keys(ReplyTo(sv, p).answers) <==>
              !IsKnown(sv, s, p.records)
              && exists q :: q in p.questions && Discovers(q) && ForServices(q) && AnswersPtr(sv, s, q)
  {
    hide ReplyTo, HostOf, SharedFor, Keys, AnswersPtr, IsKnown, Find;
    ServiceRecords(sv, p, s);
    assert forall q, shared: bool :: IsAnswer(sv, s, q, shared, RecordOf(12, s)) <==> Discovers(q);
  }

  /** With every pointer go the SRV and TXT records of its service and the addresses of its host, and with every
   * SRV record the addresses, so that the asker need not ask again (section 12 of RFC 6763). */
  lemma NothingMoreToAsk(sv: Server, p: Parsed, s: Service)
    requires Apart(sv) && s in sv.services
    ensures var r := ReplyTo(sv, p); var all := Keys(r.answers) + Keys(r.additional);
            && (RecordOf(12, s) in Keys(r.answers) ==>
                  RecordOf(33, s) in all && RecordOf(16, s) in all && AddressesOf(sv, s) <= all)
            && (RecordOf(33, s) in all ==> AddressesOf(sv, s) <= all)
  {
    hide ReplyTo, HostOf, SharedFor, Keys, Chosen;
    ServiceRecords(sv, p, s);
  }

  /** The SRV record of a service is said twice exactly when one question asks for it and another discovers the
   * service. */
  lemma SaidTwiceIff(sv: Server, p: Parsed, s: Service)
    requires Apart(sv) && s in sv.services
    ensures var r := ReplyTo(sv, p);
            RecordOf(33, s) in Keys(r.answers) * Keys(r.additional) <==>
              && (exists q :: q in p.questions && Chosen(sv, p, q, s) && Resolves(q, 33))
              && (exists q :: q in p.questions && Chosen(sv, p, q, s) && Discovers(q))
  {
    hide ReplyTo, HostOf, SharedFor, Keys, Chosen;
    ServiceRecords(sv, p, s);
    assert forall q, shared: bool :: IsAnswer(sv, s, q, shared, RecordOf(33, s)) <==> Resolves(q, 33);
    assert forall q, shared: bool :: IsAdditional(sv, s, q, shared, RecordOf(33, s)) <==> Discovers(q);
  }

  /** A question the program counts and answers nothing to: for a service, of a type no service has. */
  ghost predicate Idle(q: Question) {
    ForServices(q) && q.kind != 12 && q.kind != 255 && q.kind != 50
  }

  /** A response without answers is sent exactly when something is counted, and only for questions for a service
   * that are of a type no service has. */
  lemma EmptyResponseIff(sv: Server, p: Parsed, step: nat)
    ensures var outcome := Respond(sv, p, step).0;
            !outcome.Silent? && outcome.reply.answers == [] <==>
              && (exists q :: q in p.questions && Counts(sv, p, q))
              && forall q :: q in p.questions && Counts(sv, p, q) ==> Idle(q)
  {
    hide AnswerAll, Answered, Counts, Idle, Added;
    AllGive(sv, p, NO_REPLY, p.questions);
    var r := AnswerAll(sv, p, NO_REPLY, p.questions);
    forall q | q in p.questions && Counts(sv, p, q) && !Idle(q)
      ensures r.answers != []
    {
      var key := NotIdle(sv, p, q);
      assert key in Keys(r.answers);
    }
    if r.answers != [] {
      var a := r.answers[0];
      assert a.key in Keys(r.answers);
      var q :| q in p.questions && Answered(sv, p, q, a.key);
      AnsweredCounts(sv, p, q, a.key);
    }
  }

  lemma NotIdle(sv: Server, p: Parsed, q: Question) returns (key: Key)
    requires Counts(sv, p, q) && !Idle(q)
    ensures Answered(sv, p, q, key)
  {
    hide Find, AnswersPtr, IsKnown, HostOf;
    if !ForInstance(q) && !ForServices(q) {
      key := if q.kind == 1 || q.kind == 28 then Key(1, None, IdOf(HostOf(sv, q.host)))
             else if q.kind == 255 then Key(1, None, Some(sv.me.id)) else Key(q.kind, None, None);
      assert IsHostAnswer(sv, q, key);
    } else {
      var s :| Chosen(sv, p, q, s);
      key := RecordOf(if q.kind == 255 then if Given(q.host) then 33 else 12 else q.kind, s);
      assert IsAnswer(sv, s, q, SharedFor(p, q), key);
    }
  }

  lemma AnsweredCounts(sv: Server, p: Parsed, q: Question, key: Key)
    requires Answered(sv, p, q, key)
    ensures Counts(sv, p, q) && !Idle(q)
  {
    hide Find, AnswersPtr, IsKnown, HostOf;
  }

  /** A question for everything about a host leaves out the first of the other hosts, even the one it names. */
  lemma FirstHostIsLeftOut(sv: Server, p: Parsed, q: Question)
    requires p.questions == [q] && q.kind == 255 && !ForServices(q) && sv.hosts != []
    requires sv.hosts[0].id != sv.me.id && forall i :: 1 <= i < |sv.hosts| ==> sv.hosts[i].id != sv.hosts[0].id
    ensures var r := ReplyTo(sv, p);
            forall kind: nat, service: Option<nat> ::
              Key(kind, service, Some(sv.hosts[0].id)) !in Keys(r.answers) + Keys(r.additional)
  {
    hide ReplyTo, Keys, Find, AnswersPtr, IsKnown, HostOf;
    ResponseHolds(sv, p);
    assert forall s :: !Chosen(sv, p, q, s);
  }

  // ---------- Known answers ----------

  /** The kind of question a record is an answer to, and the service it is about. */
  function KindOf(x: KnownRecord): nat {
    match x
    case Pointer(discovery, _, _) => if discovery then 50 else 12
    case Data(_, kind) => kind
  }

  function SubjectOf(sv: Server, x: KnownRecord): Option<Service> {
    match x
    case Pointer(_, name, _) => Find(sv, Kept(name.host), Kept(name.service), Kept(name.proto))
    case Data(owner, kind) =>
      if kind == 1 || kind == 28 then None else Find(sv, None, Kept(owner.service), Kept(owner.proto))
  }

  function NameOf(x: KnownRecord): Name {
    match x case Pointer(_, name, _) => name case Data(owner, _) => owner
  }

  /** The record is for us and drops the question.  While probes are answered, only the list of services is left
   * out. */
  predicate Drops(sv: Server, probe: bool, x: KnownRecord, q: Question) {
    && !NameOf(x).sub && IsOurs(sv, NameOf(x)) && (x.Pointer? ==> SubjectOf(sv, x).Some?)
    && (probe ==> x.Pointer? && x.discovery)
    && QuestionMatches(sv, q, KindOf(x), SubjectOf(sv, x))
  }

  predicate IsNoted(sv: Server, x: KnownRecord, r: Known) {
    && x.Pointer? && !x.name.sub && IsOurs(sv, x.name) && SubjectOf(sv, x).Some?
    && r == Known(Kept(x.name.host), Kept(x.name.service), Kept(x.name.proto), x.ttl)
  }

  /** Of the questions that match, the first goes, and no other. */
  lemma {:induction false} RemovedFirst(sv: Server, questions: seq<Question>, kind: nat, s: Option<Service>)
    returns (i: nat)
    ensures i <= |questions| && forall j :: 0 <= j < i ==> !QuestionMatches(sv, questions[j], kind, s)
    ensures i < |questions| ==> QuestionMatches(sv, questions[i], kind, s)
    ensures Removed(sv, questions, kind, s) == if i < |questions| then questions[..i] + questions[i + 1..]
            else questions
    decreases |questions|
  {
    hide QuestionMatches;
    i := 0;
    if questions != [] && !QuestionMatches(sv, questions[0], kind, s) {
      var rest := questions[1..];
      var j := RemovedFirst(sv, rest, kind, s);
      i := j + 1;
      assert forall k :: 0 < k < i ==> questions[k] == rest[k - 1];
      assert j < |rest| ==> [questions[0]] + (rest[..j] + rest[j + 1..]) == questions[..i] + questions[i + 1..];
      assert [questions[0]] + rest == questions;
    } else if questions != [] {
      assert questions[..0] + questions[1..] == questions[1..];
    }
  }

  /** Every record answers both or neither. */
  ghost predicate Alike(sv: Server, a: Question, b: Question) {
    forall kind: nat, s: Option<Service> :: QuestionMatches(sv, a, kind, s) <==> QuestionMatches(sv, b, kind, s)
  }

  /** No record answers both. */
  ghost predicate Unlike(sv: Server, a: Question, b: Question) {
    forall kind: nat, s: Option<Service> :: !(QuestionMatches(sv, a, kind, s) && QuestionMatches(sv, b, kind, s))
  }

  /** Each of the questions is one or the other to every other. */
  ghost predicate Grouped(sv: Server, questions: seq<Question>) {
    forall a, b :: a in questions && b in questions ==> Alike(sv, a, b) || Unlike(sv, a, b)
  }

  ghost predicate GroupedWith(sv: Server, questions: seq<Question>, q: Question) {
    forall x :: x in questions ==> Alike(sv, x, q) || Unlike(sv, x, q)
  }

  /** The questions like `q`, in order. */
  ghost function Group(sv: Server, questions: seq<Question>, q: Question): seq<Question> {
    if questions == [] then []
    else (if Alike(sv, questions[0], q) then [questions[0]] else []) + Group(sv, questions[1..], q)
  }

  lemma {:induction false} GroupHas(sv: Server, questions: seq<Question>, q: Question)
    ensures forall x :: x in Group(sv, questions, q) <==> x in questions && Alike(sv, x, q)
    ensures q in questions <==> q in Group(sv, questions, q)
    decreases |questions|
  {
    hide QuestionMatches, Alike;
    AlikeSelf(sv, q);
    if questions != [] {
      GroupHas(sv, questions[1..], q);
      assert questions == [questions[0]] + questions[1..];
    }
  }

  lemma AlikeSelf(sv: Server, q: Question)
    ensures Alike(sv, q, q)
  {
    hide QuestionMatches;
  }

  /** A record that answers `q` takes the first of its group out, and another leaves the group alone. */
  lemma {:induction false} GroupRemoved(sv: Server, questions: seq<Question>, kind: nat, s: Option<Service>,
                                        q: Question)
    requires GroupedWith(sv, questions, q)
    ensures var g := Group(sv, questions, q);
            Group(sv, Removed(sv, questions, kind, s), q) ==
              if QuestionMatches(sv, q, kind, s) && g != [] then g[1..] else g
    ensures forall x :: x in Removed(sv, questions, kind, s) ==> x in questions
    decreases |questions|
  {
    hide QuestionMatches;
    if questions != [] {
      var first, rest := questions[0], questions[1..];
      assert questions == [first] + rest;
      GroupRemoved(sv, rest, kind, s, q);
      var t := Removed(sv, questions, kind, s);
      assert Alike(sv, first, q) || Unlike(sv, first, q);
      if !QuestionMatches(sv, first, kind, s) {
        assert t[0] == first && t[1..] == Removed(sv, rest, kind, s);
        assert [] + Group(sv, t[1..], q) == Group(sv, t[1..], q);
      } else {
        assert t == rest;
        assert [] + Group(sv, rest, q) == Group(sv, rest, q);
      }
    }
  }

  /** How many of the records drop the question. */
  function Dropping(sv: Server, probe: bool, xs: seq<KnownRecord>, q: Question): nat {
    if xs == [] then 0 else (if Drops(sv, probe, xs[0], q) then 1 else 0) + Dropping(sv, probe, xs[1..], q)
  }

  lemma NotedIs(sv: Server, p: Parsed, x: KnownRecord, q: Question)
    requires GroupedWith(sv, p.questions, q)
    ensures var t := Noted(sv, p, x); var g := Group(sv, p.questions, q);
            && t.probe == p.probe && t.service == p.service
            && (forall y :: y in t.questions ==> y in p.questions)
            && Group(sv, t.questions, q) == (if Drops(sv, p.probe, x, q) && g != [] then g[1..] else g)
  {
    hide IsOurs, Find, QuestionMatches, Removed, Group;
    GroupRemoved(sv, p.questions, KindOf(x), SubjectOf(sv, x), q);
    if p.questions == [] {
      NothingToRemove(sv, KindOf(x), SubjectOf(sv, x), q);
    }
  }

  lemma NothingToRemove(sv: Server, kind: nat, s: Option<Service>, q: Question)
    ensures Removed(sv, [], kind, s) == [] && Group(sv, [], q) == []
  {}

  lemma NotedRecords(sv: Server, p: Parsed, x: KnownRecord)
    ensures forall r :: r in Noted(sv, p, x).records <==> r in p.records || IsNoted(sv, x, r)
  {
    hide IsOurs, Find, QuestionMatches, Removed;
  }

  /** Which questions are left, for every packet: of those like `q`, as many of the first ones are dropped as there
   * are records that answer them. */
  lemma {:induction false} AllNotedIs(sv: Server, p: Parsed, xs: seq<KnownRecord>, q: Question)
    requires GroupedWith(sv, p.questions, q)
    ensures var t := AllNoted(sv, p, xs); var g := Group(sv, p.questions, q); var n := Dropping(sv, p.probe, xs, q);
            && (forall y :: y in t.questions ==> y in p.questions)
            && Group(sv, t.questions, q) == (if n < |g| then g[n..] else [])
    decreases |xs|
  {
    hide Noted, Drops, Group, Alike, Unlike;
    if xs != [] {
      NotedIs(sv, p, xs[0], q);
      AllNotedIs(sv, Noted(sv, p, xs[0]), xs[1..], q);
    }
  }

  lemma {:induction false} AllNotedRecords(sv: Server, p: Parsed, xs: seq<KnownRecord>)
    ensures forall r :: r in AllNoted(sv, p, xs).records <==> r in p.records || exists x :: x in xs && IsNoted(sv, x, r)
    decreases |xs|
  {
    hide Noted, IsNoted;
    if xs != [] {
      assert forall x :: x in xs <==> x == xs[0] || x in xs[1..];
      NotedRecords(sv, p, xs[0]);
      AllNotedRecords(sv, Noted(sv, p, xs[0]), xs[1..]);
    }
  }

  /** The question is still there once the records are noted. */
  ghost predicate Survives(sv: Server, p: Parsed, xs: seq<KnownRecord>, q: Question) {
    var g := Group(sv, p.questions, q); var n := Dropping(sv, p.probe, xs, q);
    n < |g| && q in g[n..]
  }

  lemma SurvivesIff(sv: Server, p: Parsed, xs: seq<KnownRecord>, q: Question)
    requires GroupedWith(sv, p.questions, q)
    ensures q in AllNoted(sv, p, xs).questions <==> Survives(sv, p, xs, q)
    ensures Survives(sv, p, xs, q) ==> q in p.questions
  {
    hide AllNoted, Group, Dropping, Alike, Unlike;
    AllNotedIs(sv, p, xs, q);
    GroupHas(sv, AllNoted(sv, p, xs).questions, q);
  }

  /** Known-answer suppression, from the records of the query to the response: a service is pointed to exactly when
   * a question that discovers it survives, and no record names the service with more than half of its time left. */
  lemma SuppressedIff(sv: Server, p: Parsed, xs: seq<KnownRecord>, s: Service)
    requires Apart(sv) && s in sv.services && Grouped(sv, p.questions)
    ensures RecordOf(12, s) in Keys(ReplyTo(sv, AllNoted(sv, p, xs)).answers) <==>
              && !IsKnown(sv, s, p.records) && (forall x, r :: x in xs && IsNoted(sv, x, r) ==> !KnownBy(sv, s, r))
              && (exists q :: q in p.questions && Discovers(q) && ForServices(q) && AnswersPtr(sv, s, q)
                   && Survives(sv, p, xs, q))
  {
    hide ReplyTo, Keys, AllNoted, IsNoted, AnswersPtr, KnownBy, Discovers, ForServices, Survives, Alike, Unlike;
    AllNotedRecords(sv, p, xs);
    PointerIff(sv, AllNoted(sv, p, xs), s);
    forall q | q in p.questions
      ensures q in AllNoted(sv, p, xs).questions <==> Survives(sv, p, xs, q)
    {
      SurvivesIff(sv, p, xs, q);
    }
    forall q | q in AllNoted(sv, p, xs).questions
      ensures q in p.questions
    {
      OnlyOld(sv, p, xs);
    }
  }

  lemma {:induction false} OnlyOld(sv: Server, p: Parsed, xs: seq<KnownRecord>)
    ensures forall q :: q in AllNoted(sv, p, xs).questions ==> q in p.questions
    decreases |xs|
  {
    hide Noted;
    if xs != [] {
      OnlyOld(sv, Noted(sv, p, xs[0]), xs[1..]);
      NotedOld(sv, p, xs[0]);
    }
  }

  lemma NotedOld(sv: Server, p: Parsed, x: KnownRecord)
    ensures forall q :: q in Noted(sv, p, x).questions ==> q in p.questions
  {
    hide IsOurs, Find, QuestionMatches, Removed;
    RemovedOld(sv, p.questions, KindOf(x), SubjectOf(sv, x));
  }

  lemma {:induction false} RemovedOld(sv: Server, questions: seq<Question>, kind: nat, s: Option<Service>)
    ensures forall q :: q in Removed(sv, questions, kind, s) ==> q in questions
    decreases |questions|
  {
    hide QuestionMatches;
    if questions != [] {
      RemovedOld(sv, questions[1..], kind, s);
      assert questions == [questions[0]] + questions[1..];
    }
  }

  lemma {:induction false} DroppedAtLeast(sv: Server, probe: bool, xs: seq<KnownRecord>, x: KnownRecord, q: Question)
    requires x in xs && Drops(sv, probe, x, q)
    ensures Dropping(sv, probe, xs, q) >= 1
    decreases |xs|
  {
    hide Drops;
    if xs[0] != x {
      DroppedAtLeast(sv, probe, xs[1..], x, q);
    }
  }

  /** A service that goes by the default name drops, when it is among the known answers of a query, the question for
   * its whole type, however little of its time is left: a service that no other question discovers is not pointed
   * to, known or not. */
  lemma OneKnownHidesAll(sv: Server, p: Parsed, xs: seq<KnownRecord>, q: Question, x: KnownRecord, s: Service)
    requires Apart(sv) && s in sv.services && !p.probe && GroupedWith(sv, p.questions, q) && q in p.questions
    requires q.kind == 12 && q.host == None && Group(sv, p.questions, q) == [q]
    requires forall y :: y in p.questions && Discovers(y) && ForServices(y) && AnswersPtr(sv, s, y) ==> y == q
    requires x in xs && x.Pointer? && !x.discovery && !x.name.sub && IsOurs(sv, x.name)
    requires var t := SubjectOf(sv, x); t.Some? && t.value.instance == None && SameType(t.value, q.service, q.proto)
    ensures RecordOf(12, s) !in Keys(ReplyTo(sv, AllNoted(sv, p, xs)).answers)
  {
    hide ReplyTo, Keys, AllNoted, IsOurs, Find, SameType, AnswersPtr, IsKnown, GroupedWith, Group, Dropping;
    DroppedAtLeast(sv, p.probe, xs, x, q);
    SurvivesIff(sv, p, xs, q);
    OnlyOld(sv, p, xs);
    PointerIff(sv, AllNoted(sv, p, xs), s);
  }
}
