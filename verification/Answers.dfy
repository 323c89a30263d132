/** Answering a query: which questions and known answers of a packet are kept (mdns_receive.c:28-115, 518-584,
 * 702-757, 862-925), and which records the response holds, in which section (mdns_send.c:213-384, 523-665). */
module Answers {
  import opened Bytes

  const T_A := 1
  const T_PTR := 12
  const T_TXT := 16
  const T_AAAA := 28
  const T_SRV := 33
  const T_SDPTR := 50
  const T_ANY := 255
  const PTR_TTL := 4500

  /** mdns_service_t; `id` stands for its address. */
  datatype Service = Service(id: nat, instance: Option<CString>, service: CString, proto: CString,
                             host: Option<CString>, subtypes: seq<CString>)

  /** mdns_host_item_t. */
  datatype Host = Host(id: nat, name: CString)

  /** The device: its names, its services, itself as a host, and the hosts it answers for. */
  datatype Server = Server(hostname: CString, instance: Option<CString>, services: seq<Service>, me: Host,
    hosts: seq<Host>)

  // ---------- Names ----------

  function DefaultName(sv: Server): CString {
    if Given(sv.instance) then sv.instance.value else sv.hostname
  }

  /** mdns_utils_get_service_instance_name. */
  function InstanceName(sv: Server, s: Service): CString {
    if Given(s.instance) then s.instance.value else DefaultName(sv)
  }

  predicate Same(a: CString, b: Option<CString>) {
    b.Some? && EqNoCase(a, b.value)
  }

  predicate SameType(s: Service, service: Option<CString>, proto: Option<CString>) {
    Same(s.service, service) && Same(s.proto, proto)
  }

  /** mdns_utils_instance_name_match: a name that is not there is the default one. */
  predicate SameInstance(sv: Server, a: Option<CString>, b: Option<CString>) {
    EqNoCase(if a.Some? then a.value else DefaultName(sv), if b.Some? then b.value else DefaultName(sv))
  }

  /** mdns_utils_service_match and mdns_utils_service_match_instance, for any host name. */
  predicate TypeMatch(s: Service, service: Option<CString>, proto: Option<CString>) {
    s.host.Some? && SameType(s, service, proto)
  }

  predicate InstanceMatch(sv: Server, s: Service, instance: Option<CString>, service: Option<CString>,
                          proto: Option<CString>) {
    SameType(s, service, proto) && SameInstance(sv, s.instance, instance)
  }

  predicate Fits(sv: Server, s: Service, instance: Option<CString>, service: Option<CString>, proto: Option<CString>) {
    if instance.Some? then InstanceMatch(sv, s, instance, service, proto) else TypeMatch(s, service, proto)
  }

  /** mdns_utils_get_service_item_instance: the first that fits. */
  function FindIn(sv: Server, services: seq<Service>, instance: Option<CString>, service: Option<CString>,
                  proto: Option<CString>): (r: Option<Service>)
    ensures r.Some? ==> r.value in services && Fits(sv, r.value, instance, service, proto)
  {
    if services == [] then None
    else if Fits(sv, services[0], instance, service, proto) then Some(services[0])
    else FindIn(sv, services[1..], instance, service, proto)
  }

  function Find(sv: Server, instance: Option<CString>, service: Option<CString>,
                proto: Option<CString>): Option<Service> {
    FindIn(sv, sv.services, instance, service, proto)
  }

  function FindHost(hosts: seq<Host>, name: CString): (r: Option<Host>)
    ensures r.Some? ==> r.value in hosts
  {
    if hosts == [] then None else if EqNoCase(hosts[0].name, name) then Some(hosts[0]) else FindHost(hosts[1..], name)
  }

  /** get_host_item. */
  function HostOf(sv: Server, name: Option<CString>): Option<Host> {
    if name.None? || EqNoCase(name.value, sv.hostname) then Some(sv.me) else FindHost(sv.hosts, name.value)
  }

  // ---------- The parsed packet ----------

  /** mdns_parsed_question_t; the domain is always "local". */
  datatype Question = Question(kind: nat, unicast: bool, host: Option<CString>, service: Option<CString>,
                               proto: Option<CString>, sub: bool)

  /** mdns_parsed_record_t: a PTR record the asker already knows. */
  datatype Known = Known(host: Option<CString>, service: Option<CString>, proto: Option<CString>, ttl: nat)

  /** mdns_parsed_packet_t.  `service`: it came from the mDNS port. */
  datatype Parsed = Parsed(questions: seq<Question>, records: seq<Known>, probe: bool, discovery: bool, service: bool)

  /** mdns_name_t, as the name reader leaves it. */
  datatype Name = Name(host: CString, service: CString, proto: CString, domain: CString, sub: bool)

  const SERVICES: CString := [95, 115, 101, 114, 118, 105, 99, 101, 115]
  const DNS_SD: CString := [95, 100, 110, 115, 45, 115, 100]
  const UDP: CString := [95, 117, 100, 112]

  predicate IsDiscovery(name: Name, kind: nat) {
    && EqNoCase(name.host, SERVICES) && EqNoCase(name.service, DNS_SD) && EqNoCase(name.proto, UDP)
    && EqNoCase(name.domain, LOCAL) && kind == T_PTR
  }

  predicate HasSubtype(s: Service, subtype: CString) {
    exists i :: 0 <= i < |s.subtypes| && EqNoCase(s.subtypes[i], subtype)
  }

  /** strdup_check: an empty name is none. */
  function Kept(name: CString): Option<CString> {
    if name == [] then None else Some(name)
  }

  predicate HostIsOurs(sv: Server, host: CString) {
    EqNoCase(host, sv.hostname) || exists i :: 0 <= i < |sv.hosts| && EqNoCase(host, sv.hosts[i].name)
  }

  /** is_ours. */
  predicate IsOurs(sv: Server, name: Name) {
    EqNoCase(name.domain, LOCAL)
    && if name.service == [] && name.proto == [] then name.host != [] && HostIsOurs(sv, name.host)
       else
         && name.service != [] && name.proto != []
         && if name.sub then
              exists s :: s in sv.services && TypeMatch(s, Some(name.service), Some(name.proto))
                && HasSubtype(s, name.host)
            else
              match Find(sv, Kept(name.host), Some(name.service), Some(name.proto))
              case None => false
              case Some(s) => name.host == [] || EqNoCase(name.host, InstanceName(sv, s))
  }

  function DiscoveryQuestions(services: seq<Service>, unicast: bool): seq<Question> {
    if services == [] then []
    else DiscoveryQuestions(services[1..], unicast)
         + [Question(T_SDPTR, unicast, None, Some(services[0].service), Some(services[0].proto), false)]
  }

  /** One question of the packet, of the internet class: kept in front of those before when it is for us. */
  function Heard(sv: Server, p: Parsed, name: Name, kind: nat, unicast: bool): Parsed {
    if IsDiscovery(name, kind) then p.(discovery := true,
         questions := DiscoveryQuestions(sv.services, unicast) + p.questions)
    else if !IsOurs(sv, name) then p
    else
      p.(probe := p.probe || (kind == T_ANY && name.host != []),
         questions := [Question(kind, unicast, Kept(name.host), Kept(name.service), Kept(name.proto), name.sub)]
           + p.questions)
  }

  // ---------- Known answers ----------

  /** question_matches; services have types of one byte or more. */
  predicate QuestionMatches(sv: Server, q: Question, kind: nat, s: Option<Service>) {
    q.kind == kind
    && if kind == T_A || kind == T_AAAA then true
       else if kind == T_PTR || kind == T_SDPTR then
         && s.Some? && SameType(s.value, q.service, q.proto)
         && (s.value.instance.None? || Same(s.value.instance.value, q.host))
       else
         && s.Some? && (kind == T_SRV || kind == T_TXT)
         && Same(InstanceName(sv, s.value), q.host) && SameType(s.value, q.service, q.proto)
  }

  /** remove_parsed_question: the first that matches. */
  function Removed(sv: Server, questions: seq<Question>, kind: nat, s: Option<Service>): seq<Question> {
    if questions == [] then []
    else if QuestionMatches(sv, questions[0], kind, s) then questions[1..]
    else [questions[0]] + Removed(sv, questions[1..], kind, s)
  }

  /** A PTR record of a query, for a name that is ours or for the list of services, and not being browsed for: what
   * it says is noted, and a question it answers is dropped. */
  function KnownPtr(sv: Server, p: Parsed, discovery: bool, name: Name, ttl: nat): Parsed {
    if name.sub || !IsOurs(sv, name) then p
    else
      match Find(sv, Kept(name.host), Kept(name.service), Kept(name.proto))
      case None => p
      case Some(s) =>
        var q := if discovery then p.(questions := Removed(sv, p.questions, T_SDPTR, Some(s)))
                 else if p.questions != [] && !p.probe then p.(questions := Removed(sv, p.questions, T_PTR, Some(s)))
                 else p;
        q.(records := [Known(Kept(name.host), Kept(name.service), Kept(name.proto), ttl)] + q.records)
  }

  /** An SRV, TXT, A or AAAA record of a query, for a name that is ours: a question it answers is dropped, which for
   * SRV and TXT is looked for by the first service of the type. */
  function KnownOther(sv: Server, p: Parsed, owner: Name, kind: nat): Parsed {
    if owner.sub || !IsOurs(sv, owner) || p.questions == [] || p.probe then p
    else
      var s := if kind == T_A || kind == T_AAAA then None else Find(sv, None, Kept(owner.service), Kept(owner.proto));
      p.(questions := Removed(sv, p.questions, kind, s))
  }

  /** A record of a query that is for us: a pointer, in reply to the list of services or not, or data of one. */
  datatype KnownRecord = Pointer(discovery: bool, name: Name, ttl: nat) | Data(owner: Name, kind: nat)

  function Noted(sv: Server, p: Parsed, x: KnownRecord): Parsed {
    match x
    case Pointer(discovery, name, ttl) => KnownPtr(sv, p, discovery, name, ttl)
    case Data(owner, kind) => KnownOther(sv, p, owner, kind)
  }

  function AllNoted(sv: Server, p: Parsed, xs: seq<KnownRecord>): Parsed
    decreases |xs|
  {
    if xs == [] then p else AllNoted(sv, Noted(sv, p, xs[0]), xs[1..])
  }

  // ---------- The response ----------

  /** What makes an answer the same: its type, service and host. */
  datatype Key = Key(kind: nat, service: Option<nat>, host: Option<nat>)

  /** mdns_out_answer_t. */
  datatype Answer = Answer(key: Key, flush: bool)

  /** The packet being built, the records counted, and whether the response may wait and goes to the asker. */
  datatype Reply = Reply(answers: seq<Answer>, additional: seq<Answer>, repeated: seq<Question>, count: nat,
                         shared: bool, unicast: bool)

  const NO_REPLY := Reply([], [], [], 0, false, false)

  function Keys(answers: seq<Answer>): set<Key> {
    set a | a in answers :: a.key
  }

  /** mdns_priv_create_answer. */
  function Create(answers: seq<Answer>, kind: nat, service: Option<nat>, host: Option<nat>, flush: bool): seq<Answer> {
    if exists a :: a in answers && a.key == Key(kind, service, host) then answers
    else answers + [Answer(Key(kind, service, host), flush)]
  }

  function IdOf(h: Option<Host>): Option<nat> {
    if h.Some? then Some(h.value.id) else None
  }

  function Addresses(answers: seq<Answer>, service: Option<nat>, host: Option<nat>, flush: bool): seq<Answer> {
    Create(Create(answers, T_A, service, host, flush), T_AAAA, service, host, flush)
  }

  /** create_answer_from_service. */
  function FromService(sv: Server, r: Reply, s: Service, q: Question, shared: bool, flush: bool): Reply {
    var host := HostOf(sv, s.host);
    var h := IdOf(host);
    var id := Some(s.id);
    if q.kind == T_ANY && Given(q.host) then
      r.(answers := Create(Create(r.answers, T_SRV, id, None, flush), T_TXT, id, None, flush),
         additional := Addresses(r.additional, id, h, flush))
    else if q.kind == T_PTR || q.kind == T_ANY then
      var answers := Create(r.answers, T_PTR, id, None, false);
      var additional := Create(Create(r.additional, T_SRV, id, None, flush), T_TXT, id, None, flush);
      if shared || host != Some(sv.me)
      then r.(answers := answers, additional := Addresses(additional, id, h, flush))
      else r.(answers := Addresses(answers, id, h, flush), additional := additional)
    else if q.kind == T_SRV then
      r.(answers := Create(r.answers, T_SRV, id, None, flush), additional := Addresses(r.additional, id, h, flush))
    else if q.kind == T_TXT then r.(answers := Create(r.answers, T_TXT, id, None, flush))
    else if q.kind == T_SDPTR then r.(answers := Create(r.answers, T_SDPTR, id, None, false))
    else r
  }

  /** append_host_list: this device, and after each of the other hosts the one behind it. */
  function Behind(answers: seq<Answer>, hosts: seq<Host>, flush: bool): seq<Answer>
    decreases |hosts|
  {
    if hosts == [] then answers
    else
      var next := hosts[1..];
      Behind(Addresses(answers, None, if next == [] then None else Some(next[0].id), flush), next, flush)
  }

  function AllHosts(sv: Server, answers: seq<Answer>, flush: bool): seq<Answer> {
    Behind(Addresses(answers, None, Some(sv.me.id), flush), sv.hosts, flush)
  }

  /** service_match_ptr_question. */
  predicate AnswersPtr(sv: Server, s: Service, q: Question) {
    TypeMatch(s, q.service, q.proto)
    && if q.sub then q.host.Some? && HasSubtype(s, q.host.value)
       else q.host.None? || EqNoCase(InstanceName(sv, s), q.host.value)
  }

  /** Among the known answers, with more than half of its time left. */
  predicate IsKnown(sv: Server, s: Service, records: seq<Known>) {
    exists r :: r in records && KnownBy(sv, s, r)
  }

  predicate KnownBy(sv: Server, s: Service, r: Known) {
    && (if s.instance.Some? then r.host.Some? && InstanceMatch(sv, s, r.host, r.service, r.proto)
        else r.host.None? && TypeMatch(s, r.service, r.proto))
    && r.ttl > PTR_TTL / 2
  }

  function FromServices(sv: Server, p: Parsed, r: Reply, services: seq<Service>, q: Question, shared: bool): Reply
    decreases |services|
  {
    if services == [] then r
    else
      var s := services[0];
      var r' := if AnswersPtr(sv, s, q) && !IsKnown(sv, s, p.records)
                then FromService(sv, r.(count := r.count + 1), s, q, shared, p.service) else r;
      FromServices(sv, p, r', services[1..], q, shared)
  }

  predicate ForInstance(q: Question) {
    q.kind == T_SRV || q.kind == T_TXT
  }

  predicate ForServices(q: Question) {
    !ForInstance(q) && q.service.Some? && q.proto.Some?
  }

  predicate SharedFor(p: Parsed, q: Question) {
    q.kind == T_PTR || q.kind == T_SDPTR || !p.probe
  }

  /** What a question that has been answered leaves: it is repeated to an asker that uses another port. */
  function Repeated(p: Parsed, r: Reply, q: Question): Reply {
    r.(repeated := if !p.service && (q.kind == T_ANY || q.kind == T_A || q.kind == T_AAAA) then r.repeated + [q]
      else r.repeated,
       unicast := r.unicast || q.unicast)
  }

  /** One question. */
  function Answer1(sv: Server, p: Parsed, r: Reply, q: Question): Reply {
    var shared := SharedFor(p, q);
    var r := r.(shared := shared);
    if ForInstance(q) then
      match Find(sv, q.host, q.service, q.proto)
      case None => r
      case Some(s) => Repeated(p, FromService(sv, r.(count := r.count + 1), s, q, shared, p.service), q)
    else if ForServices(q) then Repeated(p, FromServices(sv, p, r, sv.services, q, shared), q)
    else
      var answers := if q.kind == T_A || q.kind == T_AAAA
                     then Addresses(r.answers, None, IdOf(HostOf(sv, q.host)), p.service)
                     else if q.kind == T_ANY then AllHosts(sv, r.answers, p.service)
                     else Create(r.answers, q.kind, None, None, p.service);
      Repeated(p, r.(answers := answers, count := r.count + 1), q)
  }

  function AnswerAll(sv: Server, p: Parsed, r: Reply, questions: seq<Question>): Reply
    decreases |questions|
  {
    if questions == [] then r else AnswerAll(sv, p, Answer1(sv, p, r, questions[0]), questions[1..])
  }

  /** Nothing is sent, or the response at once or after a delay, to the group or to the asker. */
  datatype Outcome = Silent | Now(reply: Reply, direct: bool) | Later(reply: Reply, direct: bool, delay: nat)

  /** mdns_priv_create_answer_from_parsed_packet; `step` counts the delayed responses modulo 4. */
  function Respond(sv: Server, p: Parsed, step: nat): (r: (Outcome, nat))
  {
    var r := AnswerAll(sv, p, NO_REPLY, p.questions);
    if p.questions == [] || r.count == 0 then (Silent, step)
    else if r.shared then (Later(r, r.unicast || !p.service, 25 + step * 25), (step + 1) % 4)
    else (Now(r, r.unicast || !p.service), step)
  }
}
