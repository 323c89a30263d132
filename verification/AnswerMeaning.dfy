/** What the answers to a query come to in terms of the names and numbers in it: for which services a question is
 * answered, which known answers keep a service back, which names are ours, which records carry the cache-flush bit,
 * and to whom the response goes. */
module AnswerMeaning {
  import opened Bytes
  import opened Answers
  import opened AnswerResults

  // ---------- Names ----------

  /** The name is there and equal up to ASCII case. */
  predicate SameWords(a: CString, b: Option<CString>) {
    b.Some? && EqNoCase(a, b.value)
  }

  predicate OfType(s: Service, service: Option<CString>, proto: Option<CString>) {
    SameWords(s.service, service) && SameWords(s.proto, proto)
  }

  /** The name of a service that has none of its own. */
  function Default(sv: Server): CString {
    if sv.instance.Some? && sv.instance.value != [] then sv.instance.value else sv.hostname
  }

  function FullName(sv: Server, s: Service): CString {
    if s.instance.Some? && s.instance.value != [] then s.instance.value else Default(sv)
  }

  /** A service by its type, and its instance when one is named. */
  predicate FitsName(sv: Server, s: Service, instance: Option<CString>, service: Option<CString>,
                     proto: Option<CString>) {
    && OfType(s, service, proto)
    && if instance.Some? then EqNoCase(if s.instance.Some? then s.instance.value else Default(sv), instance.value)
       else s.host.Some?
  }

  predicate FirstFit(sv: Server, instance: Option<CString>, service: Option<CString>, proto: Option<CString>,
                     s: Service) {
    exists i :: 0 <= i < |sv.services| && sv.services[i] == s && FitsName(sv, s, instance, service, proto)
      && forall j :: 0 <= j < i ==> !FitsName(sv, sv.services[j], instance, service, proto)
  }

  lemma FitsIs(sv: Server, s: Service, instance: Option<CString>, service: Option<CString>, proto: Option<CString>)
    ensures Fits(sv, s, instance, service, proto) == FitsName(sv, s, instance, service, proto)
  {
    hide EqNoCase;
  }

  lemma {:induction false} FirstOfThem(sv: Server, services: seq<Service>, instance: Option<CString>,
                                       service: Option<CString>, proto: Option<CString>) returns (i: nat)
    ensures i <= |services| && forall j :: 0 <= j < i ==> !FitsName(sv, services[j], instance, service, proto)
    ensures FindIn(sv, services, instance, service, proto) == if i < |services| then Some(services[i]) else None
    ensures i < |services| ==> FitsName(sv, services[i], instance, service, proto)
    decreases |services|
  {
    hide Fits, FitsName;
    i := 0;
    if services != [] {
      FitsIs(sv, services[0], instance, service, proto);
      if !Fits(sv, services[0], instance, service, proto) {
        var k := FirstOfThem(sv, services[1..], instance, service, proto);
        i := k + 1;
        assert forall j :: 0 < j < i ==> services[j] == services[1..][j - 1];
      }
    }
  }

  /** The service found is the first that fits. */
  lemma FoundIff(sv: Server, instance: Option<CString>, service: Option<CString>, proto: Option<CString>, s: Service)
    ensures Find(sv, instance, service, proto) == Some(s) <==> FirstFit(sv, instance, service, proto, s)
    ensures Find(sv, instance, service, proto) == None
            <==> forall x :: x in sv.services ==> !FitsName(sv, x, instance, service, proto)
  {
    hide FitsName, FindIn;
    var i := FirstOfThem(sv, sv.services, instance, service, proto);
    if i < |sv.services| {
      assert sv.services[i] in sv.services;
    }
  }

  /** This device when no host is named, or itself; else the first of the other hosts with that name, if there is
   * one. */
  lemma {:induction false} HostIs(sv: Server, hosts: seq<Host>, name: CString)
    ensures match FindHost(hosts, name)
            case None => forall h :: h in hosts ==> !EqNoCase(h.name, name)
            case Some(h) =>
              exists i :: 0 <= i < |hosts| && hosts[i] == h && EqNoCase(h.name, name)
                          && forall j :: 0 <= j < i ==> !EqNoCase(hosts[j].name, name)
    decreases |hosts|
  {
    hide EqNoCase;
    if hosts != [] && !EqNoCase(hosts[0].name, name) {
      var rest := hosts[1..];
      HostIs(sv, rest, name);
      assert hosts == [hosts[0]] + rest;
      if FindHost(rest, name).Some? {
        var h := FindHost(rest, name).value;
        var i :| 0 <= i < |rest| && rest[i] == h && EqNoCase(h.name, name)
                 && forall j :: 0 <= j < i ==> !EqNoCase(rest[j].name, name);
        assert hosts[i + 1] == h && forall j :: 0 < j < i + 1 ==> hosts[j] == rest[j - 1];
      }
    }
  }

  /** The host whose addresses go with a service, or answer a question for a host. */
  lemma HostToldIs(sv: Server, name: Option<CString>)
    ensures name.None? || EqNoCase(name.value, sv.hostname) ==> HostOf(sv, name) == Some(sv.me)
    ensures name.Some? && !EqNoCase(name.value, sv.hostname) ==>
              match HostOf(sv, name)
              case None => forall h :: h in sv.hosts ==> !EqNoCase(h.name, name.value)
              case Some(h) =>
                exists i :: 0 <= i < |sv.hosts| && sv.hosts[i] == h && EqNoCase(h.name, name.value)
                            && forall j :: 0 <= j < i ==> !EqNoCase(sv.hosts[j].name, name.value)
  {
    hide EqNoCase, FindHost;
    if name.Some? {
      HostIs(sv, sv.hosts, name.value);
    }
  }

  // ---------- Which services a question is answered for ----------

  /** The question is for the type of the service, and for it, for all of the type, or for one of its subtypes. */
  predicate AsksFor(sv: Server, s: Service, q: Question) {
    && s.host.Some? && OfType(s, q.service, q.proto)
    && if q.sub
       then q.host.Some? && exists i :: 0 <= i < |s.subtypes| && EqNoCase(s.subtypes[i], q.host.value)
       else q.host.None? || EqNoCase(FullName(sv, s), q.host.value)
  }

  /** A record by that name is about the service: it names its instance, or no instance when it has none. */
  predicate Carries(s: Service, host: Option<CString>, service: Option<CString>, proto: Option<CString>) {
    OfType(s, service, proto) && if s.instance.Some? then SameWords(s.instance.value, host) else host.None?
  }

  /** The asker has the pointer to the service for more than half of its 4500 seconds yet. */
  ghost predicate StillKnown(s: Service, records: seq<Known>) {
    exists r :: r in records && Carries(s, r.host, r.service, r.proto) && r.ttl > 2250
  }

  /** SRV and TXT questions are answered for the first service that fits; the others for every service they ask for
   * that is not known. */
  ghost predicate AnsweredFor(sv: Server, p: Parsed, q: Question, s: Service) {
    if q.kind == 33 || q.kind == 16 then FirstFit(sv, q.host, q.service, q.proto, s)
    else s in sv.services && AsksFor(sv, s, q) && !StillKnown(s, p.records)
  }

  lemma AsksIs(sv: Server, s: Service, q: Question)
    ensures AsksFor(sv, s, q) <==> AnswersPtr(sv, s, q)
  {
    hide EqNoCase;
  }

  lemma KnownIs(sv: Server, s: Service, records: seq<Known>)
    requires s.host.Some?
    ensures StillKnown(s, records) <==> IsKnown(sv, s, records)
  {
    hide KnownBy, Carries;
    forall r
      ensures KnownBy(sv, s, r) <==> Carries(s, r.host, r.service, r.proto) && r.ttl > 2250
    {
      OneKnown(sv, s, r);
    }
  }

  lemma OneKnown(sv: Server, s: Service, r: Known)
    requires s.host.Some?
    ensures KnownBy(sv, s, r) <==> Carries(s, r.host, r.service, r.proto) && r.ttl > 2250
  {
    hide EqNoCase;
  }

  lemma ChosenIff(sv: Server, p: Parsed, q: Question, s: Service)
    ensures Chosen(sv, p, q, s) <==> AnsweredFor(sv, p, q, s)
  {
    hide Find, FirstFit, AnswersPtr, IsKnown, StillKnown, EqNoCase;
    FoundIff(sv, q.host, q.service, q.proto, s);
    AsksIs(sv, s, q);
    if AsksFor(sv, s, q) {
      KnownIs(sv, s, p.records);
    }
  }

  /** A response is shared, and waits, when it holds a pointer or answers no probe. */
  predicate IsShared(p: Parsed, q: Question) {
    q.kind == 12 || q.kind == 50 || !p.probe
  }

  /** Every record said of a service is said because a question is answered for it, and in the section that question
   * wants it in; and all such records are said. */
  lemma ServiceToldIff(sv: Server, p: Parsed, s: Service)
    requires Apart(sv) && s in sv.services
    ensures var r := ReplyTo(sv, p);
            forall key: Key :: key.service == Some(s.id) ==>
              && (key in Keys(r.answers) <==>
                    exists q :: q in p.questions && AnsweredFor(sv, p, q, s) && IsAnswer(sv, s, q, IsShared(p, q), key))
              && (key in Keys(r.additional) <==>
                    exists q ::
                      q in p.questions && AnsweredFor(sv, p, q, s) && IsAdditional(sv, s, q, IsShared(p, q), key))
  {
    hide ReplyTo, Chosen, AnsweredFor, HostOf, Keys, IsAnswer, IsAdditional;
    ServiceRecords(sv, p, s);
    forall q
      ensures Chosen(sv, p, q, s) <==> AnsweredFor(sv, p, q, s)
      ensures SharedFor(p, q) == IsShared(p, q)
    {
      ChosenIff(sv, p, q, s);
    }
  }

  // ---------- Known answers ----------

  /** A question that discovers the service: of type PTR, or of any type and for no instance. */
  predicate DiscoversIt(sv: Server, s: Service, q: Question) {
    (q.kind == 12 || (q.kind == 255 && (q.host.None? || q.host.value == []))) && AsksFor(sv, s, q)
  }

  /** A service is pointed to exactly when a question discovers it and no known answer that carries its name has more
   * than 2250 seconds left. */
  lemma PointedToIff(sv: Server, p: Parsed, s: Service)
    requires Apart(sv) && s in sv.services
    ensures Key(12, Some(s.id), None) in Keys(ReplyTo(sv, p).answers) <==>
              && (exists q :: q in p.questions && DiscoversIt(sv, s, q))
              && (forall r :: r in p.records && Carries(s, r.host, r.service, r.proto) ==> r.ttl <= 2250)
  {
    hide ReplyTo, HostOf, Keys, AsksFor, Carries, StillKnown, IsKnown, AnswersPtr;
    PointerIff(sv, p, s);
    forall q
      ensures DiscoversIt(sv, s, q) <==> Discovers(q) && ForServices(q) && AnswersPtr(sv, s, q)
    {
      DiscoversIs(sv, s, q);
    }
    if s.host.Some? {
      KnownIs(sv, s, p.records);
      assert StillKnown(s, p.records) <==>
             !forall r :: r in p.records && Carries(s, r.host, r.service, r.proto) ==> r.ttl <= 2250 by {
        NoneKnown(s, p.records);
      }
    } else {
      forall q
        ensures !DiscoversIt(sv, s, q)
      {
        NoHostNoAnswer(sv, s, q);
      }
    }
  }

  lemma NoneKnown(s: Service, records: seq<Known>)
    ensures StillKnown(s, records) <==>
            !forall r :: r in records && Carries(s, r.host, r.service, r.proto) ==> r.ttl <= 2250
  {
    hide Carries;
  }

  lemma NoHostNoAnswer(sv: Server, s: Service, q: Question)
    requires s.host.None?
    ensures !DiscoversIt(sv, s, q)
  {}

  lemma DiscoversIs(sv: Server, s: Service, q: Question)
    ensures DiscoversIt(sv, s, q) <==> Discovers(q) && ForServices(q) && AnswersPtr(sv, s, q)
  {
    hide EqNoCase;
    AsksIs(sv, s, q);
  }

  /** A pointer in the query, for the local domain and no subtype, that carries the name of the service. */
  predicate PointsTo(s: Service, x: KnownRecord) {
    && x.Pointer? && !x.name.sub && EqNoCase(x.name.domain, LOCAL)
    && Carries(s, NonEmpty(x.name.host), NonEmpty(x.name.service), NonEmpty(x.name.proto))
  }

  function NonEmpty(name: CString): Option<CString> {
    if name == [] then None else Some(name)
  }

  /** Such a pointer is noted, and what is noted is such a pointer. */
  lemma NotedIff(sv: Server, s: Service, x: KnownRecord)
    requires s in sv.services && s.host.Some?
    ensures (exists r :: IsNoted(sv, x, r) && KnownBy(sv, s, r)) <==> x.Pointer? && PointsTo(s, x) && x.ttl > 2250
    ensures PointsTo(s, x) ==> x.Pointer?
  {
    hide IsOurs, Find, Carries, KnownBy;
    if x.Pointer? {
      var r := Known(Kept(x.name.host), Kept(x.name.service), Kept(x.name.proto), x.ttl);
      OneKnown(sv, s, r);
      if PointsTo(s, x) {
        CarriedIsOurs(sv, s, x.name);
        assert IsNoted(sv, x, r) && (KnownBy(sv, s, r) <==> x.ttl > 2250);
      }
      if r' :| IsNoted(sv, x, r') && KnownBy(sv, s, r') {
        assert r' == r;
        OursIsLocal(sv, x.name);
      }
    }
  }

  lemma OursIsLocal(sv: Server, name: Name)
    requires IsOurs(sv, name)
    ensures EqNoCase(name.domain, LOCAL)
  {}

  lemma CarriedIsOurs(sv: Server, s: Service, name: Name)
    requires s in sv.services && s.host.Some? && !name.sub && EqNoCase(name.domain, LOCAL)
    requires Carries(s, NonEmpty(name.host), NonEmpty(name.service), NonEmpty(name.proto))
    ensures IsOurs(sv, name) && Find(sv, Kept(name.host), Kept(name.service), Kept(name.proto)).Some?
  {
    hide EqNoCase, FirstFit, Find;
    var host, service, proto := Kept(name.host), Kept(name.service), Kept(name.proto);
    assert FitsName(sv, s, host, service, proto);
    FoundIff(sv, host, service, proto, s);
    var t := Find(sv, host, service, proto).value;
    assert Fits(sv, t, host, service, proto) by {
      FindFits(sv, host, service, proto);
    }
    if name.host != [] {
      NotEmpty(name.host, InstanceName(sv, t), t, sv);
    }
  }

  lemma FindFits(sv: Server, host: Option<CString>, service: Option<CString>, proto: Option<CString>)
    requires Find(sv, host, service, proto).Some?
    ensures Fits(sv, Find(sv, host, service, proto).value, host, service, proto)
  {}

  lemma NotEmpty(name: CString, full: CString, t: Service, sv: Server)
    requires name != [] && full == InstanceName(sv, t)
    requires EqNoCase(if t.instance.Some? then t.instance.value else DefaultName(sv), name)
    ensures EqNoCase(name, full)
  {}

  lemma NonePoints(sv: Server, xs: seq<KnownRecord>, s: Service)
    requires s in sv.services && s.host.Some?
    ensures (forall x, r :: x in xs && IsNoted(sv, x, r) ==> !KnownBy(sv, s, r)) <==>
            forall x :: x in xs && PointsTo(s, x) ==> x.ttl <= 2250
  {
    hide IsNoted, KnownBy, Carries;
    if x, r :| x in xs && IsNoted(sv, x, r) && KnownBy(sv, s, r) {
      NotedIff(sv, s, x);
    }
    if x :| x in xs && PointsTo(s, x) && x.ttl > 2250 {
      NotedIff(sv, s, x);
      var r :| IsNoted(sv, x, r) && KnownBy(sv, s, r);
    }
  }

  /** The same from the records of the query, whatever its questions: a service is pointed to exactly when a
   * question that discovers it is left and no pointer that carries its name, noted before or in this query, has
   * more than 2250 seconds left. */
  lemma PointedToWhenLeft(sv: Server, p: Parsed, xs: seq<KnownRecord>, s: Service)
    requires Apart(sv) && s in sv.services
    ensures Key(12, Some(s.id), None) in Keys(ReplyTo(sv, AllNoted(sv, p, xs)).answers) <==>
              && (exists q :: q in AllNoted(sv, p, xs).questions && DiscoversIt(sv, s, q))
              && (forall r :: r in p.records && Carries(s, r.host, r.service, r.proto) ==> r.ttl <= 2250)
              && (forall x :: x in xs && PointsTo(s, x) ==> x.ttl <= 2250)
  {
    hide ReplyTo, Keys, AllNoted, IsNoted, AsksFor, KnownBy, Carries, StillKnown, PointsTo, IsKnown;
    var t := AllNoted(sv, p, xs);
    PointedToIff(sv, t, s);
    if s.host.Some? {
      AllNotedRecords(sv, p, xs);
      NonePoints(sv, xs, s);
      KnownIs(sv, s, p.records);
      NoneKnown(s, p.records);
      KnownIs(sv, s, t.records);
      NoneKnown(s, t.records);
      KnownBefore(sv, s, p.records, t.records, xs);
    } else {
      forall q
        ensures !DiscoversIt(sv, s, q)
      {
        NoHostNoAnswer(sv, s, q);
      }
    }
  }

  lemma KnownBefore(sv: Server, s: Service, before: seq<Known>, records: seq<Known>, xs: seq<KnownRecord>)
    requires forall r :: r in records <==> r in before || exists x :: x in xs && IsNoted(sv, x, r)
    ensures IsKnown(sv, s, records) <==>
            IsKnown(sv, s, before) || !forall x, r :: x in xs && IsNoted(sv, x, r) ==> !KnownBy(sv, s, r)
  {
    hide KnownBy, IsNoted;
  }

  /** When any two of the questions are answered by the same records or by none in common, the questions left are
   * those of the query that stand, among the questions like them, behind as many as there are records that answer
   * them. */
  lemma PointedToAfter(sv: Server, p: Parsed, xs: seq<KnownRecord>, s: Service)
    requires Apart(sv) && s in sv.services && Grouped(sv, p.questions)
    ensures Key(12, Some(s.id), None) in Keys(ReplyTo(sv, AllNoted(sv, p, xs)).answers) <==>
              && (exists q :: q in p.questions && DiscoversIt(sv, s, q) && Survives(sv, p, xs, q))
              && (forall r :: r in p.records && Carries(s, r.host, r.service, r.proto) ==> r.ttl <= 2250)
              && (forall x :: x in xs && PointsTo(s, x) ==> x.ttl <= 2250)
  {
    hide ReplyTo, Keys, AllNoted, DiscoversIt, Survives, Alike, Unlike, Carries, PointsTo;
    PointedToWhenLeft(sv, p, xs, s);
    OnlyOld(sv, p, xs);
    forall q | q in p.questions
      ensures q in AllNoted(sv, p, xs).questions <==> Survives(sv, p, xs, q)
    {
      SurvivesIff(sv, p, xs, q);
    }
  }

  // ---------- Which names are ours ----------

  /** The name of this device or of a host it answers for, or of services it has: of a type, of one of their subtypes,
   * or of an instance. */
  predicate OurName(sv: Server, name: Name) {
    && EqNoCase(name.domain, LOCAL)
    && if name.service == [] && name.proto == [] then
         && name.host != []
         && (EqNoCase(name.host, sv.hostname) || exists h :: h in sv.hosts && EqNoCase(name.host, h.name))
       else
         && name.service != [] && name.proto != []
         && exists s :: s in sv.services &&
              if name.sub then
                && s.host.Some? && OfType(s, Some(name.service), Some(name.proto))
                && exists i :: 0 <= i < |s.subtypes| && EqNoCase(s.subtypes[i], name.host)
              else FitsName(sv, s, NonEmpty(name.host), Some(name.service), Some(name.proto))
  }

  lemma OursIff(sv: Server, name: Name)
    ensures IsOurs(sv, name) <==> OurName(sv, name)
  {
    hide EqNoCase, Find, FirstFit, FitsName;
    if name.service == [] && name.proto == [] {
      HostsAre(sv, name.host);
    } else if name.service != [] && name.proto != [] {
      if name.sub {
        forall s
          ensures TypeMatch(s, Some(name.service), Some(name.proto)) && HasSubtype(s, name.host) <==>
                  && s.host.Some? && OfType(s, Some(name.service), Some(name.proto))
                  && exists i :: 0 <= i < |s.subtypes| && EqNoCase(s.subtypes[i], name.host)
        {}
      } else {
        InstanceIsOurs(sv, name);
      }
    }
  }

  lemma HostsAre(sv: Server, host: CString)
    ensures HostIsOurs(sv, host) <==>
            EqNoCase(host, sv.hostname) || exists h :: h in sv.hosts && EqNoCase(host, h.name)
  {
    hide EqNoCase;
  }

  lemma InstanceIsOurs(sv: Server, name: Name)
    requires name.service != [] && name.proto != [] && !name.sub
    ensures var found := Find(sv, Kept(name.host), Some(name.service), Some(name.proto));
            found.Some? && (name.host == [] || EqNoCase(name.host, InstanceName(sv, found.value))) <==>
            exists s :: s in sv.services && FitsName(sv, s, NonEmpty(name.host), Some(name.service), Some(name.proto))
  {
    hide EqNoCase, Find, FitsName;
    var host, service, proto := Kept(name.host), Some(name.service), Some(name.proto);
    var found := Find(sv, host, service, proto);
    if found.Some? {
      var t := found.value;
      FoundIff(sv, host, service, proto, t);
      if name.host != [] {
        assert EqNoCase(if t.instance.Some? then t.instance.value else DefaultName(sv), name.host) by {
          FitHasName(sv, t, name.host, service, proto);
        }
        NotEmpty(name.host, InstanceName(sv, t), t, sv);
      }
    } else if sv.services != [] {
      FoundIff(sv, host, service, proto, sv.services[0]);
    }
  }

  lemma FitHasName(sv: Server, t: Service, host: CString, service: Option<CString>, proto: Option<CString>)
    requires FitsName(sv, t, Some(host), service, proto)
    ensures EqNoCase(if t.instance.Some? then t.instance.value else DefaultName(sv), host)
  {}

  // ---------- Which questions are kept ----------

  /** "_services._dns-sd._udp.local", asked for by a PTR question. */
  predicate AsksForTypes(name: Name, kind: nat) {
    && kind == 12
    && EqNoCase(name.host, [95, 115, 101, 114, 118, 105, 99, 101, 115])
    && EqNoCase(name.service, [95, 100, 110, 115, 45, 115, 100])
    && EqNoCase(name.proto, [95, 117, 100, 112])
    && EqNoCase(name.domain, [108, 111, 99, 97, 108])
  }

  lemma {:induction false} TypesAskedFor(services: seq<Service>, unicast: bool)
    ensures var qs := DiscoveryQuestions(services, unicast);
            |qs| == |services| && forall i :: 0 <= i < |services| ==>
              var s := services[|services| - 1 - i];
              qs[i] == Question(50, unicast, None, Some(s.service), Some(s.proto), false)
    decreases |services|
  {
    if services != [] {
      TypesAskedFor(services[1..], unicast);
    }
  }

  /** A question for the list of services becomes one for the type of every service; one for a name that is ours is
   * kept as it is, in front of those before; any other leaves the query as it was. */
  lemma HeardTells(sv: Server, p: Parsed, name: Name, kind: nat, unicast: bool)
    ensures var r := Heard(sv, p, name, kind, unicast); var n := |sv.services|;
            if AsksForTypes(name, kind) then
              && r == p.(discovery := true, questions := r.questions)
              && |r.questions| == n + |p.questions| && r.questions[n..] == p.questions
              && forall i :: 0 <= i < n ==>
                   var s := sv.services[n - 1 - i];
                   r.questions[i] == Question(50, unicast, None, Some(s.service), Some(s.proto), false)
            else if !OurName(sv, name) then r == p
            else
              r == p.(probe := p.probe || (kind == 255 && name.host != []),
                questions := [Question(kind, unicast, NonEmpty(name.host), NonEmpty(name.service),
                  NonEmpty(name.proto), name.sub)] + p.questions)
  {
    hide EqNoCase, IsOurs, OurName;
    OursIff(sv, name);
    TypesAskedFor(sv.services, unicast);
  }

  // ---------- Which questions a known record drops ----------

  /** The record answers the question: a pointer to the first service that fits, whose type is asked for; an address
   * record any question for addresses of its kind; SRV and TXT records, by the first service of their type, a question
   * for that instance. */
  ghost predicate AnswersIt(sv: Server, x: KnownRecord, q: Question) {
    match x
    case Pointer(discovery, name, _) =>
      && q.kind == (if discovery then 50 else 12)
      && exists t :: FirstFit(sv, NonEmpty(name.host), NonEmpty(name.service), NonEmpty(name.proto), t)
           && OfType(t, q.service, q.proto) && (t.instance.None? || SameWords(t.instance.value, q.host))
    case Data(owner, kind) =>
      && q.kind == kind
      && (kind == 1 || kind == 28
          || ((kind == 16 || kind == 33)
              && exists t :: FirstFit(sv, None, NonEmpty(owner.service), NonEmpty(owner.proto), t)
                   && SameWords(FullName(sv, t), q.host) && OfType(t, q.service, q.proto)))
  }

  /** Such a record for a name that is ours drops the question, unless it is a probe that is answered: then only
   * pointers of the list of services do. */
  lemma DropsIff(sv: Server, probe: bool, x: KnownRecord, q: Question)
    requires x.Data? ==> x.kind in [1, 16, 28, 33]
    ensures Drops(sv, probe, x, q) <==>
            && !NameOf(x).sub && OurName(sv, NameOf(x)) && (probe ==> x.Pointer? && x.discovery)
            && AnswersIt(sv, x, q)
  {
    hide EqNoCase, IsOurs, OurName, Find, FirstFit;
    OursIff(sv, NameOf(x));
    var t := SubjectOf(sv, x);
    match x
    case Pointer(_, name, _) =>
      forall s
        ensures t == Some(s) <==> FirstFit(sv, NonEmpty(name.host), NonEmpty(name.service), NonEmpty(name.proto), s)
      {
        FoundIff(sv, NonEmpty(name.host), NonEmpty(name.service), NonEmpty(name.proto), s);
      }
    case Data(owner, kind) =>
      forall s
        ensures Find(sv, None, NonEmpty(owner.service), NonEmpty(owner.proto)) == Some(s)
                <==> FirstFit(sv, None, NonEmpty(owner.service), NonEmpty(owner.proto), s)
      {
        FoundIff(sv, None, NonEmpty(owner.service), NonEmpty(owner.proto), s);
      }
  }

  // ---------- The flush bit ----------

  /** A record that only this host can have carries the bit, to an asker that uses the mDNS port; a pointer to a
   * service, which other hosts have too, never does. */
  predicate FlushRight(p: Parsed, a: Answers.Answer) {
    a.flush == (p.service && !(a.key.service.Some? && (a.key.kind == 12 || a.key.kind == 50)))
  }

  /** Records are added behind those before, with the right bit. */
  ghost predicate Adds(p: Parsed, before: seq<Answers.Answer>, after: seq<Answers.Answer>) {
    before <= after && forall a :: a in after ==> a in before || FlushRight(p, a)
  }

  lemma AddsTwice(p: Parsed, a: seq<Answers.Answer>, b: seq<Answers.Answer>, c: seq<Answers.Answer>)
    requires Adds(p, a, b) && Adds(p, b, c)
    ensures Adds(p, a, c)
  {}

  lemma CreateAdds(p: Parsed, answers: seq<Answers.Answer>, kind: nat, service: Option<nat>, host: Option<nat>,
                   flush: bool)
    requires FlushRight(p, Answers.Answer(Key(kind, service, host), flush))
    ensures Adds(p, answers, Create(answers, kind, service, host, flush))
  {}

  lemma AddressesAdd(p: Parsed, answers: seq<Answers.Answer>, service: Option<nat>, host: Option<nat>)
    ensures Adds(p, answers, Addresses(answers, service, host, p.service))
  {
    hide Create, Adds;
    CreateAdds(p, answers, T_A, service, host, p.service);
    CreateAdds(p, Create(answers, T_A, service, host, p.service), T_AAAA, service, host, p.service);
    AddsTwice(p, answers, Create(answers, T_A, service, host, p.service),
              Addresses(answers, service, host, p.service));
  }

  lemma AddsSame(p: Parsed, answers: seq<Answers.Answer>)
    ensures Adds(p, answers, answers)
  {}

  lemma TwoAdd(p: Parsed, answers: seq<Answers.Answer>, id: nat)
    ensures Adds(p, answers, Create(Create(answers, T_SRV, Some(id), None, p.service), T_TXT, Some(id), None,
            p.service))
  {
    hide Create, Adds;
    var one := Create(answers, T_SRV, Some(id), None, p.service);
    CreateAdds(p, answers, T_SRV, Some(id), None, p.service);
    CreateAdds(p, one, T_TXT, Some(id), None, p.service);
    AddsTwice(p, answers, one, Create(one, T_TXT, Some(id), None, p.service));
  }

  lemma ServiceAdds(sv: Server, p: Parsed, r: Reply, s: Service, q: Question, shared: bool)
    ensures var t := FromService(sv, r, s, q, shared, p.service);
            Adds(p, r.answers, t.answers) && Adds(p, r.additional, t.additional)
  {
    hide Create, Addresses, Adds, HostOf, FlushRight;
    var id := s.id;
    var h := IdOf(HostOf(sv, s.host));
    AddsSame(p, r.answers);
    AddsSame(p, r.additional);
    TwoAdd(p, r.answers, id);
    TwoAdd(p, r.additional, id);
    var more := Create(Create(r.additional, T_SRV, Some(id), None, p.service), T_TXT, Some(id), None, p.service);
    AddressesAdd(p, more, Some(id), h);
    AddsTwice(p, r.additional, more, Addresses(more, Some(id), h, p.service));
    AddressesAdd(p, r.additional, Some(id), h);
    OneAdds(p, r.answers, id);
    var pointed := Create(r.answers, T_PTR, Some(id), None, false);
    AddressesAdd(p, pointed, Some(id), h);
    AddsTwice(p, r.answers, pointed, Addresses(pointed, Some(id), h, p.service));
  }

  lemma OneAdds(p: Parsed, answers: seq<Answers.Answer>, id: nat)
    ensures Adds(p, answers, Create(answers, T_SRV, Some(id), None, p.service))
    ensures Adds(p, answers, Create(answers, T_TXT, Some(id), None, p.service))
    ensures Adds(p, answers, Create(answers, T_PTR, Some(id), None, false))
    ensures Adds(p, answers, Create(answers, T_SDPTR, Some(id), None, false))
  {
    hide Create, Adds;
    CreateAdds(p, answers, T_SRV, Some(id), None, p.service);
    CreateAdds(p, answers, T_TXT, Some(id), None, p.service);
    CreateAdds(p, answers, T_PTR, Some(id), None, false);
    CreateAdds(p, answers, T_SDPTR, Some(id), None, false);
  }

  lemma {:induction false} ServicesAdd(sv: Server, p: Parsed, r: Reply, services: seq<Service>, q: Question,
                                       shared: bool)
    ensures var t := FromServices(sv, p, r, services, q, shared);
            Adds(p, r.answers, t.answers) && Adds(p, r.additional, t.additional)
    decreases |services|
  {
    hide FromService, Adds, AnswersPtr, IsKnown;
    AddsSame(p, r.answers);
    AddsSame(p, r.additional);
    if services != [] {
      var s := services[0];
      var r' := if AnswersPtr(sv, s, q) && !IsKnown(sv, s, p.records)
                then FromService(sv, r.(count := r.count + 1), s, q, shared, p.service) else r;
      ServiceAdds(sv, p, r.(count := r.count + 1), s, q, shared);
      ServicesAdd(sv, p, r', services[1..], q, shared);
      var t := FromServices(sv, p, r', services[1..], q, shared);
      AddsTwice(p, r.answers, r'.answers, t.answers);
      AddsTwice(p, r.additional, r'.additional, t.additional);
    }
  }

  lemma {:induction false} BehindAdds(p: Parsed, answers: seq<Answers.Answer>, hosts: seq<Host>)
    ensures Adds(p, answers, Behind(answers, hosts, p.service))
    decreases |hosts|
  {
    hide Addresses, Adds;
    AddsSame(p, answers);
    if hosts != [] {
      var next := hosts[1..];
      var h := if next == [] then None else Some(next[0].id);
      AddressesAdd(p, answers, None, h);
      BehindAdds(p, Addresses(answers, None, h, p.service), next);
      AddsTwice(p, answers, Addresses(answers, None, h, p.service), Behind(answers, hosts, p.service));
    }
  }

  lemma QuestionAdds(sv: Server, p: Parsed, r: Reply, q: Question)
    ensures var t := Answer1(sv, p, r, q); Adds(p, r.answers, t.answers) && Adds(p, r.additional, t.additional)
  {
    hide FromService, FromServices, Adds, Find, Addresses, Behind, Create, HostOf, FlushRight;
    AddsSame(p, r.answers);
    AddsSame(p, r.additional);
    var shared := SharedFor(p, q);
    var r1 := r.(shared := shared);
    if ForInstance(q) {
      var f := Find(sv, q.host, q.service, q.proto);
      if f.Some? {
        ServiceAdds(sv, p, r1.(count := r.count + 1), f.value, q, shared);
      }
    } else if ForServices(q) {
      ServicesAdd(sv, p, r1, sv.services, q, shared);
    } else if q.kind == T_A || q.kind == T_AAAA {
      AddressesAdd(p, r.answers, None, IdOf(HostOf(sv, q.host)));
    } else if q.kind == T_ANY {
      var own := Addresses(r.answers, None, Some(sv.me.id), p.service);
      AddressesAdd(p, r.answers, None, Some(sv.me.id));
      BehindAdds(p, own, sv.hosts);
      AddsTwice(p, r.answers, own, Behind(own, sv.hosts, p.service));
    } else {
      UnservedAdds(p, r.answers, q.kind);
    }
  }

  lemma UnservedAdds(p: Parsed, answers: seq<Answers.Answer>, kind: nat)
    ensures Adds(p, answers, Create(answers, kind, None, None, p.service))
  {
    CreateAdds(p, answers, kind, None, None, p.service);
  }

  /** The answers to one question stand behind those to the questions before it, in both sections, and every record of
   * a response has the bit right. */
  lemma {:induction false} AnswersInOrder(sv: Server, p: Parsed, r: Reply, questions: seq<Question>)
    ensures var t := AnswerAll(sv, p, r, questions);
            Adds(p, r.answers, t.answers) && Adds(p, r.additional, t.additional)
    decreases |questions|
  {
    hide Answer1, Adds;
    AddsSame(p, r.answers);
    AddsSame(p, r.additional);
    if questions != [] {
      var r' := Answer1(sv, p, r, questions[0]);
      QuestionAdds(sv, p, r, questions[0]);
      AnswersInOrder(sv, p, r', questions[1..]);
      var t := AnswerAll(sv, p, r', questions[1..]);
      AddsTwice(p, r.answers, r'.answers, t.answers);
      AddsTwice(p, r.additional, r'.additional, t.additional);
    }
  }

  lemma EveryBitIsRight(sv: Server, p: Parsed)
    ensures var r := ReplyTo(sv, p); forall a :: a in r.answers + r.additional ==> FlushRight(p, a)
  {
    hide AnswerAll, FlushRight;
    AnswersInOrder(sv, p, NO_REPLY, p.questions);
  }

  // ---------- To whom it goes ----------

  /** The question is heard: there is a service it can be for, if it is for the data of one. */
  ghost predicate IsHeard(sv: Server, q: Question) {
    q.kind == 33 || q.kind == 16 ==>
      exists s :: s in sv.services && FitsName(sv, s, q.host, q.service, q.proto)
  }

  /** The questions said again to an asker that uses another port. */
  function SaidAgain(questions: seq<Question>): seq<Question> {
    if questions == [] then [] else IfSaid(questions[0]) + SaidAgain(questions[1..])
  }

  function IfSaid(q: Question): seq<Question> {
    if q.kind == 1 || q.kind == 28 || q.kind == 255 then [q] else []
  }

  lemma OneReplied(sv: Server, p: Parsed, r: Reply, q: Question)
    ensures var t := Answer1(sv, p, r, q);
            && t.unicast == (r.unicast || (q.unicast && IsHeard(sv, q)))
            && t.repeated == r.repeated + if p.service then [] else IfSaid(q)
  {
    hide FromService, FromServices, Find, Addresses, AllHosts, Create, HostOf, FitsName;
    assert r.repeated + [] == r.repeated;
    if ForInstance(q) {
      var f := Find(sv, q.host, q.service, q.proto);
      if f.Some? {
        FoundIff(sv, q.host, q.service, q.proto, f.value);
        var r1 := r.(shared := SharedFor(p, q), count := r.count + 1);
        ServiceLeaves(sv, r1, f.value, q, SharedFor(p, q), p.service);
      } else if sv.services != [] {
        FoundIff(sv, q.host, q.service, q.proto, sv.services[0]);
      }
    } else if ForServices(q) {
      ServicesLeave(sv, p, r.(shared := SharedFor(p, q)), sv.services, q, SharedFor(p, q));
    }
  }

  lemma ServiceLeaves(sv: Server, r: Reply, s: Service, q: Question, shared: bool, flush: bool)
    ensures var t := FromService(sv, r, s, q, shared, flush); t.unicast == r.unicast && t.repeated == r.repeated
  {
    hide Create, Addresses, HostOf;
  }

  lemma {:induction false} ServicesLeave(sv: Server, p: Parsed, r: Reply, services: seq<Service>, q: Question,
                                         shared: bool)
    ensures var t := FromServices(sv, p, r, services, q, shared); t.unicast == r.unicast && t.repeated == r.repeated
    decreases |services|
  {
    hide FromService, AnswersPtr, IsKnown;
    if services != [] {
      var r1 := r.(count := r.count + 1);
      ServiceLeaves(sv, r1, services[0], q, shared, p.service);
      ServicesLeave(sv, p, r, services[1..], q, shared);
      ServicesLeave(sv, p, FromService(sv, r1, services[0], q, shared, p.service), services[1..], q, shared);
    }
  }

  lemma {:induction false} AllReplied(sv: Server, p: Parsed, r: Reply, questions: seq<Question>)
    ensures var t := AnswerAll(sv, p, r, questions);
            && (t.unicast <==> r.unicast || exists q :: q in questions && q.unicast && IsHeard(sv, q))
            && t.repeated == r.repeated + if p.service then [] else SaidAgain(questions)
    decreases |questions|
  {
    hide Answer1, IsHeard, SaidAgain, IfSaid;
    if questions == [] {
      SaidNothing(r.repeated);
    } else {
      var q, rest := questions[0], questions[1..];
      assert forall x :: x in questions <==> x == q || x in rest;
      OneReplied(sv, p, r, q);
      AllReplied(sv, p, Answer1(sv, p, r, q), rest);
      SaidInOrder(r.repeated, questions);
    }
  }

  lemma SaidNothing(before: seq<Question>)
    ensures before + SaidAgain([]) == before && before + [] == before
  {}

  lemma SaidInOrder(before: seq<Question>, questions: seq<Question>)
    requires questions != []
    ensures before + IfSaid(questions[0]) + SaidAgain(questions[1..]) == before + SaidAgain(questions)
    ensures before + [] + [] == before + []
  {
    hide IfSaid;
    var first, rest := IfSaid(questions[0]), SaidAgain(questions[1..]);
    assert before + first + rest == before + (first + rest);
    assert before + [] == before;
  }

  /** A response goes to the asker alone exactly when the asker uses another port, or a question that was heard wants
   * it so; to another port the questions for hosts and for anything are said again, in their order (section 6.7 of
   * RFC 6762). */
  lemma WhereItGoes(sv: Server, p: Parsed, step: nat)
    ensures var outcome := Respond(sv, p, step).0;
            !outcome.Silent? ==>
              && (outcome.direct <==> !p.service || exists q :: q in p.questions && q.unicast && IsHeard(sv, q))
              && outcome.reply.repeated == if p.service then [] else SaidAgain(p.questions)
  {
    hide AnswerAll, IsHeard;
    AllReplied(sv, p, NO_REPLY, p.questions);
    assert [] + SaidAgain(p.questions) == SaidAgain(p.questions);
  }
}
