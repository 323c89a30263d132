/** How the reader sorts the labels of a name into instance or host, service, protocol and domain
 * (mdns_utils.c:26-120): a subtype, a host name of several labels, a name of another domain, and a name with too many
 * labels. */
module NameShapes {
  import opened Bytes
  import opened NameReader
  import opened NameRoundTrip
  import opened NameWriter

  /** "_sub", in any case. */
  predicate IsSub(text: CString) {
    EqNoCase(text, [95, 115, 117, 98])
  }

  /** The labels that never belong to a host name: service types, "local", "arpa", "ip6" and "in-addr". */
  predicate EndsHost(text: CString) {
    || (text != [] && text[0] == 95)
    || EqNoCase(text, [108, 111, 99, 97, 108]) || EqNoCase(text, [97, 114, 112, 97])
    || EqNoCase(text, [105, 112, 54]) || EqNoCase(text, [105, 110, 45, 97, 100, 100, 114])
  }

  predicate KnownDomain(text: CString) {
    EqNoCase(text, [108, 111, 99, 97, 108]) || EqNoCase(text, [97, 114, 112, 97])
  }

  function Parsed(labels: seq<LabelText>): NameState {
    Arrange(Fold(EMPTY_NAME, AsItems(labels)))
  }

  lemma ContinuesIff(parts: nat, text: CString)
    ensures ContinuesHost(parts, text) <==> parts == 1 && !EndsHost(text)
  {
    hide EqNoCase;
  }

  lemma SubIs(text: CString)
    ensures EqNoCase(text, SUB) == IsSub(text)
  {}

  lemma SubEndsHost(text: CString)
    requires IsSub(text)
    ensures EndsHost(text)
  {
    if text != [] {
      assert Lower(text[0]) == Lower([95, 115, 117, 98][0]);
    }
  }

  /** One label: dropped, joined to the host, or stored as the next part. */
  lemma TakesOne(st: NameState, text: LabelText)
    requires st.Valid() && st.parts < 4 && !st.invalid
    ensures IsSub(text) ==> Absorb(st, Label(text)) == st.(sub := true)
    ensures st.parts == 1 && !EndsHost(text) ==> Absorb(st, Label(text)) == st.(host := JoinHost(st.host, text))
    ensures !IsSub(text) && (st.parts == 1 ==> EndsHost(text)) ==> Absorb(st, Label(text)) == st.Store(st.parts, text)
  {
    hide EqNoCase, EndsHost, ContinuesHost, JoinHost;
    ContinuesIff(st.parts, text);
    SubIs(text);
    if IsSub(text) {
      SubEndsHost(text);
    }
  }

  lemma FoldOne(st: NameState, labels: seq<LabelText>)
    requires st.Valid() && labels != []
    ensures Fold(st, AsItems(labels)) == Fold(Absorb(st, Label(labels[0])), AsItems(labels[1..]))
  {
    hide Absorb;
    FoldLabel(st, labels);
  }

  lemma FoldNone(st: NameState)
    requires st.Valid()
    ensures Fold(st, AsItems([])) == st
  {}

  /** A subtype of a service: "_sub" is taken out and leaves a mark. */
  lemma SubtypeShape(a: LabelText, sub: LabelText, service: LabelText, proto: LabelText, domain: LabelText)
    requires !IsSub(a) && IsSub(sub) && service != [] && service[0] == 95 && !IsSub(service) && !IsSub(proto)
    requires KnownDomain(domain)
    ensures Parsed([a, sub, service, proto, domain]) == NameState(a, service, proto, domain, 4, true, false)
  {
    hide Fold, Absorb, EqNoCase, IsSub;
    SubEndsHost(sub);
    DomainIsNoSub(domain);
    var s1 := NameState(a, [], [], [], 1, false, false);
    var s2 := s1.(sub := true);
    var s3 := NameState(a, service, [], [], 2, true, false);
    var s4 := NameState(a, service, proto, [], 3, true, false);
    TakesOne(EMPTY_NAME, a);
    TakesOne(s1, sub);
    TakesOne(s2, service);
    TakesOne(s3, proto);
    TakesOne(s4, domain);
    Taken([EMPTY_NAME, s1, s2, s3, s4, NameState(a, service, proto, domain, 4, true, false)],
          [a, sub, service, proto, domain]);
  }

  lemma DomainIsNoSub(text: CString)
    requires KnownDomain(text)
    ensures !IsSub(text)
  {
    if |text| == 4 {
      assert Lower(text[0]) == 97;
    }
  }

  /** Labels taken one by one. */
  lemma {:induction false} Taken(states: seq<NameState>, labels: seq<LabelText>)
    requires |states| == |labels| + 1 && forall i :: 0 <= i < |states| ==> states[i].Valid()
    requires forall i :: 0 <= i < |labels| ==> Absorb(states[i], Label(labels[i])) == states[i + 1]
    ensures Fold(states[0], AsItems(labels)) == states[|labels|]
    decreases |labels|
  {
    hide Absorb, Fold;
    if labels == [] {
      FoldNone(states[0]);
    } else {
      FoldOne(states[0], labels);
      Taken(states[1..], labels[1..]);
    }
  }

  /** A host name of two labels: they are joined by a dot, as far as 64 bytes go. */
  lemma DottedHost(a: LabelText, b: LabelText, domain: LabelText)
    requires !IsSub(a) && !EndsHost(b) && KnownDomain(domain)
    ensures var joined := a + [46] + b;
            Parsed([a, b, domain]) ==
              NameState(if |joined| <= 64 then joined else joined[..64], [], [], domain, 2, false, false)
  {
    hide Fold, Absorb, EqNoCase, IsSub;
    DomainIsNoSub(domain);
    var s1 := NameState(a, [], [], [], 1, false, false);
    var s2 := s1.(host := JoinHost(a, b));
    var s3 := s2.(service := domain, parts := 2);
    TakesOne(EMPTY_NAME, a);
    TakesOne(s1, b);
    TakesOne(s2, domain);
    Taken([EMPTY_NAME, s1, s2, s3], [a, b, domain]);
  }

  /** A name in four parts is valid exactly in the domains "local" and "arpa". */
  lemma DomainDecides(a: LabelText, service: LabelText, proto: LabelText, domain: LabelText)
    requires !IsSub(a) && EndsHost(service) && !IsSub(service) && !IsSub(proto) && !IsSub(domain)
    ensures Parsed([a, service, proto, domain]) ==
            NameState(a, service, proto, domain, 4, false, !KnownDomain(domain))
  {
    hide Fold, Absorb, EqNoCase, IsSub;
    var s1 := NameState(a, [], [], [], 1, false, false);
    var s2 := NameState(a, service, [], [], 2, false, false);
    var s3 := NameState(a, service, proto, [], 3, false, false);
    var s4 := NameState(a, service, proto, domain, 4, false, false);
    TakesOne(EMPTY_NAME, a);
    TakesOne(s1, service);
    TakesOne(s2, proto);
    TakesOne(s3, domain);
    Taken([EMPTY_NAME, s1, s2, s3, s4], [a, service, proto, domain]);
  }

  /** A fifth part makes the name invalid. */
  lemma FifthSpoils(a: LabelText, service: LabelText, proto: LabelText, domain: LabelText, more: LabelText)
    requires !IsSub(a) && EndsHost(service) && !IsSub(service) && !IsSub(proto) && !IsSub(domain) && !IsSub(more)
    ensures Parsed([a, service, proto, domain, more]) == NameState(a, service, proto, domain, 4, false, true)
  {
    hide Fold, Absorb, EqNoCase, IsSub;
    var s1 := NameState(a, [], [], [], 1, false, false);
    var s2 := NameState(a, service, [], [], 2, false, false);
    var s3 := NameState(a, service, proto, [], 3, false, false);
    var s4 := NameState(a, service, proto, domain, 4, false, false);
    TakesOne(EMPTY_NAME, a);
    TakesOne(s1, service);
    TakesOne(s2, proto);
    TakesOne(s3, domain);
    Spoiled(s4, more);
    Taken([EMPTY_NAME, s1, s2, s3, s4, s4.(invalid := true)], [a, service, proto, domain, more]);
  }

  lemma Spoiled(st: NameState, text: LabelText)
    requires st.Valid() && st.parts == 4 && !IsSub(text)
    ensures Absorb(st, Label(text)) == st.(invalid := true)
  {
    hide EqNoCase;
    SubIs(text);
  }

  // ---------- Names that cannot be read ----------

  /** Where no name ends, no label of at most 63 bytes stands whole and no pointer leads back, there is no name: a
   * length byte from 64 to 191, a label that runs past the end, half a pointer, a pointer that does not lead in front
   * of the part it is in, or the seventeenth pointer. */
  lemma NothingThere(p: seq<byte>, seg: nat, pos: nat, depth: nat)
    requires pos < |p| && p[pos] != 0 && !LabelAt(p, pos) && !PointerAt(p, seg, pos, depth)
    ensures Walk(p, seg, pos, depth) == None
  {}

  /** The end of the packet ends a name, as the reader has it, one byte past the end. */
  lemma EndOfPacket(p: seq<byte>, seg: nat, pos: nat, depth: nat)
    requires pos >= |p|
    ensures Walk(p, seg, pos, depth) == Some(Walked(pos + 1, [], false))
  {}

  // ---------- What the writer points to ----------

  /** A candidate: the first label stands there with its length, byte for byte, and the name read from there has as
   * many parts and, up to case, the same host or instance, service, protocol and domain, in the order they were
   * read. */
  predicate CandidateAt(b: seq<byte>, at: nat, strings: seq<CString>)
    requires at < |b| && strings != []
  {
    && 1 <= |strings[0]| <= 63
    && b[at] == |strings[0]| && at + 1 + |strings[0]| <= |b| && b[at + 1..at + 1 + |strings[0]|] == strings[0]
    && match ReadName(b, at)
       case None => false
       case Some((_, st)) =>
         && st.parts == |strings| && EqNoCase(strings[0], st.host)
         && (|strings| >= 2 ==> EqNoCase(strings[1], st.service))
         && (|strings| >= 3 ==> EqNoCase(strings[2], st.proto))
         && (|strings| >= 4 ==> EqNoCase(strings[3], st.domain))
  }

  predicate FirstCandidate(o: Out, at: nat, strings: seq<CString>)
    requires o.Valid() && strings != []
  {
    && at < o.index && CandidateAt(o.bytes, at, strings)
    && forall k :: 0 <= k < at ==> !CandidateAt(o.bytes, k, strings)
  }

  lemma CandidateIff(b: seq<byte>, at: nat, strings: seq<CString>)
    requires at < |b| && strings != [] && 1 <= |strings[0]| <= 63
    ensures Matches(b, at, strings) <==> CandidateAt(b, at, strings)
  {
    hide EqNoCase, ReadName;
    assert strings[0][..|strings[0]|] == strings[0];
    if ReadName(b, at).Some? {
      var st := ReadName(b, at).value.1;
      assert st.Field(0) == st.host && st.Field(1) == st.service && st.Field(2) == st.proto && st.Field(3) == st.domain;
    }
  }

  lemma {:induction false} FirstMatch(b: seq<byte>, from: nat, index: nat, strings: seq<CString>)
    requires index <= |b| && strings != []
    ensures match FindMatch(b, from, index, strings)
            case None => forall k :: from <= k < index ==> !Matches(b, k, strings)
            case Some(at) => from <= at < index && Matches(b, at, strings)
                             && forall k :: from <= k < at ==> !Matches(b, k, strings)
    decreases index - from
  {
    hide Matches;
    if from < index && !Matches(b, from, strings) {
      FirstMatch(b, from + 1, index, strings);
    }
  }

  /** What is left of a name, when it is not empty: if nothing in the packet is a candidate for it, its next label
   * is written, as far as there is room; else two bytes point to the first candidate, whose offset they hold in 14
   * bits. */
  lemma PointsToFirst(o: Out, strings: seq<CString>)
    requires o.Valid() && GoodLabels(strings) && strings != []
    ensures forall at: nat :: FirstCandidate(o, at, strings) ==>
              Fqdn(o, strings) == if o.index + 2 > 1460 then (o, 0) else (o.Put([0xC0 + at / 256, at % 256]), 2)
    ensures (forall k :: 0 <= k < o.index ==> !CandidateAt(o.bytes, k, strings)) ==>
              var n := |strings[0]|;
              Fqdn(o, strings) ==
                if o.index + n + 1 >= 1460 then (o, 0)
                else
                  var next := o.Put([n] + strings[0]);
                  (Fqdn(next, strings[1..]).0, 1 + n + Fqdn(next, strings[1..]).1)
  {
    hide Matches, Fqdn, CandidateAt;
    forall k | 0 <= k < o.index
      ensures Matches(o.bytes, k, strings) <==> CandidateAt(o.bytes, k, strings)
    {
      CandidateIff(o.bytes, k, strings);
    }
    FirstMatch(o.bytes, 0, o.index, strings);
    var found := FindMatch(o.bytes, 0, o.index, strings);
    if found.Some? {
      PointerWritten(o, strings, found.value);
    } else {
      NoRoom(o, strings);
      if o.index + |strings[0]| + 1 < 1460 {
        WritesLabel(o, strings);
      }
    }
  }

  lemma PointerWritten(o: Out, strings: seq<CString>, at: nat)
    requires o.Valid() && strings != [] && FindMatch(o.bytes, 0, o.index, strings) == Some(at)
    ensures at < o.index <= 1460
    ensures Fqdn(o, strings) == if o.index + 2 > 1460 then (o, 0) else (o.Put([0xC0 + at / 256, at % 256]), 2)
  {
    hide Matches;
    assert U16(0xC000 + at) == [0xC0 + at / 256, at % 256];
  }

  lemma NoRoom(o: Out, strings: seq<CString>)
    requires o.Valid() && GoodLabels(strings) && strings != [] && FindMatch(o.bytes, 0, o.index, strings) == None
    ensures o.index + |strings[0]| + 1 >= 1460 ==> Fqdn(o, strings) == (o, 0)
  {
    hide Matches;
  }
}
