/** Packets with a pointer in them: the probe for a host's name, with the A record it is to be compared by.  It is
 * written in full and all its names are sent ones, so that the round trip of PacketSent speaks of it. */
module HostProbe {
  import opened Bytes
  import opened NameReader
  import opened NameWriter
  import opened NameRoundTrip
  import opened NameLimits
  import opened PacketNames
  import opened PacketRoundTrip
  import opened PacketSent
  import W = RecordWriter

  /** A host label, other than "local" and "_sub", without the byte 5: the domain cannot match inside it. */
  type HostText = h: CString |
    1 <= |h| <= MAX_LABEL && 0 !in h && 5 !in h && h != LOCAL && !EqNoCase(h, SUB)
    witness [97]

  function HostName(h: HostText): seq<CString> {
    [h, LOCAL]
  }

  function Probe(h: HostText, address: seq<byte>): W.Message {
    W.Message(0, 0, [W.OutQuestion(HostName(h), 255, true)], [],
      [W.Record(HostName(h), 1, false, 120, W.V4Data(address), true)], [])
  }

  lemma NameIsSent(h: HostText)
    ensures SentName(HostName(h)) && GoodLabels(HostName(h))
  {
    assert |LOCAL| != |SUB|;
  }

  lemma EndOfName(o: Out)
    requires o.Valid() && o.index < MAX_PACKET
    ensures Fqdn(o, []) == (o.Put([0]), 1) && LayoutOf(o, []) == Layout(o, [], None)
  {}

  /** The domain is not found in front of itself. */
  lemma DomainIsNew(h: HostText, o: Out)
    requires o.Valid() && o.index == 13 + |h| && o.bytes[12..13 + |h|] == [|h|] + h
    requires forall k :: 0 <= k < 12 ==> o.bytes[k] == 0
    ensures FindMatch(o.bytes, 0, o.index, [LOCAL]) == None
  {
    hide Reads;
    assert forall k :: 12 <= k < 13 + |h| ==> o.bytes[k] == o.bytes[12..13 + |h|][k - 12];
    forall k | 0 <= k < o.index
      ensures !Matches(o.bytes, k, [LOCAL])
    {
      if k == 12 && |h| == 5 {
        assert o.bytes[13..18] == h;
        assert LOCAL[..5] == LOCAL;
      }
    }
    NoneBefore(o.bytes, 0, o.index, o.index, [LOCAL]);
  }

  /** The first name is written in full. */
  lemma WrittenPlainly(h: HostText, o: Out)
    requires o.Valid() && o.index == 12 && forall k :: 0 <= k < 12 ==> o.bytes[k] == 0
    ensures GoodLabels(HostName(h)) && Fits(o, HostName(h)) && LayoutOf(o, HostName(h)).at == None
    ensures Fqdn(o, HostName(h)) == (o.Put([|h|] + h + ([5] + LOCAL) + [0]), 8 + |h|)
  {
    hide Reads, Matches, Fqdn, LayoutOf;
    NameIsSent(h);
    SkipNonMatches(o.bytes, 0, 12, 12, HostName(h));
    WritesLabel(o, HostName(h));
    assert HostName(h)[1..] == [LOCAL];
    var o1 := o.Put([|h|] + h);
    DomainIsNew(h, o1);
    WritesLabel(o1, [LOCAL]);
    assert [LOCAL][1..] == [];
    EndOfName(o1.Put([5] + LOCAL));
    PutTwice(o, [|h|] + h, [5] + LOCAL);
    PutTwice(o, [|h|] + h + ([5] + LOCAL), [0]);
  }

  function Spelled(h: HostText): seq<byte> {
    [|h|] + h + ([5] + LOCAL) + [0]
  }

  lemma SpelledOnWire(h: HostText)
    ensures Wire(HostName(h)) == Spelled(h)
  {
    assert HostName(h)[1..] == [LOCAL] && [LOCAL][1..] == [];
    assert Wire([LOCAL]) == [5] + LOCAL + [0];
  }

  lemma PartsOfName(h: HostText)
    ensures var st := Fold(EMPTY_NAME, AsItems(HostName(h))); st.parts == 2 && st.Field(0) == h && st.Field(1) == LOCAL
  {
    hide Fold;
    NameIsSent(h);
    FoldLabel(EMPTY_NAME, HostName(h));
    var s1 := Absorb(EMPTY_NAME, Label(h));
    assert HostName(h)[1..] == [LOCAL] && [LOCAL][1..] == [];
    FoldLabel(s1, [LOCAL]);
    FoldLabel(Absorb(s1, Label(LOCAL)), []);
  }

  /** Where the name stands in full, it matches. */
  lemma MatchesItself(h: HostText, b: seq<byte>)
    requires |b| >= 20 + |h| && b[12..20 + |h|] == Spelled(h)
    ensures Matches(b, 12, HostName(h))
  {
    hide Walk, Fold, Wire;
    NameIsSent(h);
    SpelledOnWire(h);
    var p := b[..20 + |h|];
    assert p[12..] == Spelled(h);
    WireReads(p, 12, 12, HostName(h));
    ReadsTheSameAfterMoreBytes(p, b, 12, 12, 0);
    PartsOfName(h);
    assert forall k :: 12 <= k < 20 + |h| ==> b[k] == b[12..20 + |h|][k - 12];
    assert b[13..13 + |h|] == Spelled(h)[1..1 + |h|] == h;
    assert h[..|h|] == h;
  }

  /** The second time, a pointer is enough. */
  lemma PointsBack(h: HostText, o: Out)
    requires o.Valid() && o.index == 24 + |h| && o.bytes[12..20 + |h|] == Spelled(h)
    requires forall k :: 0 <= k < 12 ==> o.bytes[k] == if k == 5 then 1 else 0
    ensures GoodLabels(HostName(h)) && Fits(o, HostName(h)) && LayoutOf(o, HostName(h)).at == Some(12)
    ensures Fqdn(o, HostName(h)) == (o.Put([0xC0, 12]), 2)
  {
    hide Reads;
    NameIsSent(h);
    MatchesItself(h, o.bytes);
    forall k | 0 <= k < 12
      ensures !Matches(o.bytes, k, HostName(h))
    {
      assert k == 5 && |h| == 1 ==> o.bytes[6..7][0] == o.bytes[6] == 0 && h[..1][0] == h[0];
    }
    NoneBefore(o.bytes, 0, 12, 24 + |h|, HostName(h));
    assert U16(0xC000 + 12) == [0xC0, 12];
  }

  // ---------- The packet ----------

  function Asked(h: HostText): W.OutQuestion {
    W.OutQuestion(HostName(h), 255, true)
  }

  function Claimed(h: HostText, address: seq<byte>): W.Record {
    W.Record(HostName(h), 1, false, 120, W.V4Data(address), true)
  }

  /** The packet behind its header and question, and the bytes of the header so far. */
  predicate AfterQuestion(h: HostText, o: Out, count: byte) {
    && o.Valid() && o.index == 24 + |h| && o.bytes[12..20 + |h|] == Spelled(h)
    && forall k :: 0 <= k < 12 ==> o.bytes[k] == if k == 5 then count else 0
  }

  lemma HeaderIsZero(h: HostText, stale: seq<byte>, address: seq<byte>)
    requires |stale| == MAX_PACKET
    ensures var o := HeaderDoc(stale, Probe(h, address)).out;
            o.Valid() && o.index == 12 && forall k :: 0 <= k < 12 ==> o.bytes[k] == 0
  {}

  lemma QuestionIs(h: HostText, o: Out)
    requires o.Valid() && o.index == 12 && forall k :: 0 <= k < 12 ==> o.bytes[k] == 0
    ensures W.AppendName(o, HostName(h)) == (o.Put(Spelled(h)), 8 + |h|)
    ensures W.AppendQuestion(o, Asked(h)) == (o.Put(Spelled(h)).Put(U16(255)).Put(U16(0x8001)), 12 + |h|)
  {
    hide Fqdn, LayoutOf;
    WrittenPlainly(h, o);
  }

  lemma AfterSpelled(h: HostText, o: Out)
    requires o.Valid() && o.index == 12 && forall k :: 0 <= k < 12 ==> o.bytes[k] == 0
    ensures AfterQuestion(h, o.Put(Spelled(h)).Put(U16(255)).Put(U16(0x8001)), 0)
  {
    var o1 := o.Put(Spelled(h));
    assert o1.bytes[12..20 + |h|] == Spelled(h);
    var o2 := o1.Put(U16(255));
    assert o2.bytes[12..20 + |h|] == o1.bytes[12..20 + |h|];
    var o3 := o2.Put(U16(0x8001));
    assert o3.bytes[12..20 + |h|] == o2.bytes[12..20 + |h|];
  }

  lemma QuestionGoesIn(h: HostText, o: Out)
    requires o.Valid() && o.index == 12 && forall k :: 0 <= k < 12 ==> o.bytes[k] == 0
    ensures QuestionsWritten(o, [Asked(h)]) && W.Questions(o, [Asked(h)]).1 == 1
    ensures AfterQuestion(h, W.Questions(o, [Asked(h)]).0, 0)
  {
    hide Fqdn, AfterQuestion, W.AppendName, W.AppendQuestion;
    var x := Asked(h);
    QuestionIs(h, o);
    AfterSpelled(h, o);
    var o3 := W.AppendQuestion(o, x).0;
    assert [x][1..] == [];
    assert QuestionsWritten(o3, []) && W.Questions(o3, []) == (o3, 0);
  }

  lemma RecordGoesIn(h: HostText, o: Out, address: seq<byte>)
    requires AfterQuestion(h, o, 1) && |address| == 4
    ensures AllCounted(o, [Claimed(h, address)]) && LayoutOf(o, HostName(h)).at == Some(12)
  {
    hide Fqdn, LayoutOf, W.TypeBytes;
    PointsBack(h, o);
    var r := Claimed(h, address);
    NameLength(h);
    var o1 := o.Put([0xC0, 12]);
    var o2 := o1.Put(W.TypeBytes(1, false, 120));
    assert W.AppendRecord(o, r).1 == 16;
    assert [r][1..] == [];
    assert W.Records(W.AppendRecord(o, r).0, []).1 == 0;
  }

  lemma NameLength(h: HostText)
    ensures WireLength(HostName(h)) <= 255
  {
    assert HostName(h)[1..] == [LOCAL] && [LOCAL][1..] == [];
    assert WireLength([LOCAL]) == 1 + 5 + WireLength([]);
  }

  lemma HeaderSet(h: HostText, o: Out)
    requires AfterQuestion(h, o, 0)
    ensures AfterQuestion(h, W.Section(W.SetU16(o, 4, 1), [], 6), 1)
    ensures AllCounted(W.SetU16(o, 4, 1), [])
  {}

  lemma NothingCounted(o: Out)
    requires o.Valid()
    ensures AllCounted(o, [])
  {}

  lemma ProbeIsWritten(h: HostText, stale: seq<byte>, address: seq<byte>)
    requires |stale| == MAX_PACKET && |address| == 4
    ensures WrittenInFull(stale, Probe(h, address))
  {
    hide Fqdn, W.Questions, W.Section, W.SetU16, QuestionsWritten, AllCounted, HeaderDoc;
    var m := Probe(h, address);
    HeaderIsZero(h, stale, address);
    var o1 := HeaderDoc(stale, m).out;
    QuestionGoesIn(h, o1);
    var o2 := W.Questions(o1, m.questions).0;
    HeaderSet(h, o2);
    var o4 := W.Section(W.SetU16(o2, 4, 1), [], 6);
    RecordGoesIn(h, o4, address);
    NothingCounted(W.Section(o4, m.servers, 8));
    NameIsSent(h);
    assert m.questions == [Asked(h)] && m.servers == [Claimed(h, address)];
  }

  lemma {:induction false} NamesJoin(d: Doc, a: seq<Write>, b: seq<Write>)
    requires d.out.Valid() && NamesSent(d, a) && (AllowedRun(d, a) ==> NamesSent(Run(d, a), b))
    ensures NamesSent(d, a + b)
    decreases |a|
  {
    hide Allowed, Do, NameSent;
    if a == [] {
      assert a + b == b;
    } else {
      assert (a + b)[0] == a[0] && (a + b)[1..] == a[1..] + b;
      if Allowed(d, a[0]) {
        NamesJoin(Do(d, a[0]), a[1..], b);
      }
    }
  }

  lemma {:induction false} NoNames(d: Doc, ws: seq<Write>)
    requires d.out.Valid() && forall w :: w in ws ==> !w.NameOf?
    ensures NamesSent(d, ws)
    decreases |ws|
  {
    hide Allowed, Do, NameSent;
    if ws != [] {
      assert ws == [ws[0]] + ws[1..];
      if Allowed(d, ws[0]) {
        NoNames(Do(d, ws[0]), ws[1..]);
      }
    }
  }

  lemma OneName(d: Doc, strings: seq<CString>)
    requires d.out.Valid() && NameSent(d, strings)
    ensures NamesSent(d, [NameOf(strings)])
  {
    hide NameSent;
    assert [NameOf(strings)][1..] == [];
  }

  lemma {:induction false} StartsGrow(d: Doc, ws: seq<Write>)
    requires d.out.Valid() && AllowedRun(d, ws)
    ensures d.starts <= Run(d, ws).starts
    decreases |ws|
  {
    hide Allowed, Fqdn, OwnStarts;
    if ws != [] {
      StartsGrow(Do(d, ws[0]), ws[1..]);
    }
  }

  /** A name first, and no other. */
  lemma NameThenOthers(d: Doc, strings: seq<CString>, rest: seq<Write>)
    requires d.out.Valid() && NameSent(d, strings) && forall w :: w in rest ==> !w.NameOf?
    ensures NamesSent(d, [NameOf(strings)] + rest)
  {
    hide NameSent, NamesSent, AllowedRun, Run;
    OneName(d, strings);
    if AllowedRun(d, [NameOf(strings)]) {
      NoNames(Run(d, [NameOf(strings)]), rest);
    }
    NamesJoin(d, [NameOf(strings)], rest);
  }

  /** The steps of the question and its number. */
  function QuestionPart(h: HostText): seq<Write> {
    [NameOf(HostName(h))] + ([Raw(U16(255))] + [Raw(U16(0x8001))] + [Patch(4, 1)])
  }

  lemma QuestionPartIs(h: HostText, o: Out)
    requires o.Valid() && W.Questions(o, [Asked(h)]).1 == 1
    ensures AllQuestionWrites([Asked(h)]) + [Patch(4, W.Questions(o, [Asked(h)]).1 % 256)] == QuestionPart(h)
  {
    hide W.Questions;
    assert [Asked(h)][1..] == [] && AllQuestionWrites([]) == [];
    var q := QuestionWrites(Asked(h));
    assert AllQuestionWrites([Asked(h)]) == q + [] == q;
    assert q + [Patch(4, 1)] == QuestionPart(h);
  }

  lemma ServerPartIs(h: HostText, o: Out, address: seq<byte>) returns (rest: seq<Write>)
    requires o.Valid()
    ensures SectionSteps(o, [Claimed(h, address)], 8) == [NameOf(HostName(h))] + rest
    ensures forall w :: w in rest ==> !w.NameOf?
  {
    hide W.AppendRecord, W.TypeBytes, W.Records;
    var r := Claimed(h, address);
    assert [r][1..] == [];
    var tail := RecordWrites(o, r)[1..];
    assert RecordWrites(o, r) == [NameOf(HostName(h))] + tail;
    assert SectionWrites(o, [r]) == RecordWrites(o, r) + [] == RecordWrites(o, r);
    rest := tail + [Patch(8, W.Records(o, [r]).1 % 256)];
    assert SectionSteps(o, [r], 8) == [NameOf(HostName(h))] + rest;
  }

  /** After the question: its labels may be pointed to. */
  lemma QuestionPartRuns(h: HostText, d: Doc)
    requires d.out.Valid() && d.out.index == 12 && forall k :: 0 <= k < 12 ==> d.out.bytes[k] == 0
    requires AllowedRun(d, QuestionPart(h))
    ensures var e := Run(d, QuestionPart(h));
            e.out == W.SetU16(W.Questions(d.out, [Asked(h)]).0, 4, 1) && 12 in e.starts
  {
    hide Fqdn, W.Questions, Run, AllowedRun, W.SetU16, Allowed, Do;
    QuestionGoesIn(h, d.out);
    QuestionPartIs(h, d.out);
    var ws := AllQuestionWrites([Asked(h)]);
    RunAppend(d, ws, [Patch(4, 1)]);
    NameIsSent(h);
    QuestionsRun(d, [Asked(h)]);
    RunOne(Run(d, ws), Patch(4, 1));
    PatchIs(Run(d, ws), 4, 1);
    StartIsThere(h, d);
  }

  lemma StartIsThere(h: HostText, d: Doc)
    requires d.out.Valid() && d.out.index == 12 && forall k :: 0 <= k < 12 ==> d.out.bytes[k] == 0
    requires AllowedRun(d, QuestionPart(h))
    ensures 12 in Run(d, QuestionPart(h)).starts
  {
    hide Fqdn, Run, AllowedRun, LayoutOf, Fits;
    WrittenPlainly(h, d.out);
    var rest := [Raw(U16(255))] + [Raw(U16(0x8001))] + [Patch(4, 1)];
    RunAppend(d, [NameOf(HostName(h))], rest);
    RunOne(d, NameOf(HostName(h)));
    NotFoundYet(h, d.out);
    assert 12 in Do(d, NameOf(HostName(h))).starts;
    StartsGrow(Do(d, NameOf(HostName(h))), rest);
  }

  lemma NotFoundYet(h: HostText, o: Out)
    requires o.Valid() && o.index == 12 && forall k :: 0 <= k < 12 ==> o.bytes[k] == 0
    ensures !WritesNoLabel(o, HostName(h)) && GoodLabels(HostName(h)) && 12 in OwnStarts(o, HostName(h))
  {
    hide Reads;
    NameIsSent(h);
    SkipNonMatches(o.bytes, 0, 12, 12, HostName(h));
  }

  lemma EmptySectionRuns(d: Doc, at: nat)
    requires d.out.Valid() && AllowedRun(d, SectionSteps(d.out, [], at))
    ensures Run(d, SectionSteps(d.out, [], at)).out == W.Section(d.out, [], at)
    ensures Run(d, SectionSteps(d.out, [], at)).starts == d.starts
  {
    assert SectionSteps(d.out, [], at) == [Patch(at, 0)];
    RunOne(d, Patch(at, 0));
  }

  lemma EmptySectionNames(d: Doc, o: Out, at: nat)
    requires d.out.Valid() && o.Valid()
    ensures NamesSent(d, SectionSteps(o, [], at))
  {
    assert SectionSteps(o, [], at) == [Patch(at, 0)];
    NoNames(d, SectionSteps(o, [], at));
  }

  /** The names of the probe: the first in full, the second a pointer to it. */
  lemma ProbeNamesAreSent(h: HostText, stale: seq<byte>, address: seq<byte>)
    requires |stale| == MAX_PACKET && |address| == 4
    ensures NamesSent(HeaderDoc(stale, Probe(h, address)), MessageSteps(stale, Probe(h, address)))
  {
    hide Fqdn, W.Questions, W.Section, W.SetU16, NamesSent, HeaderDoc, AllowedRun, Run, NameSent, SectionSteps,
         QuestionPart,
         AllQuestionWrites;
    var m := Probe(h, address);
    var d1 := HeaderDoc(stale, m);
    HeaderIsZero(h, stale, address);
    QuestionGoesIn(h, d1.out);
    QuestionPartIs(h, d1.out);
    FirstName(h, d1);
    var o2 := W.Questions(d1.out, m.questions).0;
    var o3 := W.SetU16(o2, 4, 1);
    var o4 := W.Section(o3, [], 6);
    var o5 := W.Section(o4, [Claimed(h, address)], 8);
    HeaderSet(h, o2);
    var sa, sb, sc := SectionSteps(o3, [], 6), SectionSteps(o4, [Claimed(h, address)], 8), SectionSteps(o5, [], 10);
    QuestionPartNames(h, d1);
    if AllowedRun(d1, QuestionPart(h)) {
      QuestionPartRuns(h, d1);
      var d3 := Run(d1, QuestionPart(h));
      EmptySectionNames(d3, o3, 6);
      if AllowedRun(d3, sa) {
        EmptySectionRuns(d3, 6);
        var d4 := Run(d3, sa);
        SecondName(h, d4);
        var rest := ServerPartIs(h, o4, address);
        NameThenOthers(d4, HostName(h), rest);
        if AllowedRun(d4, sb) {
          EmptySectionNames(Run(d4, sb), o5, 10);
        }
        NamesJoin(d4, sb, sc);
      }
      NamesJoin(d3, sa, sb + sc);
    }
    NamesJoin(d1, QuestionPart(h), sa + (sb + sc));
    assert m.questions == [Asked(h)];
    assert MessageSteps(stale, m) == QuestionPart(h) + (sa + (sb + sc));
  }

  lemma QuestionPartNames(h: HostText, d: Doc)
    requires d.out.Valid() && NameSent(d, HostName(h))
    ensures NamesSent(d, QuestionPart(h))
  {
    hide NameSent;
    NameThenOthers(d, HostName(h), [Raw(U16(255))] + [Raw(U16(0x8001))] + [Patch(4, 1)]);
  }

  lemma FirstName(h: HostText, d: Doc)
    requires d.out.Valid() && d.out.index == 12 && forall k :: 0 <= k < 12 ==> d.out.bytes[k] == 0
    ensures NameSent(d, HostName(h))
  {
    NameIsSent(h);
    WrittenPlainly(h, d.out);
  }

  lemma SecondName(h: HostText, d: Doc)
    requires AfterQuestion(h, d.out, 1) && 12 in d.starts
    ensures NameSent(d, HostName(h)) && LayoutOf(d.out, HostName(h)).at == Some(12)
  {
    NameIsSent(h);
    PointsBack(h, d.out);
  }

  /** The probe is a message the round trip speaks of, and its second name is a pointer to the first. */
  lemma ProbeReadsBack(h: HostText, stale: seq<byte>, address: seq<byte>)
    requires |stale| == MAX_PACKET && |address| == 4
    ensures var m := Probe(h, address);
            && WrittenInFull(stale, m)
            && NamesSent(HeaderDoc(stale, m), MessageSteps(stale, m))
            && AllowedRun(HeaderDoc(stale, m), MessageSteps(stale, m))
            && var p := W.Dispatch(stale, m).Written(); |p| == 40 + |h| && p[24 + |h|] == 0xC0 && p[25 + |h|] == 12
  {
    hide NamesSent, AllowedRun, MessageSteps, HeaderDoc, WrittenInFull, W.Dispatch;
    ProbeIsWritten(h, stale, address);
    ProbeNamesAreSent(h, stale, address);
    HeaderIsFresh(stale, Probe(h, address), true);
    SentSteps(HeaderDoc(stale, Probe(h, address)), MessageSteps(stale, Probe(h, address)));
    MessageIsAllowed(stale, Probe(h, address), true);
    PointerIsThere(h, stale, address);
  }

  lemma PointerIsThere(h: HostText, stale: seq<byte>, address: seq<byte>)
    requires |stale| == MAX_PACKET && |address| == 4
    ensures var p := W.Dispatch(stale, Probe(h, address)).Written();
            |p| == 40 + |h| && p[24 + |h|] == 0xC0 && p[25 + |h|] == 12
  {
    hide Fqdn, W.Questions, W.Section, W.SetU16, HeaderDoc;
    var m := Probe(h, address);
    HeaderIsZero(h, stale, address);
    var o1 := HeaderDoc(stale, m).out;
    QuestionGoesIn(h, o1);
    var o2 := W.Questions(o1, m.questions).0;
    HeaderSet(h, o2);
    var o4 := W.Section(W.SetU16(o2, 4, 1), [], 6);
    RecordEnds(h, o4, address);
    var o5 := W.Section(o4, [Claimed(h, address)], 8);
    LastSection(h, o5);
    HeaderIs(stale, m);
    assert m.questions == [Asked(h)];
    assert W.Dispatch(stale, m) == W.Section(o5, [], 10);
  }

  lemma HeaderIs(stale: seq<byte>, m: W.Message)
    requires |stale| == MAX_PACKET
    ensures var o0 := Out(seq(W.HEAD_LEN, _ => 0) + stale[W.HEAD_LEN..], W.HEAD_LEN);
            HeaderDoc(stale, m).out == W.SetU16(W.SetU16(o0, 2, m.flags), 0, m.id)
  {}

  lemma LastSection(h: HostText, o: Out)
    requires o.Valid() && o.index == 40 + |h|
    ensures var e := W.Section(o, [], 10);
            e.index == 40 + |h| && e.bytes[24 + |h|] == o.bytes[24 + |h|] && e.bytes[25 + |h|] == o.bytes[25 + |h|]
  {}

  lemma RecordEnds(h: HostText, o: Out, address: seq<byte>)
    requires AfterQuestion(h, o, 1) && |address| == 4
    ensures var e := W.Section(o, [Claimed(h, address)], 8);
            e.Valid() && e.index == 40 + |h| && e.bytes[24 + |h|] == 0xC0 && e.bytes[25 + |h|] == 12
  {
    hide Fqdn, LayoutOf, W.TypeBytes;
    PointsBack(h, o);
    var r := Claimed(h, address);
    var o1 := o.Put([0xC0, 12]);
    var o2 := o1.Put(W.TypeBytes(1, false, 120));
    var o3 := o2.Put(address);
    assert o1.bytes[24 + |h|] == 0xC0 && o1.bytes[25 + |h|] == 12;
    assert [r][1..] == [];
    assert W.AppendRecord(o, r).0 == W.SetU16(o3, 34 + |h|, 4);
    assert W.Records(W.AppendRecord(o, r).0, []).0 == W.AppendRecord(o, r).0;
    assert W.Records(o, [r]).0 == W.AppendRecord(o, r).0;
  }

  // ---------- The bytes of the probe ----------

  lemma PutWritten(o: Out, data: seq<byte>)
    requires o.Valid() && o.index + |data| <= MAX_PACKET
    ensures o.Put(data).Valid() && o.Put(data).Written() == o.Written() + data
    ensures o.Put(data).index == o.index + |data| == |o.Put(data).Written()|
  {}

  lemma SetWritten(o: Out, at: nat, v: nat)
    requires o.Valid() && at + 1 < o.index && v < 256
    ensures W.SetU16(o, at, v).Valid() && W.SetU16(o, at, v).index == o.index
    ensures W.SetU16(o, at, v).Written() == o.Written()[at := 0][at + 1 := v]
  {}

  /** The question of the probe. */
  function QuestionSpelled(h: HostText): seq<byte> {
    [|h|] + h + [5, 108, 111, 99, 97, 108, 0] + [0, 255, 0x80, 1]
  }

  lemma QuestionBytes(h: HostText, o: Out)
    requires o.Valid() && o.index == 12 && forall k :: 0 <= k < 12 ==> o.bytes[k] == 0
    ensures var q := W.Questions(o, [Asked(h)]).0;
            && W.Questions(o, [Asked(h)]).1 == 1
            && q.Valid() && q.index == 24 + |h| && q.Written() == o.Written() + QuestionSpelled(h)
  {
    hide Fqdn, Out.Put, Out.Written, LayoutOf, FindMatch;
    QuestionIs(h, o);
    PutWritten(o, Spelled(h));
    PutWritten(o.Put(Spelled(h)), U16(255));
    PutWritten(o.Put(Spelled(h)).Put(U16(255)), U16(0x8001));
    assert [Asked(h)][1..] == [];
    var q := W.AppendQuestion(o, Asked(h)).0;
    assert W.Questions(q, []) == (q, 0);
    assert o.Written() + Spelled(h) + [0, 255] + [0x80, 1] == o.Written() + QuestionSpelled(h);
  }

  lemma RecordBytes(h: HostText, o: Out, address: seq<byte>)
    requires AfterQuestion(h, o, 1) && |address| == 4
    ensures var e := W.Records(o, [Claimed(h, address)]).0;
            && W.Records(o, [Claimed(h, address)]).1 == 1
            && e.Valid() && e.index == 40 + |h|
            && e.Written() == o.Written() + [0xC0, 12, 0, 1, 0, 1, 0, 0, 0, 120, 0, 4] + address
  {
    hide Fqdn, LayoutOf, Out.Put, Out.Written, W.SetU16;
    PointsBack(h, o);
    var r := Claimed(h, address);
    var t := W.TypeBytes(1, false, 120);
    var o1 := o.Put([0xC0, 12]);
    var o2 := o1.Put(t);
    var o3 := o2.Put(address);
    PutWritten(o, [0xC0, 12]);
    PutWritten(o1, t);
    PutWritten(o2, address);
    SetWritten(o3, 34 + |h|, 4);
    assert [r][1..] == [];
    assert W.AppendRecord(o, r) == (W.SetU16(o3, 34 + |h|, 4), 16);
    assert W.Records(W.SetU16(o3, 34 + |h|, 4), []) == (W.SetU16(o3, 34 + |h|, 4), 0);
    assert t == [0, 1, 0, 1, 0, 0, 0, 120, 0, 0];
    LengthSet(h, o.Written(), address);
  }

  lemma LengthSet(h: HostText, w: seq<byte>, address: seq<byte>)
    requires |w| == 24 + |h|
    ensures (w + [0xC0, 12] + [0, 1, 0, 1, 0, 0, 0, 120, 0, 0] + address)[34 + |h| := 0][35 + |h| := 4]
            == w + [0xC0, 12, 0, 1, 0, 1, 0, 0, 0, 120, 0, 4] + address
  {}

  /** The probe for a host name, byte by byte: the header with its two counts, the question for anything of that name,
   * to be answered to this host alone, and the address claimed for it, whose name is a pointer to the question's. */
  lemma ProbeBytes(h: HostText, stale: seq<byte>, address: seq<byte>)
    requires |stale| == MAX_PACKET && |address| == 4
    ensures W.Dispatch(stale, Probe(h, address)).Written() ==
            [0, 0, 0, 0, 0, 1, 0, 0, 0, 1, 0, 0]
            + [|h|] + h + [5, 108, 111, 99, 97, 108, 0] + [0, 255, 0x80, 1]
            + [0xC0, 12, 0, 1, 0, 1, 0, 0, 0, 120, 0, 4] + address
  {
    hide Fqdn, W.Questions, W.Records, W.SetU16, HeaderDoc, Out.Written, QuestionSpelled;
    var m := Probe(h, address);
    HeaderIsZero(h, stale, address);
    var o1 := HeaderDoc(stale, m).out;
    QuestionGoesIn(h, o1);
    QuestionBytes(h, o1);
    var o2 := W.Questions(o1, m.questions).0;
    assert m.questions == [Asked(h)];
    HeaderSet(h, o2);
    SetWritten(o2, 4, 1);
    var o3 := W.SetU16(o2, 4, 1);
    NoRecords(o3);
    SetWritten(o3, 6, 0);
    var o4 := W.Section(o3, [], 6);
    RecordBytes(h, o4, address);
    var e := W.Records(o4, [Claimed(h, address)]).0;
    SetWritten(e, 8, 1);
    var o5 := W.Section(o4, [Claimed(h, address)], 8);
    NoRecords(o5);
    SetWritten(o5, 10, 0);
    HeaderIs(stale, m);
    assert W.Dispatch(stale, m) == W.Section(o5, [], 10);
    HeaderThenQuestion(h, o1, o2.Written(), address);
  }

  lemma NoRecords(o: Out)
    requires o.Valid()
    ensures W.Records(o, []) == (o, 0)
  {}

  lemma HeaderThenQuestion(h: HostText, o: Out, w: seq<byte>, address: seq<byte>)
    requires o.Valid() && o.index == 12 && forall k :: 0 <= k < 12 ==> o.bytes[k] == 0
    requires w == o.Written() + QuestionSpelled(h)
    ensures var tail := [0xC0, 12, 0, 1, 0, 1, 0, 0, 0, 120, 0, 4];
            var body := w[4 := 0][5 := 1][6 := 0][7 := 0];
            (body + tail + address)[8 := 0][9 := 1][10 := 0][11 := 0] ==
            [0, 0, 0, 0, 0, 1, 0, 0, 0, 1, 0, 0]
            + [|h|] + h + [5, 108, 111, 99, 97, 108, 0] + [0, 255, 0x80, 1] + tail + address
  {}
}
