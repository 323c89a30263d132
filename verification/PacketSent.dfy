/** Whole packets read back: under the exact condition that each name does when it is written and that no field set
 * later is among the bytes a name is read from, and, for names of the shapes the sender builds, whenever their matches
 * are at label starts. */
module PacketSent {
  import opened Bytes
  import opened NameWriter
  import opened NameRoundTrip
  import opened PacketNames
  import opened PacketRoundTrip
  import TxtCodec
  import W = RecordWriter

  // ---------- Two kinds of runs ----------

  /** What is asked of a step: of a name, that it is a sent one, or only that it reads back at once; of a field that is
   * set, nothing, or that it is none of the bytes a name is read from. */
  predicate StepOk(d: Doc, w: Write, sent: bool)
    requires d.out.Valid()
  {
    match w
    case NameOf(strings) => if sent then NameSent(d, strings) else Allowed(d, w)
    case Raw(_) => true
    case Patch(at, _) => sent || (at !in d.nameBytes && at + 1 !in d.nameBytes)
  }

  predicate StepsOk(d: Doc, ws: seq<Write>, sent: bool)
    requires d.out.Valid()
    decreases |ws|
  {
    ws != [] ==> StepOk(d, ws[0], sent) && (Allowed(d, ws[0]) ==> StepsOk(Do(d, ws[0]), ws[1..], sent))
  }

  /** Every name reads back when it is written, and no field set later is among the bytes a name is read from. */
  predicate NamesRight(d: Doc, ws: seq<Write>)
    requires d.out.Valid()
  {
    StepsOk(d, ws, false)
  }

  lemma {:induction false} SentSteps(d: Doc, ws: seq<Write>)
    requires d.out.Valid() && NamesSent(d, ws)
    ensures StepsOk(d, ws, true)
    decreases |ws|
  {
    hide Allowed, Do, NameSent;
    if ws != [] && Allowed(d, ws[0]) {
      SentSteps(Do(d, ws[0]), ws[1..]);
    }
  }

  ghost predicate Sound(d: Doc, sent: bool) {
    sent ==> PlainInv(d)
  }

  // ---------- Runs of writes ----------

  lemma {:induction false} AllowedAppend(d: Doc, a: seq<Write>, b: seq<Write>)
    requires d.out.Valid() && AllowedRun(d, a) && AllowedRun(Run(d, a), b)
    ensures AllowedRun(d, a + b) && Run(d, a + b) == Run(Run(d, a), b)
    decreases |a|
  {
    hide Allowed, Do;
    if a == [] {
      assert a + b == b;
    } else {
      assert (a + b)[0] == a[0] && (a + b)[1..] == a[1..] + b;
      AllowedAppend(Do(d, a[0]), a[1..], b);
    }
  }

  lemma {:induction false} StepsAppend(d: Doc, a: seq<Write>, b: seq<Write>, sent: bool)
    requires d.out.Valid() && AllowedRun(d, a) && StepsOk(d, a + b, sent)
    ensures StepsOk(d, a, sent) && StepsOk(Run(d, a), b, sent)
    decreases |a|
  {
    hide Allowed, Do, StepOk;
    if a == [] {
      assert a + b == b;
    } else {
      assert (a + b)[0] == a[0] && (a + b)[1..] == a[1..] + b;
      StepsAppend(Do(d, a[0]), a[1..], b, sent);
    }
  }

  lemma {:induction false} StepsPrefix(d: Doc, a: seq<Write>, b: seq<Write>, sent: bool)
    requires d.out.Valid() && StepsOk(d, a + b, sent)
    ensures StepsOk(d, a, sent)
    decreases |a|
  {
    hide Allowed, Do, StepOk;
    if a != [] {
      assert (a + b)[0] == a[0] && (a + b)[1..] == a[1..] + b;
      if Allowed(d, a[0]) {
        StepsPrefix(Do(d, a[0]), a[1..], b, sent);
      }
    }
  }

  /** The index grows, and the bytes sent names are read from lie before it or are those of names added behind. */
  lemma {:induction false} RunGrows(d: Doc, ws: seq<Write>, sent: bool)
    requires d.out.Valid() && AllowedRun(d, ws) && Sound(d, sent) && StepsOk(d, ws, sent)
    ensures d.out.index <= Run(d, ws).out.index
    ensures sent ==> forall i :: i in Run(d, ws).nameBytes ==> i in d.nameBytes || d.out.index <= i
    decreases |ws|
  {
    hide Allowed, AllowedRun, Run, StepOk, Do, Sound;
    if ws == [] {
      RunNothing(d);
    } else {
      RunFirst(d, ws);
      StepGrows(d, ws[0], sent);
      RunGrows(Do(d, ws[0]), ws[1..], sent);
    }
  }

  lemma RunNothing(d: Doc)
    requires d.out.Valid()
    ensures AllowedRun(d, []) && Run(d, []) == d
  {}

  lemma RunFirst(d: Doc, ws: seq<Write>)
    requires d.out.Valid() && ws != [] && AllowedRun(d, ws)
    ensures Allowed(d, ws[0]) && AllowedRun(Do(d, ws[0]), ws[1..]) && Run(d, ws) == Run(Do(d, ws[0]), ws[1..])
  {}

  lemma StepGrows(d: Doc, w: Write, sent: bool)
    requires d.out.Valid() && Allowed(d, w) && Sound(d, sent) && StepOk(d, w, sent)
    ensures Sound(Do(d, w), sent) && d.out.index <= Do(d, w).out.index
    ensures sent ==> forall i :: i in Do(d, w).nameBytes ==> i in d.nameBytes || d.out.index <= i
  {
    hide Fqdn, OwnStarts, LayoutOf, Fits, PlainInv, NameSent, PointsRight, PointerBytes;
    if w.NameOf? {
      FqdnGrowth(d.out, w.strings);
    }
    if sent {
      SentStepKeeps(d, w);
    }
  }

  /** A run that can go on from a plain state. */
  ghost predicate Good(d: Doc, ws: seq<Write>, sent: bool)
    requires d.out.Valid()
  {
    AllowedRun(d, ws) && Sound(Run(d, ws), sent)
  }

  lemma GoodStep(d: Doc, w: Write, sent: bool)
    requires d.out.Valid() && Sound(d, sent) && StepsOk(d, [w], sent) && (!w.NameOf? ==> Allowed(d, w))
    ensures Allowed(d, w) && Good(d, [w], sent) && Run(d, [w]) == Do(d, w)
  {
    hide PlainInv, NameSent, Allowed, Do;
    if w.NameOf? && sent {
      SentIsAllowed(d, w.strings);
    }
    if sent {
      SentStepKeeps(d, w);
    }
    assert [w][1..] == [];
    RunNothing(Do(d, w));
  }

  lemma FieldIsFree(d: Doc, w: Write, sent: bool)
    requires d.out.Valid() && w.Patch? && w.at + 1 < d.out.index && StepsOk(d, [w], sent)
    requires sent ==> w.at !in d.nameBytes && w.at + 1 !in d.nameBytes
    ensures Allowed(d, w)
  {}

  lemma GoodAppend(d: Doc, a: seq<Write>, b: seq<Write>, sent: bool)
    requires d.out.Valid() && Good(d, a, sent) && Good(Run(d, a), b, sent)
    ensures Good(d, a + b, sent) && Run(d, a + b) == Run(Run(d, a), b)
  {
    hide Sound, AllowedRun, Run;
    AllowedAppend(d, a, b);
  }

  lemma NothingIsGood(d: Doc, sent: bool)
    requires d.out.Valid() && Sound(d, sent)
    ensures Good(d, [], sent) && Run(d, []) == d
  {}

  // ---------- One record ----------

  lemma TypeFits(o: Out, r: W.Record)
    requires o.Valid() && W.AppendRecord(o, r).1 > 0
    ensures var o1 := W.AppendName(o, r.owner).0;
            && o1.index + 10 < MAX_PACKET
            && W.AppendRdata(o1.Put(W.TypeBytes(r.kind, r.flush, r.ttl)), r.data).1 > 0
  {
    hide Fqdn, W.AppendRdata, W.TypeBytes, Out.Put;
  }

  lemma ServiceFits(o: Out, priority: nat, weight: nat, port: nat, strings: seq<CString>)
    requires o.Valid() && W.AppendRdata(o, W.ServiceData(priority, weight, port, strings)).1 > 0
    ensures o.index + 6 <= MAX_PACKET
  {
    hide Fqdn, Out.Put;
    var (o1, n1) := W.AppendU16(o, priority);
    var (o2, n2) := W.AppendU16(o1, weight);
    var (o3, n3) := W.AppendU16(o2, port);
    U16Fits(o, priority);
    U16Fits(o1, weight);
    U16Fits(o2, port);
  }

  lemma U16Fits(o: Out, v: nat)
    requires o.Valid()
    ensures var (o', n) := W.AppendU16(o, v);
            && (n == 0 || n == 2) && (n == 2 ==> o.index + 2 <= MAX_PACKET && o'.index == o.index + 2)
  {}

  lemma TextFits(o: Out, items: seq<TxtCodec.Item>)
    requires o.Valid() && o.index < MAX_PACKET && W.AppendRdata(o, W.TextData(items)).1 > 0
    ensures o.index + |TxtCodec.Data(items)| <= MAX_PACKET
  {
    hide Out.Put, W.AppendItems, TxtCodec.Entries;
    W.ItemsLength(o, items);
  }

  lemma PutIndex(o: Out, data: seq<byte>)
    requires o.Valid() && o.index + |data| <= MAX_PACKET
    ensures o.Put(data).Valid() && o.Put(data).index == o.index + |data|
  {}

  /** The data of a counted record. */
  lemma DataIsGood(d: Doc, data: W.Rdata, sent: bool)
    requires d.out.Valid() && Sound(d, sent) && d.out.index < MAX_PACKET && W.AppendRdata(d.out, data).1 > 0
    requires StepsOk(d, DataWrites(data), sent)
    ensures Good(d, DataWrites(data), sent)
  {
    hide Sound, StepOk, Good, AllowedRun, Run, StepsOk, W.AppendItems, Fqdn, Out.Put, TxtCodec.Data, U16;
    match data
    case NameData(strings) => GoodStep(d, NameOf(strings), sent);
    case ServiceData(priority, weight, port, strings) =>
      ServiceFits(d.out, priority, weight, port, strings);
      assert DataWrites(data) == [Raw(U16(priority))] + ([Raw(U16(weight))] + ([Raw(U16(port))] + [NameOf(strings)]));
      ServiceIsGood(d, Raw(U16(priority)), Raw(U16(weight)), Raw(U16(port)), NameOf(strings), sent);
    case TextData(items) => TextFits(d.out, items); GoodStep(d, Raw(TxtCodec.Data(items)), sent);
    case V4Data(address) => GoodStep(d, Raw(address), sent);
    case V6Data(address) => GoodStep(d, Raw(address), sent);
  }

  lemma ServiceIsGood(d: Doc, a: Write, b: Write, c: Write, e: Write, sent: bool)
    requires d.out.Valid() && Sound(d, sent) && d.out.index + 6 <= MAX_PACKET
    requires StepsOk(d, [a] + ([b] + ([c] + [e])), sent)
    requires a.Raw? && b.Raw? && c.Raw? && |a.data| == |b.data| == |c.data| == 2 && e.NameOf?
    ensures Good(d, [a] + ([b] + ([c] + [e])), sent)
  {
    hide Sound, StepOk, StepsOk, Out.Put, AllowedRun, Run;
    RawGood(d, a, [b] + ([c] + [e]), sent);
    var d1 := Do(d, a);
    RawGood(d1, b, [c] + [e], sent);
    var d2 := Do(d1, b);
    RawGood(d2, c, [e], sent);
    var d3 := Do(d2, c);
    GoodStep(d3, e, sent);
    GoodAppend(d2, [c], [e], sent);
    GoodAppend(d1, [b], [c] + [e], sent);
    GoodAppend(d, [a], [b] + ([c] + [e]), sent);
  }

  /** Bytes that fit, and what follows. */
  lemma RawGood(d: Doc, w: Write, rest: seq<Write>, sent: bool)
    requires d.out.Valid() && Sound(d, sent) && StepsOk(d, [w] + rest, sent) && w.Raw?
    requires d.out.index + |w.data| <= MAX_PACKET
    ensures Allowed(d, w) && Good(d, [w], sent) && Run(d, [w]) == Do(d, w) && Sound(Do(d, w), sent)
            && StepsOk(Do(d, w), rest, sent)
    ensures Do(d, w).out == d.out.Put(w.data) && Do(d, w).out.index == d.out.index + |w.data|
    ensures Do(d, w).nameBytes == d.nameBytes
  {
    hide Sound, StepOk, Out.Put;
    PutIndex(d.out, w.data);
    assert StepsOk(d, [w], sent);
    GoodStep(d, w, sent);
    StepsAppend(d, [w], rest, sent);
  }

  /** A name, and what follows. */
  lemma NameGood(d: Doc, strings: seq<CString>, rest: seq<Write>, sent: bool)
    requires d.out.Valid() && Sound(d, sent) && StepsOk(d, [NameOf(strings)] + rest, sent)
    ensures var w := NameOf(strings);
            && Allowed(d, w) && Good(d, [w], sent) && Run(d, [w]) == Do(d, w) && Sound(Do(d, w), sent)
            && StepsOk(Do(d, w), rest, sent)
            && Do(d, w).out == Fqdn(d.out, strings).0
  {
    hide Sound, StepOk, Fqdn, OwnStarts;
    var w := NameOf(strings);
    assert ([w] + rest)[0] == w && ([w] + rest)[1..] == rest;
    assert StepOk(d, w, sent);
    assert [w][1..] == [];
    assert StepsOk(d, [w], sent);
    GoodStep(d, w, sent);
  }

  lemma BeforeIndex(d: Doc, sent: bool)
    requires Sound(d, sent)
    ensures sent ==> d.out.Valid() && forall i :: i in d.nameBytes ==> i < d.out.index
  {}

  /** A counted record is written by correct steps. */
  lemma RecordIsGood(d: Doc, r: W.Record, sent: bool)
    requires d.out.Valid() && Sound(d, sent) && W.GoodRecord(r) && W.Sized(r) && W.AppendRecord(d.out, r).1 > 0
    requires StepsOk(d, RecordWrites(d.out, r), sent)
    ensures Good(d, RecordWrites(d.out, r), sent)
  {
    hide Sound, StepOk, StepsOk, Fqdn, Out.Put, AllowedRun, Run, W.AppendRdata, W.TypeBytes, DataWrites, Good,
         Allowed,
         W.GoodRecord, W.Sized, W.AppendRecord, Do;
    var o := d.out;
    var w0, w1, ws := NameOf(r.owner), Raw(W.TypeBytes(r.kind, r.flush, r.ttl)), DataWrites(r.data);
    TypeFits(o, r);
    W.RecordIsFramed(o, r);
    W.RecordHead(o, r);
    var nameEnd := NameEnd(o, r);
    var end := W.AppendRecord(o, r).0.index;
    var last := Patch(nameEnd + 8, end - nameEnd - 10);
    assert RecordWrites(o, r) == [w0] + ([w1] + (ws + [last]));
    NameGood(d, r.owner, [w1] + (ws + [last]), sent);
    var d1 := Do(d, w0);
    BeforeIndex(d1, sent);
    RawGood(d1, w1, ws + [last], sent);
    var d2 := Do(d1, w1);
    DataThenPatch(d2, r.data, last, sent);
    GoodAppend(d1, [w1], ws + [last], sent);
    GoodAppend(d, [w0], [w1] + (ws + [last]), sent);
  }

  /** The data, and the length set behind the name. */
  lemma DataThenPatch(d: Doc, data: W.Rdata, last: Write, sent: bool)
    requires d.out.Valid() && Sound(d, sent) && d.out.index < MAX_PACKET && W.AppendRdata(d.out, data).1 > 0
    requires StepsOk(d, DataWrites(data) + [last], sent)
    requires last.Patch? && last.at + 2 == d.out.index
    requires sent ==> forall i :: i in d.nameBytes ==> i < last.at
    ensures Good(d, DataWrites(data) + [last], sent)
  {
    hide Sound, StepOk, W.AppendRdata, DataWrites, AllowedRun, Run, StepsOk;
    var ws := DataWrites(data);
    StepsPrefix(d, ws, [last], sent);
    DataIsGood(d, data, sent);
    StepsAppend(d, ws, [last], sent);
    RunGrows(d, ws, sent);
    FieldIsFree(Run(d, ws), last, sent);
    GoodStep(Run(d, ws), last, sent);
    GoodAppend(d, ws, [last], sent);
  }

  // ---------- Sections ----------

  /** No sent name is read from the header. */
  predicate PastHeader(d: Doc, sent: bool) {
    W.HEAD_LEN <= d.out.index && (sent ==> forall i :: i in d.nameBytes ==> W.HEAD_LEN <= i)
  }

  lemma RunPastHeader(d: Doc, ws: seq<Write>, sent: bool)
    requires d.out.Valid() && AllowedRun(d, ws) && Sound(d, sent) && StepsOk(d, ws, sent) && PastHeader(d, sent)
    ensures PastHeader(Run(d, ws), sent)
  {
    hide AllowedRun, Run, StepsOk, Sound;
    RunGrows(d, ws, sent);
  }

  lemma {:induction false} SectionIsGood(d: Doc, rs: seq<W.Record>, sent: bool)
    requires d.out.Valid() && Sound(d, sent) && AllCounted(d.out, rs) && StepsOk(d, SectionWrites(d.out, rs), sent)
    ensures Good(d, SectionWrites(d.out, rs), sent)
    decreases |rs|
  {
    hide Sound, W.AppendRecord, RecordWrites, StepsOk, W.GoodRecord, W.Sized, W.Grew, AllowedRun, Run;
    if rs == [] {
      NothingIsGood(d, sent);
    } else {
      var r, rest := rs[0], rs[1..];
      var o1 := W.AppendRecord(d.out, r).0;
      var first, tail := RecordWrites(d.out, r), SectionWrites(o1, rest);
      W.RecordsGrow(o1, rest);
      StepsPrefix(d, first, tail, sent);
      RecordIsGood(d, r, sent);
      RecordRuns(d, r);
      StepsAppend(d, first, tail, sent);
      SectionIsGood(Run(d, first), rest, sent);
      GoodAppend(d, first, tail, sent);
    }
  }

  /** A section and its number. */
  lemma StepsAreGood(d: Doc, rs: seq<W.Record>, at: nat, sent: bool)
    requires d.out.Valid() && Sound(d, sent) && PastHeader(d, sent) && AllCounted(d.out, rs) && at + 1 < W.HEAD_LEN
    requires StepsOk(d, SectionSteps(d.out, rs, at), sent)
    ensures var steps := SectionSteps(d.out, rs, at);
            && Good(d, steps, sent) && PastHeader(Run(d, steps), sent) && Run(d, steps).out == W.Section(d.out, rs, at)
  {
    hide Sound, SectionWrites, StepsOk, AllowedRun, Run, AllCounted;
    var ws, last := SectionWrites(d.out, rs), Patch(at, W.Records(d.out, rs).1 % 256);
    StepsPrefix(d, ws, [last], sent);
    SectionIsGood(d, rs, sent);
    RunPastHeader(d, ws, sent);
    StepsAppend(d, ws, [last], sent);
    FieldIsFree(Run(d, ws), last, sent);
    GoodStep(Run(d, ws), last, sent);
    GoodAppend(d, ws, [last], sent);
    RunPastHeader(d, ws + [last], sent);
    SectionStepsRun(d, rs, at);
  }

  // ---------- Questions ----------

  /** A question was written to its end, its type and class included. */
  predicate QuestionWritten(o: Out, x: W.OutQuestion)
    requires o.Valid()
  {
    W.AppendQuestion(o, x).1 > 0 && W.AppendQuestion(o, x).0.index == W.AppendName(o, x.name).0.index + 4
  }

  predicate QuestionsWritten(o: Out, xs: seq<W.OutQuestion>)
    requires o.Valid()
    decreases |xs|
  {
    xs != [] ==> QuestionWritten(o, xs[0]) && QuestionsWritten(W.AppendQuestion(o, xs[0]).0, xs[1..])
  }

  lemma QuestionFits(o: Out, x: W.OutQuestion)
    requires o.Valid() && QuestionWritten(o, x)
    ensures W.AppendName(o, x.name).0.index + 4 <= MAX_PACKET
  {
    hide Fqdn;
  }

  lemma QuestionIsGood(d: Doc, x: W.OutQuestion, sent: bool)
    requires d.out.Valid() && Sound(d, sent) && QuestionWritten(d.out, x) && StepsOk(d, QuestionWrites(x), sent)
    ensures Good(d, QuestionWrites(x), sent)
  {
    hide Sound, StepOk, StepsOk, Fqdn, Out.Put, AllowedRun, Run, Allowed, Do, QuestionWritten, U16;
    var a, b, c := NameOf(x.name), Raw(U16(x.kind)), Raw(U16(ClassOf(x)));
    QuestionFits(d.out, x);
    NameGood(d, x.name, [b] + [c], sent);
    var d1 := Do(d, a);
    RawGood(d1, b, [c], sent);
    GoodStep(Do(d1, b), c, sent) by {
      PutIndex(d1.out, b.data);
      RoomForRaw(Do(d1, b), c);
    }
    GoodAppend(d1, [b], [c], sent);
    GoodAppend(d, [a], [b] + [c], sent);
  }

  lemma RoomForRaw(d: Doc, w: Write)
    requires d.out.Valid() && w.Raw? && d.out.index + |w.data| <= MAX_PACKET
    ensures Allowed(d, w)
  {}

  lemma {:induction false} QuestionsAreGood(d: Doc, xs: seq<W.OutQuestion>, sent: bool)
    requires d.out.Valid() && Sound(d, sent) && QuestionsWritten(d.out, xs) && StepsOk(d, AllQuestionWrites(xs), sent)
    requires forall i :: 0 <= i < |xs| ==> GoodLabels(xs[i].name)
    ensures Good(d, AllQuestionWrites(xs), sent)
    decreases |xs|
  {
    hide Sound, QuestionWritten, QuestionWrites, StepsOk, AllowedRun, Run, W.AppendQuestion, GoodLabels;
    if xs == [] {
      NothingIsGood(d, sent);
    } else {
      var first, tail := QuestionWrites(xs[0]), AllQuestionWrites(xs[1..]);
      StepsPrefix(d, first, tail, sent);
      QuestionIsGood(d, xs[0], sent);
      WrittenCounts(d.out, xs[0]);
      QuestionRuns(d, xs[0]);
      StepsAppend(d, first, tail, sent);
      QuestionsAreGood(Run(d, first), xs[1..], sent);
      GoodAppend(d, first, tail, sent);
    }
  }

  lemma WrittenCounts(o: Out, x: W.OutQuestion)
    requires o.Valid() && QuestionWritten(o, x)
    ensures W.AppendQuestion(o, x).1 > 0
  {}

  // ---------- Messages ----------

  /** The message was written in full: every question, and every record counted. */
  predicate WrittenInFull(stale: seq<byte>, m: W.Message)
    requires |stale| == MAX_PACKET
  {
    Counted(stale, m) && QuestionsWritten(HeaderDoc(stale, m).out, m.questions)
  }

  lemma HeaderIsFresh(stale: seq<byte>, m: W.Message, sent: bool)
    requires |stale| == MAX_PACKET
    ensures var d := HeaderDoc(stale, m); d.out.Valid() && Sound(d, sent) && PastHeader(d, sent)
  {
    HeaderIsSound(stale, m);
  }

  /** A message written in full whose steps are in order is written by correct steps. */
  lemma MessageIsAllowed(stale: seq<byte>, m: W.Message, sent: bool)
    requires |stale| == MAX_PACKET && WrittenInFull(stale, m)
    requires StepsOk(HeaderDoc(stale, m), MessageSteps(stale, m), sent)
    ensures AllowedRun(HeaderDoc(stale, m), MessageSteps(stale, m))
  {
    hide Sound, StepsOk, AllowedRun, Run, SectionSteps, AllCounted, W.Section, W.Questions, Good, QuestionsWritten,
         W.SetU16, Allowed, Do, GoodLabels;
    var d1 := HeaderDoc(stale, m);
    HeaderIsFresh(stale, m, sent);
    var o1 := d1.out;
    var (o2, count) := W.Questions(o1, m.questions);
    var o3 := W.SetU16(o2, 4, count % 256);
    var o4 := W.Section(o3, m.answers, 6);
    var o5 := W.Section(o4, m.servers, 8);
    var qs, sa, sb, sc := AllQuestionWrites(m.questions) + [Patch(4, count % 256)], SectionSteps(o3, m.answers, 6),
                          SectionSteps(o4, m.servers, 8), SectionSteps(o5, m.additional, 10);
    StepsPrefix(d1, qs, sa + (sb + sc), sent);
    QuestionStepsAreGood(d1, m.questions, sent);
    GoodEnd(d1, qs, sent);
    StepsAppend(d1, qs, sa + (sb + sc), sent);
    var d3 := Run(d1, qs);
    StepsPrefix(d3, sa, sb + sc, sent);
    StepsAreGood(d3, m.answers, 6, sent);
    GoodEnd(d3, sa, sent);
    StepsAppend(d3, sa, sb + sc, sent);
    var d4 := Run(d3, sa);
    StepsPrefix(d4, sb, sc, sent);
    StepsAreGood(d4, m.servers, 8, sent);
    GoodEnd(d4, sb, sent);
    StepsAppend(d4, sb, sc, sent);
    StepsAreGood(Run(d4, sb), m.additional, 10, sent);
    GoodAppend(d4, sb, sc, sent);
    GoodAppend(d3, sa, sb + sc, sent);
    GoodAppend(d1, qs, sa + (sb + sc), sent);
    GoodEnd(d1, qs + (sa + (sb + sc)), sent);
  }

  lemma GoodEnd(d: Doc, ws: seq<Write>, sent: bool)
    requires d.out.Valid() && Good(d, ws, sent)
    ensures AllowedRun(d, ws) && Sound(Run(d, ws), sent)
  {}

  lemma QuestionStepsAreGood(d: Doc, xs: seq<W.OutQuestion>, sent: bool)
    requires d.out.Valid() && Sound(d, sent) && PastHeader(d, sent) && QuestionsWritten(d.out, xs)
    requires (forall i :: 0 <= i < |xs| ==> GoodLabels(xs[i].name)) && W.Questions(d.out, xs).1 == |xs|
    requires StepsOk(d, AllQuestionWrites(xs) + [Patch(4, W.Questions(d.out, xs).1 % 256)], sent)
    ensures var (o, count) := W.Questions(d.out, xs); var steps := AllQuestionWrites(xs) + [Patch(4, count % 256)];
            && Good(d, steps, sent) && PastHeader(Run(d, steps), sent)
            && Run(d, steps).out == W.SetU16(o, 4, count % 256)
  {
    hide Sound, StepsOk, AllowedRun, Run, QuestionsWritten, W.SetU16, GoodLabels, AllQuestionWrites, W.Questions;
    var ws, last := AllQuestionWrites(xs), Patch(4, W.Questions(d.out, xs).1 % 256);
    StepsPrefix(d, ws, [last], sent);
    QuestionsAreGood(d, xs, sent);
    RunPastHeader(d, ws, sent);
    StepsAppend(d, ws, [last], sent);
    FieldIsFree(Run(d, ws), last, sent);
    GoodStep(Run(d, ws), last, sent);
    GoodAppend(d, ws, [last], sent);
    RunPastHeader(d, ws + [last], sent);
    QuestionsRun(d, xs);
    PatchIs(Run(d, ws), 4, last.value);
  }

  /** A message written in full is read back when each of its names is when it is written, wherever its match is, and
   * no field set later is among the bytes a name is read from. */
  lemma PacketReadsBack(stale: seq<byte>, m: W.Message)
    requires |stale| == MAX_PACKET && WrittenInFull(stale, m) && NamesRight(HeaderDoc(stale, m), MessageSteps(stale, m))
    ensures ReadBack(W.Dispatch(stale, m).Written(), m)
  {
    hide StepsOk, MessageSteps, HeaderDoc, Counted, QuestionsWritten, AllowedRun, W.Dispatch, ReadBack;
    MessageIsAllowed(stale, m, false);
    AllowedPacketReadsBack(stale, m);
  }

  /** So is a message with names of the shapes the sender builds, if their matches are at label starts. */
  lemma SentPacketReadsBack(stale: seq<byte>, m: W.Message)
    requires |stale| == MAX_PACKET && WrittenInFull(stale, m) && NamesSent(HeaderDoc(stale, m), MessageSteps(stale, m))
    ensures ReadBack(W.Dispatch(stale, m).Written(), m)
  {
    hide StepsOk, NamesSent, MessageSteps, HeaderDoc, Counted, QuestionsWritten, AllowedRun, W.Dispatch, ReadBack;
    HeaderIsFresh(stale, m, true);
    SentSteps(HeaderDoc(stale, m), MessageSteps(stale, m));
    MessageIsAllowed(stale, m, true);
    AllowedPacketReadsBack(stale, m);
  }
}
