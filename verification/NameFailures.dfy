/** When the round trip of a name fails, in packets the senders fill: a subtype called like the instance, in the
 * goodbye for it, and TXT data that spell a longer name. */
module NameFailures {
  import opened Bytes
  import opened NameReader
  import opened NameWriter
  import opened NameRoundTrip
  import opened NameLimits
  import TxtCodec
  import W = RecordWriter

  // ---------- Names that match nothing ----------

  /** Printable ASCII, and shorter than any printable byte is great: no byte of it is the length of another. */
  predicate Printable(text: CString) {
    1 <= |text| < 32 && forall i :: 0 <= i < |text| ==> 32 <= text[i] < 127
  }

  predicate AllPrintable(labels: seq<CString>) {
    forall i :: 0 <= i < |labels| ==> Printable(labels[i])
  }

  function Enc(labels: seq<CString>): seq<byte>
    requires AllPrintable(labels)
  {
    if labels == [] then [] else [|labels[0]|] + labels[0] + Enc(labels[1..])
  }

  lemma {:induction false} EncAppend(a: seq<CString>, b: CString)
    requires AllPrintable(a) && Printable(b)
    ensures AllPrintable(a + [b]) && Enc(a + [b]) == Enc(a) + ([|b|] + b)
    decreases |a|
  {
    if a == [] {
      assert a + [b] == [b] && [b][1..] == [];
    } else {
      assert (a + [b])[1..] == a[1..] + [b];
      EncAppend(a[1..], b);
      assert [|a[0]|] + a[0] + (Enc(a[1..]) + ([|b|] + b)) == [|a[0]|] + a[0] + Enc(a[1..]) + ([|b|] + b);
    }
  }

  lemma PrintableIsGood(labels: seq<CString>)
    requires AllPrintable(labels)
    ensures GoodLabels(labels)
  {}

  lemma {:induction false} WireIsEnc(labels: seq<CString>)
    requires AllPrintable(labels)
    ensures Wire(labels) == Enc(labels) + [0]
    decreases |labels|
  {
    if labels != [] {
      WireIsEnc(labels[1..]);
    }
  }

  /** What a match needs at its first two bytes. */
  lemma MatchBegins(b: seq<byte>, k: nat, strings: seq<CString>)
    requires k < |b| && strings != [] && Printable(strings[0]) && Matches(b, k, strings)
    ensures k + 1 + |strings[0]| <= |b| && b[k] == |strings[0]| && b[k + 1] == strings[0][0]
    ensures b[k + 1..k + 1 + |strings[0]|] == strings[0]
  {
    hide Reads;
    assert strings[0][..|strings[0]|] == strings[0];
    assert b[k + 1..k + 1 + |strings[0]|][0] == b[k + 1];
  }

  lemma SliceSplits(b: seq<byte>, at: nat, e: seq<byte>, n: nat)
    requires n <= |e| && at + |e| <= |b| && b[at..at + |e|] == e
    ensures b[at..at + n] == e[..n] && b[at + n..at + |e|] == e[n..]
  {
    assert b[at..at + |e|][..n] == b[at..at + n] && b[at..at + |e|][n..] == b[at + n..at + |e|];
  }

  lemma NotInLabel(b: seq<byte>, at: nat, first: CString, strings: seq<CString>)
    requires Printable(first) && strings != [] && Printable(strings[0]) && strings[0] != first
    requires at + 1 + |first| <= |b| && b[at..at + 1 + |first|] == [|first|] + first
    ensures forall k :: at <= k < at + 1 + |first| ==> !Matches(b, k, strings)
  {
    hide Matches;
    var next := at + 1 + |first|;
    SliceSplits(b, at, [|first|] + first, 1);
    assert ([|first|] + first)[1..] == first;
    assert b[at] == b[at..at + 1][0] == ([|first|] + first)[..1][0] == |first|;
    assert forall k :: at < k < next ==> b[k] == b[at + 1..next][k - at - 1];
    forall k | at <= k < next
      ensures !Matches(b, k, strings)
    {
      if Matches(b, k, strings) {
        MatchBegins(b, k, strings);
      }
    }
  }

  /** Other printable labels match nowhere. */
  lemma {:induction false} NoneInLabels(b: seq<byte>, at: nat, labels: seq<CString>, strings: seq<CString>)
    requires AllPrintable(labels) && strings != [] && Printable(strings[0]) && strings[0] !in labels
    requires at + |Enc(labels)| <= |b| && b[at..at + |Enc(labels)|] == Enc(labels)
    ensures forall k :: at <= k < at + |Enc(labels)| ==> !Matches(b, k, strings)
    decreases |labels|
  {
    if labels != [] {
      hide Matches;
      var first, rest := labels[0], Enc(labels[1..]);
      var e := Enc(labels);
      assert e == [|first|] + first + rest;
      SliceSplits(b, at, e, 1 + |first|);
      assert e[..1 + |first|] == [|first|] + first && e[1 + |first|..] == rest;
      NotInLabel(b, at, first, strings);
      assert strings[0] !in labels[1..];
      NoneInLabels(b, at + 1 + |first|, labels[1..], strings);
    }
  }

  /** A header of a response, and labels behind it. */
  predicate Begun(o: Out, done: seq<CString>) {
    && o.Valid() && AllPrintable(done)
    && o.index == 12 + |Enc(done)| && o.bytes[12..o.index] == Enc(done)
    && forall k :: 0 <= k < 12 ==> o.bytes[k] == if k == 2 then 0x84 else 0
  }

  lemma NoMatchYet(o: Out, done: seq<CString>, strings: seq<CString>)
    requires Begun(o, done) && strings != [] && Printable(strings[0]) && strings[0] !in done
    ensures FindMatch(o.bytes, 0, o.index, strings) == None
  {
    hide Matches, Enc;
    SkipNonMatches(o.bytes, 0, 12, o.index, strings);
    NoneInLabels(o.bytes, 12, done, strings);
    NoneBefore(o.bytes, 12, o.index, o.index, strings);
  }

  /** A name whose labels were not written yet is written in full. */
  lemma {:induction false} FreshName(o: Out, done: seq<CString>, labels: seq<CString>)
    requires Begun(o, done) && AllPrintable(labels) && NoRepeats(done + labels)
    requires o.index + |Enc(labels)| + 1 < MAX_PACKET
    ensures Fqdn(o, labels) == (o.Put(Enc(labels) + [0]), |Enc(labels)| + 1)
    decreases |labels|
  {
    hide FindMatch, Begun, Fqdn, LayoutOf, NameWriter.Out.Put, NoRepeats;
    if labels == [] {
      EndOfName(o, done);
      assert [] + [0] == [0];
    } else {
      var first, rest := labels[0], labels[1..];
      BegunFacts(o, done);
      NextIsNew(done, labels);
      NoMatchYet(o, done, labels);
      PrintableIsGood(labels);
      WritesLabel(o, labels);
      var data := [|first|] + first;
      BegunMore(o, done, first);
      FreshName(o.Put(data), done + [first], rest);
      BegunFacts(o.Put(data), done + [first]);
      PutTwice(o, data, Enc(rest) + [0]);
      assert data + (Enc(rest) + [0]) == Enc(labels) + [0];
    }
  }

  lemma NextIsNew(done: seq<CString>, labels: seq<CString>)
    requires labels != [] && NoRepeats(done + labels)
    ensures labels[0] !in done && done + [labels[0]] + labels[1..] == done + labels
  {
    assert (done + labels)[|done|] == labels[0];
    assert forall i :: 0 <= i < |done| ==> (done + labels)[i] == done[i];
  }

  lemma EndOfName(o: Out, done: seq<CString>)
    requires Begun(o, done) && o.index < MAX_PACKET
    ensures Fqdn(o, []) == (o.Put([0]), 1)
  {}

  lemma BegunFacts(o: Out, done: seq<CString>)
    requires Begun(o, done)
    ensures o.Valid() && AllPrintable(done) && o.index >= 12
  {}

  lemma BegunMore(o: Out, done: seq<CString>, first: CString)
    requires Begun(o, done) && Printable(first) && o.index + 1 + |first| < MAX_PACKET
    ensures Begun(o.Put([|first|] + first), done + [first])
    ensures o.Put([|first|] + first).index == o.index + 1 + |first|
  {
    EncAppend(done, first);
    var o' := o.Put([|first|] + first);
    assert o'.bytes[12..o'.index] == o.bytes[12..o.index] + ([|first|] + first);
  }

  // ---------- Names found where they are spelled ----------

  lemma {:induction false} NoHops(labels: seq<LabelText>)
    ensures Hops(AsItems(labels)) == 0
    decreases |labels|
  {
    if labels != [] {
      NoHops(labels[1..]);
      assert AsItems(labels)[1..] == AsItems(labels[1..]);
    }
  }

  lemma WireIsThere(b: seq<byte>, at: nat, labels: seq<LabelText>)
    requires GoodLabels(labels) && at + |Wire(labels)| <= |b| && b[at..at + |Wire(labels)|] == Wire(labels)
    ensures Walk(b, at, at, 0) == Some(Walked(at + |Wire(labels)|, AsItems(labels), true))
  {
    hide Walk, Wire;
    var p := b[..at + |Wire(labels)|];
    assert p[at..] == Wire(labels);
    WireReads(p, at, at, labels);
    ReadsTheSameAfterMoreBytes(p, b, at, at, 0);
  }

  lemma SpelledMatches(b: seq<byte>, at: nat, labels: seq<LabelText>, strings: seq<CString>)
    requires TakenFor(labels, strings) && at + |Wire(labels)| <= |b| && b[at..at + |Wire(labels)|] == Wire(labels)
    ensures Matches(b, at, strings)
  {
    hide Walk, Fold;
    WireIsThere(b, at, labels);
    var w := Wire(labels);
    var n := |labels[0]|;
    SliceSplits(b, at, w, 1 + n);
    assert w[..1 + n] == [n] + labels[0];
    SliceSplits(b, at, [n] + labels[0], 1);
    assert b[at] == b[at..at + 1][0] == ([n] + labels[0])[..1][0];
    assert ([n] + labels[0])[1..] == labels[0] && strings[0][..n] == labels[0];
  }

  /** A pointer reads as the name it points to. */
  lemma PointerReads(p: seq<byte>, at: nat, start: nat, labels: seq<LabelText>)
    requires GoodLabels(labels) && at + |Wire(labels)| <= |p| && p[at..at + |Wire(labels)|] == Wire(labels)
    requires at < start && start + 2 <= |p| && at < 0x4000 && p[start..start + 2] == U16(0xC000 + at)
    ensures Walk(p, start, start, 0) == Some(Walked(start + 2, [Hop] + AsItems(labels), true))
    ensures Labels([Hop] + AsItems(labels)) == labels
  {
    hide Walk, Wire;
    WireIsThere(p, at, labels);
    NoHops(labels);
    LabelsOfItems(labels);
    assert ([Hop] + AsItems(labels))[1..] == AsItems(labels);
    assert p[start] == p[start..start + 2][0] == 0xC0 + at / 256 && p[start + 1] == p[start..start + 2][1] == at % 256;
    DepthShift(p, at, at, 0, 1);
    PointerStep(p, start, start, 0);
  }

  // ---------- A subtype called like the instance ----------

  lemma SubtypeTaken(instance: LabelText, service: LabelText, proto: LabelText)
    requires ServiceParts(instance, service, proto)
    ensures TakenFor([instance, SUB, service, proto, LOCAL], [instance, service, proto, LOCAL])
  {
    hide Fold, EqNoCase;
    var labels := [instance, SUB, service, proto, LOCAL];
    var rest := [service, proto, LOCAL];
    assert labels[1..][1..] == rest;
    FixedLabels();
    OneByOne(labels);
    OneByOne([instance, service, proto, LOCAL]);
    FoldLabel(EMPTY_NAME, labels);
    FoldLabel(Absorb(EMPTY_NAME, Label(instance)), labels[1..]);
    PartsOf(instance, rest, NameState(instance, [], [], [], 1, true, false));
    assert rest[3..] == [];
    FoldLabel(NameState(instance, service, proto, LOCAL, 4, true, false), []);
  }

  /** The record mdns_priv_send_bye_subtype writes for a subtype with the instance's own name. */
  function Goodbye(instance: CString, service: CString, proto: CString): W.Record {
    W.Record([instance, SUB, service, proto, LOCAL], 12, false, 0, W.NameData([instance, service, proto, LOCAL]), true)
  }

  predicate DistinctParts(instance: CString, service: CString, proto: CString) {
    && ServiceParts(instance, service, proto)
    && AllPrintable([instance, SUB, service, proto, LOCAL]) && NoRepeats([instance, SUB, service, proto, LOCAL])
  }

  lemma {:induction false} EncSize(labels: seq<CString>)
    requires AllPrintable(labels)
    ensures |labels| <= |Enc(labels)| <= 32 * |labels|
    decreases |labels|
  {
    if labels != [] {
      EncSize(labels[1..]);
    }
  }

  /** What stands at `at` is still there after more bytes. */
  lemma PutKeeps(o: Out, data: seq<byte>, at: nat, w: seq<byte>)
    requires o.Valid() && o.index + |data| <= MAX_PACKET && at + |w| <= o.index && o.bytes[at..at + |w|] == w
    ensures var o' := o.Put(data); o'.Valid() && o'.index == o.index + |data| && o'.bytes[at..at + |w|] == w
    ensures o.Put(data).bytes[o.index..o.index + |data|] == data
    ensures forall k :: 0 <= k < o.index ==> o.Put(data).bytes[k] == o.bytes[k]
  {
    var o' := o.Put(data);
    forall k | 0 <= k < o.index
      ensures o'.bytes[k] == o.bytes[k]
    {
      assert o'.bytes[k] == o'.Written()[k] == o.Written()[k];
    }
    assert o'.bytes[at..at + |w|] == w;
  }

  /** The buffer behind the owner and the type: the owner's name is at 12, and the instance is found there. */
  lemma OwnerIsFound(o: Out, labels: seq<LabelText>, strings: seq<CString>, kind: nat)
    requires Begun(o, []) && AllPrintable(labels) && NoRepeats(labels) && TakenFor(labels, strings) && |labels| == 5
    ensures var o2 := o.Put(Wire(labels)).Put(W.TypeBytes(kind, false, 0));
            && o2.Valid() && o2.index == 22 + |Wire(labels)| < 200 && |Wire(labels)| >= 6
            && o2.bytes[12..12 + |Wire(labels)|] == Wire(labels)
            && FindMatch(o2.bytes, 0, o2.index, strings) == Some(12)
    ensures Fqdn(o, labels) == (o.Put(Wire(labels)), |Wire(labels)|)
  {
    hide Matches, W.TypeBytes, Enc, Fold, Fqdn;
    var w := Wire(labels);
    EncSize(labels);
    WireIsEnc(labels);
    assert [] + labels == labels;
    BeginsAt12(o);
    FreshName(o, [], labels);
    var o1 := o.Put(w);
    assert o1.bytes[12..12 + |w|] == w;
    PutKeeps(o1, W.TypeBytes(kind, false, 0), 12, w);
    var o2 := o1.Put(W.TypeBytes(kind, false, 0));
    SpelledMatches(o2.bytes, 12, labels, strings);
    SkipNonMatches(o2.bytes, 0, 12, o2.index, strings);
  }

  lemma BeginsAt12(o: Out)
    requires Begun(o, [])
    ensures o.Valid() && o.index == 12 && forall k :: 0 <= k < 12 ==> o.bytes[k] == if k == 2 then 0x84 else 0
  {}

  /** For every such service: the goodbye for a subtype with the instance's own name is sent, and its data, which
   * should name the instance, read as the name of the subtype. */
  lemma SubtypeTakenForInstance(o: Out, instance: LabelText, service: LabelText, proto: LabelText)
    requires Begun(o, []) && DistinctParts(instance, service, proto)
    ensures var r := Goodbye(instance, service, proto);
            var (o', n) := W.AppendRecord(o, r); var at := W.AppendName(o, r.owner).0.index + 10;
            && n > 0 && o'.index == at + 2
            && var w := Walk(o'.Written(), at, at, 0);
               && w.Some? && w.value.closed && w.value.next == o'.index
               && Labels(w.value.items) == [instance, SUB, service, proto, LOCAL]
  {
    hide Enc, Begun, Fqdn, FindMatch, Walk, Fold, W.TypeBytes, TakenFor, Wire;
    var labels := [instance, SUB, service, proto, LOCAL];
    var strings := [instance, service, proto, LOCAL];
    BegunFacts(o, []);
    SubtypeTaken(instance, service, proto);
    OwnerIsFound(o, labels, strings, 12);
    PrintableIsGood(labels);
    var w := Wire(labels);
    var o1 := o.Put(w);
    var o2 := o1.Put(W.TypeBytes(12, false, 0));
    PointedTo(o2, strings, 12);
    var o3 := o2.Put(U16(0xC000 + 12));
    PutKeeps(o2, U16(0xC000 + 12), 12, w);
    GoodbyeIs(o, instance, service, proto, w);
    var o' := W.SetU16(o3, o2.index - 2, 2);
    BeginsAt12(o);
    PatchKeeps(o3, o2.index - 2, 2, 12, w);
    PatchKeeps(o3, o2.index - 2, 2, o2.index, U16(0xC000 + 12));
    var p := o'.Written();
    assert p[12..12 + |w|] == o'.bytes[12..12 + |w|];
    assert p[o2.index..o2.index + 2] == o'.bytes[o2.index..o2.index + 2];
    PointerReads(p, 12, o2.index, labels);
  }

  lemma PatchKeeps(o: Out, at: nat, v: nat, from: nat, w: seq<byte>)
    requires o.Valid() && at + 1 < o.index && from + |w| <= o.index && o.bytes[from..from + |w|] == w
    requires from + |w| <= at || at + 1 < from
    ensures var o' := W.SetU16(o, at, v); o'.Valid() && o'.index == o.index && o'.bytes[from..from + |w|] == w
  {
    assert W.SetU16(o, at, v).bytes[from..from + |w|] == o.bytes[from..from + |w|];
  }

  lemma PointedTo(o: Out, strings: seq<CString>, at: nat)
    requires o.Valid() && strings != [] && FindMatch(o.bytes, 0, o.index, strings) == Some(at)
    requires o.index + 1 < MAX_PACKET
    ensures Fqdn(o, strings) == (o.Put(U16(0xC000 + at)), 2)
  {
    hide FindMatch;
  }

  lemma GoodbyeIs(o: Out, instance: CString, service: CString, proto: CString, w: seq<byte>)
    requires o.Valid() && o.index == 12 && 6 <= |w| < 250
    requires Fqdn(o, [instance, SUB, service, proto, LOCAL]) == (o.Put(w), |w|)
    requires var o2 := o.Put(w).Put(W.TypeBytes(12, false, 0));
             Fqdn(o2, [instance, service, proto, LOCAL]) == (o2.Put(U16(0xC000 + 12)), 2)
    ensures var o2 := o.Put(w).Put(W.TypeBytes(12, false, 0));
            W.AppendRecord(o, Goodbye(instance, service, proto))
              == (W.SetU16(o2.Put(U16(0xC000 + 12)), o2.index - 2, 2), |w| + 12)
    ensures W.AppendName(o, [instance, SUB, service, proto, LOCAL]).0.index == 12 + |w|
  {
    hide Fqdn, W.TypeBytes, U16;
  }

  // ---------- A longer name in TXT data ----------

  lemma LongerTaken(instance: LabelText, service: LabelText, proto: LabelText, extra: LabelText)
    requires ServiceParts(instance, service, proto) && GoodLabels([extra])
    ensures TakenFor([instance, service, proto, LOCAL, extra], [instance, service, proto, LOCAL])
  {
    hide Fold, EqNoCase;
    var labels := [instance, service, proto, LOCAL, extra];
    var rest := [service, proto, LOCAL, extra];
    var st := NameState(instance, service, proto, LOCAL, 4, false, false);
    assert labels[1..] == rest;
    FixedLabels();
    OneByOne(labels);
    OneByOne([instance, service, proto, LOCAL]);
    FoldLabel(EMPTY_NAME, labels);
    PartsOf(instance, rest, NameState(instance, [], [], [], 1, false, false));
    assert rest[3..] == [extra] && [extra][1..] == [];
    FoldLabel(st, [extra]);
    FoldLabel(Absorb(st, Label(extra)), []);
  }

  /** The TXT record of another service, with one item whose value spells `labels`. */
  function Spelling(owner: seq<CString>, key: CString, labels: seq<LabelText>): W.Record {
    W.Record(owner, 16, true, 4500, W.TextData([TxtCodec.Item(key, Some(Wire(labels)))]), true)
  }

  /** The bytes between the owner's name and the value. */
  function Between(key: CString, n: nat): seq<byte> {
    W.TypeBytes(16, true, 4500)[..8] + U16(n) + [(n - 1) % 256] + key + [TxtCodec.EQUALS]
  }

  lemma TextEntry(key: CString, w: seq<byte>)
    requires |key| + 1 + |w| < 256
    ensures var item := TxtCodec.Item(key, Some(w));
            && TxtCodec.Entry(item) == [|key| + 1 + |w|] + key + [TxtCodec.EQUALS] + w
            && TxtCodec.Data([item]) == TxtCodec.Entry(item)
  {
    var item := TxtCodec.Item(key, Some(w));
    assert TxtCodec.Entries([item]) == TxtCodec.Entry(item) + TxtCodec.Entries([item][1..]);
    assert [|key| + 1 + |w|] + (key + ([TxtCodec.EQUALS] + w)) == [|key| + 1 + |w|] + key + [TxtCodec.EQUALS] + w;
  }

  /** What that record leaves in the packet. */
  lemma SpellingGoesIn(o: Out, owner: seq<CString>, key: CString, labels: seq<LabelText>)
    requires Begun(o, []) && AllPrintable(owner) && NoRepeats(owner) && |owner| == 4
    requires Printable(key) && AllPrintable(labels) && |labels| == 5
    ensures var (o', n) := W.AppendRecord(o, Spelling(owner, key, labels)); var w := Wire(labels);
            var at := 12 + |Enc(owner)| + 1; var len := |key| + 2 + |w|;
            && n > 0 && o'.Valid() && o'.index == at + 10 + len < MAX_PACKET - 200 && len < 256
            && |w| >= |labels[0]| + 2
            && o'.bytes[12..o'.index] == Enc(owner) + [0] + Between(key, len) + w
            && (forall k :: 0 <= k < 12 ==> o'.bytes[k] == o.bytes[k])
            && W.AppendName(o, owner).0.index == at
  {
    hide Fqdn, Enc, Begun, W.TypeBytes, Out.Put, W.AppendRecord, W.AppendName, W.SetU16, TxtCodec.Entry, Wire, Between,
         NoRepeats;
    var w := Wire(labels);
    Sizes(owner, labels);
    BeginsAt12(o);
    assert [] + owner == owner;
    BegunFacts(o, []);
    FreshName(o, [], owner);
    TextEntry(key, w);
    var item := TxtCodec.Item(key, Some(w));
    var e := TxtCodec.Entry(item);
    TextRecordIs(o, owner, item, Enc(owner) + [0], e);
    Assembled(o, Enc(owner) + [0], W.TypeBytes(16, true, 4500), e, |e|);
    Rearranged(Enc(owner) + [0], key, w, e);
  }

  lemma Sizes(owner: seq<CString>, labels: seq<LabelText>)
    requires AllPrintable(owner) && |owner| == 4 && AllPrintable(labels) && |labels| == 5
    ensures 4 <= |Enc(owner)| <= 128 && |labels[0]| + 2 <= |Wire(labels)| <= 161
  {
    hide Enc;
    EncSize(owner);
    EncSize(labels);
    WireIsEnc(labels);
    FirstLength(labels);
  }

  lemma Rearranged(a: seq<byte>, key: CString, w: seq<byte>, e: seq<byte>)
    requires |e| == |key| + 2 + |w| < 256 && e == [|key| + 1 + |w|] + key + [TxtCodec.EQUALS] + w
    ensures a + (W.TypeBytes(16, true, 4500)[..8] + U16(|e|)) + e == a + Between(key, |e|) + w
  {
    hide W.TypeBytes, U16;
    var t := W.TypeBytes(16, true, 4500);
    assert Between(key, |e|) == t[..8] + U16(|e|) + [|e| - 1] + key + [TxtCodec.EQUALS];
  }

  /** Three pieces behind the header, the second with its last two bytes set afterwards. */
  lemma Assembled(o: Out, a: seq<byte>, t: seq<byte>, e: seq<byte>, v: nat)
    requires o.Valid() && o.index == 12 && |t| == 10 && 22 + |a| + |e| < MAX_PACKET
    ensures var o3 := o.Put(a).Put(t).Put(e); var o' := W.SetU16(o3, 12 + |a| + 8, v);
            && o'.Valid() && o'.index == 22 + |a| + |e|
            && o'.bytes[12..o'.index] == a + (t[..8] + U16(v)) + e
            && forall k :: 0 <= k < 12 ==> o'.bytes[k] == o.bytes[k]
  {
    var o3 := o.Put(a).Put(t).Put(e);
    PutTwice(o, a, t);
    PutTwice(o, a + t, e);
    assert o3.bytes[12..o3.index] == a + t + e;
    var o' := W.SetU16(o3, 12 + |a| + 8, v);
    assert forall k :: 12 <= k < o3.index ==> o3.bytes[k] == (a + t + e)[k - 12];
    var all := a + (t[..8] + U16(v)) + e;
    forall k | 0 <= k < |all|
      ensures o'.bytes[12..o'.index][k] == all[k]
    {
      assert o'.bytes[12..o'.index][k] == o'.bytes[12 + k];
    }
  }

  lemma FirstLength(labels: seq<LabelText>)
    requires AllPrintable(labels) && labels != []
    ensures |Wire(labels)| >= |labels[0]| + 2
  {
    WireIsEnc(labels);
  }

  lemma TypeEnds()
    ensures W.TypeBytes(16, true, 4500) == [0, 16, 0x80, 1, 0, 0, 17, 148, 0, 0]
  {
    assert U16(16) == [0, 16] && U16(0x8001) == [0x80, 1] && U16(0) == [0, 0];
    assert W.U32(4500) == [0, 0, 17, 148];
  }

  lemma TextRecordIs(o: Out, owner: seq<CString>, item: TxtCodec.Item, name: seq<byte>, e: seq<byte>)
    requires o.Valid() && o.index == 12 && 1 <= |name| < 250 && Fqdn(o, owner) == (o.Put(name), |name|)
    requires e == TxtCodec.Entry(item) && 1 <= |e| < 300
    ensures var r := W.Record(owner, 16, true, 4500, W.TextData([item]), true);
            var o2 := o.Put(name).Put(W.TypeBytes(16, true, 4500));
            && W.AppendRecord(o, r) == (W.SetU16(o2.Put(e), o2.index - 2, |e|), |name| + 10 + |e|)
            && W.AppendName(o, owner).0.index == 12 + |name|
  {
    hide Fqdn, W.TypeBytes, TxtCodec.Entry;
    assert [item][1..] == [];
    var o2 := o.Put(name).Put(W.TypeBytes(16, true, 4500));
    assert W.AppendItems(o2.Put(e), []) == (o2.Put(e), true);
    assert W.AppendItems(o2, [item]) == (o2.Put(e), true);
  }

  /** Nothing between the owner's name and the value matches. */
  lemma NoneBetween(b: seq<byte>, from: nat, key: CString, n: nat, strings: seq<CString>)
    requires strings != [] && Printable(strings[0]) && Printable(key) && |strings[0]| + 1 < n < 256
    requires from + |Between(key, n)| + 1 <= |b| && b[from..from + |Between(key, n)|] == Between(key, n)
    ensures forall k :: from <= k < from + |Between(key, n)| ==> !Matches(b, k, strings)
  {
    hide Matches;
    TypeEnds();
    var t := Between(key, n);
    assert t == [0, 16, 0x80, 1, 0, 0, 17, 148, 0, n, n - 1] + key + [TxtCodec.EQUALS];
    assert forall k :: from <= k < from + |t| ==> b[k] == b[from..from + |t|][k - from];
    assert b[from + 2] == t[2] && b[from + 4] == t[4] && b[from + 7] == t[7];
    forall k | from <= k < from + |t|
      ensures !Matches(b, k, strings)
    {
      if Matches(b, k, strings) {
        MatchBegins(b, k, strings);
      }
    }
  }

  lemma Pieces(b: seq<byte>, from: nat, e: seq<byte>, t: seq<byte>, w: seq<byte>)
    requires var n := |e| + 1 + |t| + |w|; from + n <= |b| && b[from..from + n] == e + [0] + t + w
    ensures b[from..from + |e|] == e && b[from + |e|] == 0
    ensures var at := from + |e| + 1; b[at..at + |t|] == t && b[at + |t|..at + |t| + |w|] == w
  {
    var all := e + [0] + t + w;
    SliceSplits(b, from, all, |e| + 1 + |t|);
    assert all[..|e| + 1 + |t|] == e + [0] + t && all[|e| + 1 + |t|..] == w;
    SliceSplits(b, from, e + [0] + t, |e| + 1);
    assert (e + [0] + t)[..|e| + 1] == e + [0] && (e + [0] + t)[|e| + 1..] == t;
    SliceSplits(b, from, e + [0], |e|);
    assert (e + [0])[..|e|] == e && (e + [0])[|e|..] == [0];
    assert b[from + |e|] == b[from + |e|..from + |e| + 1][0];
  }

  /** The match is in the value. */
  lemma FoundInValue(b: seq<byte>, index: nat, owner: seq<CString>, key: CString, len: nat, labels: seq<LabelText>,
                     strings: seq<CString>)
    requires AllPrintable(owner) && Printable(key) && |labels| > 0 && TakenFor(labels, strings)
    requires Printable(strings[0]) && strings[0] !in owner && |strings[0]| + 1 < len < 256
    requires index <= |b| && index >= 12 && b[12..index] == Enc(owner) + [0] + Between(key, len) + Wire(labels)
    requires forall k :: 0 <= k < 12 ==> b[k] == if k == 2 then 0x84 else 0
    ensures var at := 12 + |Enc(owner)| + 1 + |Between(key, len)|;
            && FindMatch(b, 0, index, strings) == Some(at) && index == at + |Wire(labels)|
            && b[at..at + |Wire(labels)|] == Wire(labels)
  {
    hide Matches, Between, Enc, Wire, Fold;
    var e, t, w := Enc(owner), Between(key, len), Wire(labels);
    var at := 12 + |e| + 1 + |t|;
    Pieces(b, 12, e, t, w);
    SkipNonMatches(b, 0, 12, index, strings);
    NoneInLabels(b, 12, owner, strings);
    NoneBefore(b, 12, 12 + |e|, index, strings);
    SkipNonMatches(b, 12 + |e|, 12 + |e| + 1, index, strings);
    WireNotEmpty(labels);
    NoneBetween(b, 12 + |e| + 1, key, len, strings);
    NoneBefore(b, 12 + |e| + 1, at, index, strings);
    SpelledMatches(b, at, labels, strings);
  }

  lemma WireNotEmpty(labels: seq<LabelText>)
    ensures |Wire(labels)| >= 1
  {}

  /** For every such service: once a TXT record whose value spells its name with a further label is in the packet, a
   * pointer into that value is written for the service's name, and reads as the longer name. */
  lemma LongerNameTaken(o: Out, owner: seq<CString>, key: CString, instance: LabelText, service: LabelText,
                        proto: LabelText,
                        extra: LabelText)
    requires Begun(o, []) && AllPrintable(owner) && NoRepeats(owner) && |owner| == 4 && instance !in owner
    requires Printable(key)
    requires ServiceParts(instance, service, proto) && AllPrintable([instance, service, proto, LOCAL, extra])
    ensures var labels := [instance, service, proto, LOCAL, extra]; var strings := [instance, service, proto, LOCAL];
            var (o', n) := W.AppendRecord(o, Spelling(owner, key, labels));
            && n > 0 && GoodLabels(strings) && Fits(o', strings)
            && LayoutOf(o', strings).at == Some(W.AppendName(o, owner).0.index + 12 + |key|)
            && !ReadsBack(Fqdn(o', strings).0.Written(), o'.index, strings)
            && var w := Walk(Fqdn(o', strings).0.Written(), o'.index, o'.index, 0);
               w.Some? && Labels(w.value.items) == labels
  {
    hide Enc, Begun, Fqdn, FindMatch, Walk, Fold, TakenFor, Wire, Between, Spelling, W.AppendRecord;
    var labels := [instance, service, proto, LOCAL, extra];
    var strings := [instance, service, proto, LOCAL];
    PrintableIsGood(labels);
    assert GoodLabels([extra]) by { assert labels[4] == extra; }
    LongerTaken(instance, service, proto, extra);
    SpellingGoesIn(o, owner, key, labels);
    BeginsAt12(o);
    var o' := W.AppendRecord(o, Spelling(owner, key, labels)).0;
    var len := |key| + 2 + |Wire(labels)|;
    FoundInValue(o'.bytes, o'.index, owner, key, len, labels, strings);
    BetweenSize(key, len);
    var at := 12 + |Enc(owner)| + 1 + |Between(key, len)|;
    assert strings == labels[..4];
    PrintableIsGood(strings);
    Pointed(o', strings, at);
    PointedTo(o', strings, at);
    var q := Fqdn(o', strings).0.Written();
    assert q == o'.Written() + U16(0xC000 + at);
    assert q[at..at + |Wire(labels)|] == o'.bytes[at..at + |Wire(labels)|];
    assert q[o'.index..o'.index + 2] == U16(0xC000 + at);
    PointerReads(q, at, o'.index, labels);
  }

  lemma BetweenSize(key: CString, n: nat)
    ensures |Between(key, n)| == 12 + |key|
  {}

  lemma Pointed(o: Out, strings: seq<CString>, at: nat)
    requires o.Valid() && strings != [] && GoodLabels(strings) && FindMatch(o.bytes, 0, o.index, strings) == Some(at)
    requires o.index + 1 < MAX_PACKET
    ensures Fits(o, strings) && LayoutOf(o, strings).at == Some(at)
  {
    hide FindMatch;
  }
}
