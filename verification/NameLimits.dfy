/** Which candidates append_fqdn accepts that the reader does not read as the name being written: those with a label
 * the reader drops. */
module NameLimits {
  import opened Bytes
  import opened NameReader
  import opened NameRoundTrip

  lemma {:induction false} HostOnlyGrows(st: NameState, items: seq<Item>)
    requires st.Valid() && st.parts >= 1
    ensures |st.host| <= |Fold(st, items).host|
    decreases |items|
  {
    if items != [] {
      HostOnlyGrows(Absorb(st, items[0]), items[1..]);
    }
  }

  /** With no "_sub" label, no fifth label, and nothing joined to the host, every label is stored. */
  lemma {:induction false} EveryLabelStored(st: NameState, items: seq<Item>)
    requires st.Valid() && st.parts >= 1 && |st.host| <= MAX_LABEL
    requires st.invalid ==> Labels(items) == []
    requires |Fold(st, items).host| == |st.host|
    requires st.parts + |Labels(items)| <= 4
    requires forall k :: 0 <= k < |Labels(items)| ==> !EqNoCase(Labels(items)[k], SUB)
    ensures Fold(st, items).parts == st.parts + |Labels(items)|
    decreases |items|
  {
    if items != [] {
      var st' := Absorb(st, items[0]);
      HostOnlyGrows(st', items[1..]);
      if items[0].Label? {
        assert Labels(items)[0] == items[0].text && Labels(items)[1..] == Labels(items[1..]);
      }
      assert st'.host == st.host;
      assert forall k :: 0 <= k < |Labels(items[1..])| ==> !EqNoCase(Labels(items[1..])[k], SUB);
      EveryLabelStored(st', items[1..]);
    }
  }

  /** The labels the reader drops, in terms of what is in the candidate: a candidate that matched in
   * every part is read whole if and only if it has no "_sub" label and at most four labels. */
  lemma ReadWhole(items: seq<Item>, strings: seq<CString>)
    requires strings != [] && 1 <= |strings[0]| <= MAX_LABEL && !EqNoCase(strings[0], SUB)
    requires items != [] && items[0] == Label(strings[0])
    requires Fold(EMPTY_NAME, items).parts == |strings| <= 4
    requires EqNoCase(strings[0], Fold(EMPTY_NAME, items).host)
    ensures |Labels(items)| == |strings| <==>
            |Labels(items)| <= 4 && forall k :: 0 <= k < |Labels(items)| ==> !EqNoCase(Labels(items)[k], SUB)
  {
    FoldStored(EMPTY_NAME, items);
    if |Labels(items)| <= 4 && forall k :: 0 <= k < |Labels(items)| ==> !EqNoCase(Labels(items)[k], SUB) {
      var st := Absorb(EMPTY_NAME, items[0]);
      assert st.parts == 1 && st.host == strings[0];
      assert Labels(items)[1..] == Labels(items[1..]);
      assert forall k :: 0 <= k < |Labels(items[1..])| ==> !EqNoCase(Labels(items[1..])[k], SUB);
      EveryLabelStored(st, items[1..]);
    }
  }

  // ---------- Names written in full ----------

  /** A name as it stands uncompressed on the wire. */
  function Wire(labels: seq<LabelText>): (w: seq<byte>)
    ensures 1 <= |w| <= 1 + 64 * |labels|
  {
    if labels == [] then [0] else [|labels[0]|] + labels[0] + Wire(labels[1..])
  }

  lemma {:induction false} WireReads(p: seq<byte>, seg: nat, pos: nat, labels: seq<LabelText>)
    requires pos <= |p| && p[pos..] == Wire(labels) && GoodLabels(labels)
    ensures Walk(p, seg, pos, 0) == Some(Walked(|p|, AsItems(labels), true))
    decreases |labels|
  {
    hide Walk, CStr;
    assert forall i :: 0 <= i < |Wire(labels)| ==> p[pos + i] == Wire(labels)[i];
    if labels == [] {
      EndStep(p, seg, pos, 0);
    } else {
      var after := pos + 1 + |labels[0]|;
      assert p[pos] == |labels[0]|;
      assert p[pos + 1..after] == p[pos..][1..1 + |labels[0]|] == labels[0];
      assert p[after..] == p[pos..][1 + |labels[0]|..] == Wire(labels[1..]);
      LabelStep(p, seg, pos, 0);
      WireReads(p, seg, after, labels[1..]);
    }
  }

  /** The parts match although the labels are others: the pointer is taken. */
  predicate TakenFor(labels: seq<LabelText>, strings: seq<CString>) {
    var st := Fold(EMPTY_NAME, AsItems(labels));
    && GoodLabels(labels) && GoodLabels(strings) && labels != [] && |strings| == 4 && labels[0] == strings[0]
    && st.parts == 4
    && st.host == strings[0] && st.service == strings[1] && st.proto == strings[2] && st.domain == strings[3]
  }

  lemma OneByOne(strings: seq<CString>)
    requires forall i :: 0 <= i < |strings| ==> GoodLabels([strings[i]])
    ensures GoodLabels(strings)
  {
    forall i | 0 <= i < |strings|
      ensures 1 <= |strings[i]| <= MAX_LABEL && 0 !in strings[i]
    {
      assert [strings[i]][0] == strings[i];
    }
  }

  predicate ServiceParts(instance: CString, service: CString, proto: CString) {
    && GoodLabels([instance]) && GoodLabels([service]) && GoodLabels([proto])
    && service != [] && service[0] == UNDERSCORE
    && !EqNoCase(instance, SUB) && !EqNoCase(service, SUB) && !EqNoCase(proto, SUB)
  }

  lemma FixedLabels()
    ensures EqNoCase(SUB, SUB) && EqNoCase(LOCAL, LOCAL) && !EqNoCase(LOCAL, SUB)
    ensures GoodLabels([SUB]) && GoodLabels([LOCAL])
  {}

  lemma PartsOf(instance: LabelText, rest: seq<LabelText>, st: NameState)
    requires |rest| >= 3 && rest[2] == LOCAL && ServiceParts(instance, rest[0], rest[1])
    requires st == NameState(instance, [], [], [], 1, st.sub, false)
    ensures Fold(st, AsItems(rest)) ==
            Fold(NameState(instance, rest[0], rest[1], LOCAL, 4, st.sub, false), AsItems(rest[3..]))
  {
    hide Fold, EqNoCase;
    var s1 := NameState(instance, rest[0], [], [], 2, st.sub, false);
    var s2 := NameState(instance, rest[0], rest[1], [], 3, st.sub, false);
    FixedLabels();
    FoldLabel(st, rest);
    FoldLabel(s1, rest[1..]);
    FoldLabel(s2, rest[2..]);
    assert rest[1..][1..] == rest[2..] && rest[2..][1..] == rest[3..];
  }
}
