/** What append_fqdn writes, the reader reads back: exactly when, and for whole packets. */
module NameRoundTrip {
  import opened Bytes
  import opened NameReader
  import opened NameWriter

  // ---------- Labels and pointers of a walk ----------

  function Labels(items: seq<Item>): seq<LabelText> {
    if items == [] then []
    else if items[0].Label? then [items[0].text] + Labels(items[1..])
    else Labels(items[1..])
  }

  function Hops(items: seq<Item>): nat {
    if items == [] then 0 else (if items[0].Hop? then 1 else 0) + Hops(items[1..])
  }

  function AsItems(labels: seq<LabelText>): seq<Item> {
    if labels == [] then [] else [Label(labels[0])] + AsItems(labels[1..])
  }

  lemma {:induction false} LabelsOfItems(labels: seq<LabelText>)
    ensures Labels(AsItems(labels)) == labels
    decreases |labels|
  {
    if labels != [] {
      LabelsOfItems(labels[1..]);
      assert AsItems(labels)[1..] == AsItems(labels[1..]);
    }
  }

  lemma FoldLabel(st: NameState, labels: seq<LabelText>)
    requires st.Valid()
    ensures Fold(st, AsItems(labels)) ==
            if labels == [] then st else Fold(Absorb(st, Label(labels[0])), AsItems(labels[1..]))
  {
    assert labels != [] ==> AsItems(labels)[1..] == AsItems(labels[1..]);
  }

  /** A part is stored for at most one label; when as many parts as labels were stored,
   * no label was dropped or joined, and each part is its label. */
  lemma {:induction false} FoldStored(st: NameState, items: seq<Item>)
    requires st.Valid()
    ensures var r := Fold(st, items);
            && st.parts <= r.parts <= st.parts + |Labels(items)|
            && (r.parts == st.parts + |Labels(items)| ==>
                  && (forall j :: 0 <= j < st.parts ==> r.Field(j) == st.Field(j))
                  && (forall k :: 0 <= k < |Labels(items)| ==>
                        r.Field(st.parts + k) == Labels(items)[k] && !EqNoCase(Labels(items)[k], SUB)))
    decreases |items|
  {
    if items != [] {
      var st' := Absorb(st, items[0]);
      FoldStored(st', items[1..]);
      var r := Fold(st, items);
      if items[0].Label? && r.parts == st.parts + |Labels(items)| {
        assert st'.parts == st.parts + 1;
        assert st'.Field(st.parts) == items[0].text;
        forall k | 0 <= k < |Labels(items)|
          ensures r.Field(st.parts + k) == Labels(items)[k] && !EqNoCase(Labels(items)[k], SUB)
        {
          if k > 0 {
            assert Labels(items)[k] == Labels(items[1..])[k - 1];
            assert r.Field(st'.parts + (k - 1)) == Labels(items[1..])[k - 1];
          }
        }
      }
    }
  }

  lemma {:induction false} HopsBound(p: seq<byte>, seg: nat, pos: nat, depth: nat)
    requires depth <= 16 && Walk(p, seg, pos, depth).Some?
    ensures depth + Hops(Walk(p, seg, pos, depth).value.items) <= 16
    decreases seg, |p| - pos
  {
    if pos < |p| && p[pos] != 0 {
      if p[pos] < 0xC0 {
        HopsBound(p, seg, pos + 1 + p[pos], depth);
      } else {
        var at := Target(p[pos], p[pos + 1]);
        HopsBound(p, at, at, depth + 1);
      }
    }
  }

  /** The depth a walk starts at only matters through the limit on pointers. */
  lemma {:induction false} DepthShift(p: seq<byte>, seg: nat, pos: nat, depth: nat, depth': nat)
    requires Walk(p, seg, pos, depth).Some?
    requires depth' + Hops(Walk(p, seg, pos, depth).value.items) <= MAX_HOPS
    ensures Walk(p, seg, pos, depth') == Walk(p, seg, pos, depth)
    decreases seg, |p| - pos
  {
    if pos < |p| && p[pos] != 0 {
      if p[pos] < 0xC0 {
        DepthShift(p, seg, pos + 1 + p[pos], depth, depth');
      } else {
        var at := Target(p[pos], p[pos + 1]);
        DepthShift(p, at, at, depth + 1, depth' + 1);
      }
    }
  }

  // ---------- Which bytes a walk depends on ----------

  function Range(lo: nat, hi: nat): (r: set<nat>)
    ensures forall i :: i in r <==> lo <= i < hi
    decreases hi - lo
  {
    if lo >= hi then {} else {lo} + Range(lo + 1, hi)
  }

  /** The offsets a walk reads. */
  function Touched(p: seq<byte>, seg: nat, pos: nat, depth: nat): set<nat>
    decreases seg, |p| - pos
  {
    if pos >= |p| then {}
    else if p[pos] == 0 then {pos}
    else if p[pos] < 0xC0 then
      var after := pos + 1 + p[pos];
      Range(pos, after) + (if p[pos] > MAX_LABEL || after > |p| then {} else Touched(p, seg, after, depth))
    else if pos + 1 >= |p| || Target(p[pos], p[pos + 1]) >= seg || depth >= MAX_HOPS then {}
    else
      var at := Target(p[pos], p[pos + 1]);
      {pos, pos + 1} + Touched(p, at, at, depth + 1)
  }

  predicate LabelAt(p: seq<byte>, pos: nat) {
    pos < |p| && 0 < p[pos] <= 63 && pos + 1 + p[pos] <= |p|
  }

  predicate PointerAt(p: seq<byte>, seg: nat, pos: nat, depth: nat) {
    pos + 1 < |p| && p[pos] >= 0xC0 && Target(p[pos], p[pos + 1]) < seg && depth < 16
  }

  lemma LabelStep(p: seq<byte>, seg: nat, pos: nat, depth: nat)
    requires LabelAt(p, pos)
    ensures var after := pos + 1 + p[pos];
            && Walk(p, seg, pos, depth) == Prepend(Label(CStr(p[pos + 1..after])), Walk(p, seg, after, depth))
            && Touched(p, seg, pos, depth) == Range(pos, after) + Touched(p, seg, after, depth)
  {}

  lemma PointerStep(p: seq<byte>, seg: nat, pos: nat, depth: nat)
    requires PointerAt(p, seg, pos, depth)
    ensures var at := Target(p[pos], p[pos + 1]);
            && Touched(p, seg, pos, depth) == {pos, pos + 1} + Touched(p, at, at, depth + 1)
            && Walk(p, seg, pos, depth) == match Walk(p, at, at, depth + 1)
                                           case None => None
                                           case Some(w) => Some(Walked(pos + 2, [Hop] + w.items, w.closed))
  {}

  lemma EndStep(p: seq<byte>, seg: nat, pos: nat, depth: nat)
    requires pos < |p| && p[pos] == 0
    ensures Walk(p, seg, pos, depth) == Some(Walked(pos + 1, [], true)) && Touched(p, seg, pos, depth) == {pos}
  {}

  lemma StepKinds(p: seq<byte>, seg: nat, pos: nat, depth: nat)
    requires Walk(p, seg, pos, depth).Some? && Walk(p, seg, pos, depth).value.closed
    ensures pos < |p| && (p[pos] == 0 || LabelAt(p, pos) || PointerAt(p, seg, pos, depth))
  {}

  /** A name that ends in a zero byte reads the same in any packet with the same bytes at
   * the offsets it reads. */
  lemma {:induction false} SameBytes(p: seq<byte>, q: seq<byte>, seg: nat, pos: nat, depth: nat)
    requires Walk(p, seg, pos, depth).Some? && Walk(p, seg, pos, depth).value.closed
    requires forall i :: i in Touched(p, seg, pos, depth) ==> i < |p| && i < |q| && p[i] == q[i]
    ensures Walk(q, seg, pos, depth) == Walk(p, seg, pos, depth)
    ensures Touched(q, seg, pos, depth) == Touched(p, seg, pos, depth)
    decreases seg, |p| - pos
  {
    hide Walk, Touched, CStr;
    StepKinds(p, seg, pos, depth);
    if p[pos] == 0 {
      EndStep(p, seg, pos, depth);
      assert pos in Touched(p, seg, pos, depth);
      EndStep(q, seg, pos, depth);
    } else if LabelAt(p, pos) {
      LabelStep(p, seg, pos, depth);
      var after := pos + 1 + p[pos];
      assert forall i :: i in Range(pos, after) ==> i < |q| && p[i] == q[i];
      assert pos in Range(pos, after) && after - 1 in Range(pos, after);
      assert p[pos + 1..after] == q[pos + 1..after];
      LabelStep(q, seg, pos, depth);
      SameBytes(p, q, seg, after, depth);
    } else {
      PointerStep(p, seg, pos, depth);
      assert pos in Touched(p, seg, pos, depth) && pos + 1 in Touched(p, seg, pos, depth);
      PointerStep(q, seg, pos, depth);
      var at := Target(p[pos], p[pos + 1]);
      SameBytes(p, q, at, at, depth + 1);
    }
  }

  lemma {:induction false} TouchedInside(p: seq<byte>, seg: nat, pos: nat, depth: nat)
    requires Walk(p, seg, pos, depth).Some?
    ensures forall i :: i in Touched(p, seg, pos, depth) ==> i < |p|
    decreases seg, |p| - pos
  {
    if pos < |p| && p[pos] != 0 {
      if p[pos] < 0xC0 {
        TouchedInside(p, seg, pos + 1 + p[pos], depth);
      } else {
        var at := Target(p[pos], p[pos + 1]);
        TouchedInside(p, at, at, depth + 1);
      }
    }
  }

  lemma ReadsTheSameAfterMoreBytes(p: seq<byte>, q: seq<byte>, seg: nat, pos: nat, depth: nat)
    requires Walk(p, seg, pos, depth).Some? && Walk(p, seg, pos, depth).value.closed
    requires p <= q
    ensures Walk(q, seg, pos, depth) == Walk(p, seg, pos, depth)
    ensures Touched(q, seg, pos, depth) == Touched(p, seg, pos, depth)
  {
    TouchedInside(p, seg, pos, depth);
    SameBytes(p, q, seg, pos, depth);
  }

  // ---------- How a name is laid out ----------

  predicate GoodLabels(strings: seq<CString>) {
    forall i :: 0 <= i < |strings| ==> 1 <= |strings[i]| <= 63 && 0 !in strings[i]
  }

  /** Where the labels written in full end: `stop` is the buffer there, `left` the strings
   * that are left for a pointer to `at`; with no pointer, a zero byte follows. */
  datatype Layout = Layout(stop: Out, left: seq<CString>, at: Option<nat>)

  function LayoutOf(o: Out, strings: seq<CString>): (l: Layout)
    requires o.Valid() && GoodLabels(strings)
    ensures l.stop.Valid() && o.index <= l.stop.index
    ensures l.at.Some? ==> l.left != [] && FindMatch(l.stop.bytes, 0, l.stop.index, l.left) == l.at
    decreases |strings|
  {
    if strings == [] then Layout(o, [], None)
    else if FindMatch(o.bytes, 0, o.index, strings).Some? then
      Layout(o, strings, FindMatch(o.bytes, 0, o.index, strings))
    else if o.index + |strings[0]| + 1 >= MAX_PACKET then Layout(o, strings, None)
    else LayoutOf(o.Put([|strings[0]|] + strings[0]), strings[1..])
  }

  /** The whole name goes in: every label, and the pointer or the zero byte. */
  predicate Fits(o: Out, strings: seq<CString>)
    requires o.Valid() && GoodLabels(strings)
  {
    var l := LayoutOf(o, strings);
    if l.at.Some? then l.stop.index + 1 < MAX_PACKET else l.left == [] && l.stop.index < MAX_PACKET
  }

  function WireLength(strings: seq<CString>): nat {
    if strings == [] then 1 else 1 + |strings[0]| + WireLength(strings[1..])
  }

  /** Room for the uncompressed name is enough. */
  lemma {:induction false} RoomIsEnough(o: Out, strings: seq<CString>)
    requires o.Valid() && GoodLabels(strings)
    requires o.index + WireLength(strings) < 1460
    ensures Fits(o, strings)
    decreases |strings|
  {
    if strings != [] && FindMatch(o.bytes, 0, o.index, strings) == None {
      assert WireLength(strings[1..]) >= 1;
      RoomIsEnough(o.Put([|strings[0]|] + strings[0]), strings[1..]);
    }
  }

  /** One label of a name, written in full. */
  lemma WritesLabel(o: Out, strings: seq<CString>)
    requires o.Valid() && GoodLabels(strings) && strings != []
    requires FindMatch(o.bytes, 0, o.index, strings) == None && o.index + |strings[0]| + 1 < MAX_PACKET
    ensures var next := o.Put([|strings[0]|] + strings[0]);
            && Fqdn(o, strings) == (Fqdn(next, strings[1..]).0, 1 + |strings[0]| + Fqdn(next, strings[1..]).1)
            && LayoutOf(o, strings) == LayoutOf(next, strings[1..])
  {
    hide FindMatch, Matches, Reads, U16, NameWriter.Out.Put, NameWriter.Out.Written;
    assert strings[0][..Len8(strings[0])] == strings[0];
  }

  /** For labels the wire can carry, the returned length is the growth of the packet, even when
   * the name did not fit; earlier bytes and bytes past the new index are left alone. */
  lemma {:induction false} FqdnGrowth(o: Out, strings: seq<CString>)
    requires o.Valid() && GoodLabels(strings)
    ensures var (o', n) := Fqdn(o, strings);
            && o'.index == o.index + n <= MAX_PACKET
            && o.Written() <= LayoutOf(o, strings).stop.Written() <= o'.Written()
            && forall k :: o'.index <= k < MAX_PACKET ==> o'.bytes[k] == o.bytes[k]
    decreases |strings|
  {
    hide FindMatch;
    if strings != [] && FindMatch(o.bytes, 0, o.index, strings) == None && o.index + |strings[0]| + 1 < MAX_PACKET {
      hide Fqdn, LayoutOf, NameWriter.Out.Put;
      WritesLabel(o, strings);
      FqdnGrowth(o.Put([|strings[0]|] + strings[0]), strings[1..]);
    }
  }

  // ---------- The round trip of one name ----------

  /** Labels in front of what follows. */
  function WithLabels(strings: seq<CString>, rest: Option<Walked>): Option<Walked>
    requires GoodLabels(strings)
  {
    if strings == [] then rest else Prepend(Label(strings[0]), WithLabels(strings[1..], rest))
  }

  lemma {:induction false} WithLabelsMeaning(strings: seq<CString>, rest: Walked)
    requires GoodLabels(strings)
    ensures var r := WithLabels(strings, Some(rest));
            && r.Some? && r.value.next == rest.next && r.value.closed == rest.closed
            && Labels(r.value.items) == strings + Labels(rest.items)
            && Hops(r.value.items) == Hops(rest.items)
    decreases |strings|
  {
    if strings == [] {
      assert strings + Labels(rest.items) == Labels(rest.items);
    } else {
      WithLabelsMeaning(strings[1..], rest);
      var tail := WithLabels(strings[1..], Some(rest)).value;
      assert ([Label(strings[0])] + tail.items)[1..] == tail.items;
      assert [strings[0]] + (strings[1..] + Labels(rest.items)) == strings + Labels(rest.items);
    }
  }

  lemma {:induction false} LayoutLeft(o: Out, strings: seq<CString>)
    requires o.Valid() && GoodLabels(strings)
    ensures var left := LayoutOf(o, strings).left; |left| <= |strings| && left == strings[|strings| - |left|..]
    decreases |strings|
  {
    hide FindMatch, NameWriter.Out.Put;
    if strings != [] && FindMatch(o.bytes, 0, o.index, strings) == None && o.index + |strings[0]| + 1 < MAX_PACKET {
      LayoutLeft(o.Put([|strings[0]|] + strings[0]), strings[1..]);
    }
  }

  lemma WithLabelsStep(strings: seq<CString>, k: nat, rest: Option<Walked>)
    requires GoodLabels(strings) && k <= |strings|
    ensures WithLabels(strings[..k], rest) ==
            if k == 0 then rest else Prepend(Label(strings[0]), WithLabels(strings[1..][..k - 1], rest))
  {
    assert k > 0 ==> strings[..k][1..] == strings[1..][..k - 1];
  }

  predicate WritesNoLabel(o: Out, strings: seq<CString>)
    requires o.Valid()
  {
    strings == [] || FindMatch(o.bytes, 0, o.index, strings).Some? || o.index + |strings[0]| + 1 >= MAX_PACKET
  }

  lemma LayoutStops(o: Out, strings: seq<CString>)
    requires o.Valid() && GoodLabels(strings) && WritesNoLabel(o, strings)
    ensures LayoutOf(o, strings).stop == o && LayoutOf(o, strings).left == strings
  {
    hide FindMatch, Matches, Reads;
  }

  /** The first label of a name is found where it was written, and the rest follows. */
  lemma LabelIsThere(o: Out, strings: seq<CString>, q: seq<byte>)
    requires o.Valid() && GoodLabels(strings) && !WritesNoLabel(o, strings)
    requires LayoutOf(o, strings).stop.Written() <= q
    ensures var next := o.Put([|strings[0]|] + strings[0]);
            && LayoutOf(o, strings) == LayoutOf(next, strings[1..])
            && LabelAt(q, o.index) && next.index == o.index + 1 + q[o.index] <= LayoutOf(o, strings).stop.index
            && CStr(q[o.index + 1..next.index]) == strings[0]
            && |LayoutOf(o, strings).left| < |strings|
  {
    hide Walk, LayoutOf, FindMatch, NameWriter.Out.Put, Fqdn;
    var data := [|strings[0]|] + strings[0];
    var next := o.Put(data);
    WritesLabel(o, strings);
    FqdnGrowth(next, strings[1..]);
    LayoutLeft(next, strings[1..]);
    assert next.Written() == o.Written() + data <= q;
    assert q[o.index..next.index] == data;
    assert q[o.index] == data[0] && q[o.index + 1..next.index] == data[1..] == strings[0];
  }

  /** The labels written in full are read in order, from any packet that starts with them. */
  lemma {:induction false} ReadsWrittenLabels(o: Out, strings: seq<CString>, q: seq<byte>, seg: nat)
    requires o.Valid() && GoodLabels(strings)
    requires LayoutOf(o, strings).stop.Written() <= q
    ensures var l := LayoutOf(o, strings);
            && |l.left| <= |strings|
            && Walk(q, seg, o.index, 0) == WithLabels(strings[..|strings| - |l.left|], Walk(q, seg, l.stop.index, 0))
    decreases |strings|
  {
    hide Walk, CStr, WithLabels, LayoutOf, FindMatch, NameWriter.Out.Put, NameWriter.Out.Written, Fqdn;
    LayoutLeft(o, strings);
    var l := LayoutOf(o, strings);
    WithLabelsStep(strings, |strings| - |l.left|, Walk(q, seg, l.stop.index, 0));
    if WritesNoLabel(o, strings) {
      LayoutStops(o, strings);
    } else {
      LabelIsThere(o, strings, q);
      LabelStep(q, seg, o.index, 0);
      ReadsWrittenLabels(o.Put([|strings[0]|] + strings[0]), strings[1..], q, seg);
    }
  }

  function Ending(l: Layout): seq<byte> {
    if l.at.Some? then U16(0xC000 + l.at.value) else [0]
  }

  lemma {:induction false} FqdnEnding(o: Out, strings: seq<CString>)
    requires o.Valid() && GoodLabels(strings) && Fits(o, strings)
    ensures var l := LayoutOf(o, strings); Fqdn(o, strings).0 == l.stop.Put(Ending(l))
    decreases |strings|
  {
    hide FindMatch, Matches, Reads, NameWriter.Out.Put, NameWriter.Out.Written, U16;
    if !WritesNoLabel(o, strings) {
      hide Fqdn, LayoutOf;
      WritesLabel(o, strings);
      FqdnEnding(o.Put([|strings[0]|] + strings[0]), strings[1..]);
    }
  }

  /** The name at `start` ends the packet, in a zero byte, and its labels are `strings` up to case. */
  predicate ReadsBack(p: seq<byte>, start: nat, strings: seq<CString>) {
    match Walk(p, start, start, 0)
    case None => false
    case Some(w) => w.closed && w.next == |p| && EqAllNoCase(Labels(w.items), strings)
  }

  /** The candidate the writer settled on, read within the bytes written when it was found. */
  function Candidate(l: Layout): Option<Walked>
    requires l.stop.Valid() && l.at.Some?
  {
    Walk(l.stop.Written(), l.at.value, l.at.value, 0)
  }

  /** What append_fqdn does not check of a candidate: it begins before the name being written, it
   * leaves room for one more pointer, and the reader dropped none of its labels. */
  predicate Clean(l: Layout, start: nat)
    requires l.stop.Valid() && l.at.Some?
  {
    match Candidate(l)
    case None => false
    case Some(c) => l.at.value < start && Hops(c.items) < 16 && |Labels(c.items)| == |l.left|
  }

  /** A candidate that reads to as many labels as are left has just those labels. */
  lemma CandidateLabels(l: Layout)
    requires l.stop.Valid() && l.at.Some? && l.left != []
    requires l.at.value < l.stop.index && Matches(l.stop.bytes, l.at.value, l.left)
    requires Candidate(l).Some? && Candidate(l).value.closed
    requires |Labels(Candidate(l).value.items)| == |l.left|
    ensures EqAllNoCase(Labels(Candidate(l).value.items), l.left)
  {
    var at := l.at.value;
    var c := Candidate(l).value;
    hide Walk, Fold, CStr;
    assert l.stop.Written() <= l.stop.bytes;
    ReadsTheSameAfterMoreBytes(l.stop.Written(), l.stop.bytes, at, at, 0);
    assert ReadName(l.stop.bytes, at) == Some((c.next, Fold(EMPTY_NAME, c.items)));
    FoldStored(EMPTY_NAME, c.items);
    var st := Fold(EMPTY_NAME, c.items);
    forall i | 0 <= i < |l.left|
      ensures EqNoCase(Labels(c.items)[i], l.left[i])
    {
      assert EqNoCase(l.left[i], st.Field(i));
      assert st.Field(0 + i) == Labels(c.items)[i];
    }
  }

  /** The walk over what is written last: a pointer follows its candidate, one pointer deeper. */
  lemma ReadsEnding(l: Layout, seg: nat)
    requires l.stop.Valid() && l.stop.index + 2 <= MAX_PACKET && l.at.Some? && l.at.value < l.stop.index
    requires Candidate(l).Some? && Candidate(l).value.closed
    ensures var q := l.stop.Written() + Ending(l); var c := Candidate(l).value;
            Walk(q, seg, l.stop.index, 0) ==
            if l.at.value < seg && Hops(c.items) < MAX_HOPS
            then Some(Walked(|q|, [Hop] + c.items, true))
            else None
  {
    hide CStr;
    var at := l.at.value;
    var w := l.stop.Written();
    var q := w + Ending(l);
    ReadsTheSameAfterMoreBytes(w, q, at, at, 0);
    assert q[l.stop.index] == 0xC0 + at / 256 && q[l.stop.index + 1] == at % 256;
    assert Target(q[l.stop.index], q[l.stop.index + 1]) == at;
    if Hops(Candidate(l).value.items) < MAX_HOPS {
      DepthShift(q, at, at, 0, 1);
    } else if Walk(q, at, at, 1).Some? {
      HopsBound(q, at, at, 1);
      DepthShift(q, at, at, 1, 0);
    }
  }

  /** The exact condition of the round trip, for every packet content and every name that fits: with
   * no pointer it always reads back; with a pointer whose candidate ends inside the bytes written so
   * far, it reads back if and only if the candidate is clean. */
  lemma RoundTrip(o: Out, strings: seq<CString>)
    requires o.Valid() && GoodLabels(strings) && Fits(o, strings)
    requires var l := LayoutOf(o, strings); l.at.Some? ==> Candidate(l).Some? && Candidate(l).value.closed
    ensures var l := LayoutOf(o, strings); var o' := Fqdn(o, strings).0;
            && o.Written() <= o'.Written()
            && (ReadsBack(o'.Written(), o.index, strings) <==> l.at.None? || Clean(l, o.index))
  {
    hide Walk, CStr, WithLabels, FindMatch, Matches, LayoutOf, Fqdn, NameWriter.Out.Put;
    var l := LayoutOf(o, strings);
    var o' := Fqdn(o, strings).0;
    var q := o'.Written();
    var start := o.index;
    FqdnGrowth(o, strings);
    FqdnEnding(o, strings);
    ReadsWrittenLabels(o, strings, q, start);
    LayoutLeft(o, strings);
    var own := strings[..|strings| - |l.left|];
    assert strings == own + l.left;
    if l.at.Some? {
      ReadsEnding(l, start);
      var c := Candidate(l).value;
      if l.at.value < start && Hops(c.items) < MAX_HOPS {
        WithLabelsMeaning(own, Walked(|q|, [Hop] + c.items, true));
        assert ([Hop] + c.items)[1..] == c.items;
        if |Labels(c.items)| == |l.left| {
          CandidateLabels(l);
          EqAllAppend(own, Labels(c.items), l.left);
        }
      } else {
        WithLabelsNone(own);
      }
    } else {
      EndStep(q, start, l.stop.index, 0);
      WithLabelsMeaning(own, Walked(|q|, [], true));
      assert own + [] == strings;
      EqAllAppend(strings, [], []);
    }
  }

  /** The candidate as it reads once the pointer to it stands behind the packet: it begins before the name being
   * written, leaves room for one more pointer, and has the labels that are left. */
  predicate Followed(l: Layout, start: nat)
    requires l.stop.Valid() && l.at.Some?
  {
    match Walk(l.stop.Written() + Ending(l), l.at.value, l.at.value, 0)
    case None => false
    case Some(c) =>
      l.at.value < start && c.closed && Hops(c.items) < 16 && EqAllNoCase(Labels(c.items), l.left)
  }

  /** The pointer written last, whatever the candidate. */
  lemma PointerIsLast(l: Layout, seg: nat)
    requires l.stop.Valid() && l.stop.index + 2 <= MAX_PACKET && l.at.Some? && l.at.value < l.stop.index
    ensures var q := l.stop.Written() + Ending(l); var at := l.at.value; var c := Walk(q, at, at, 0);
            Walk(q, seg, l.stop.index, 0) ==
            if at < seg && c.Some? && Hops(c.value.items) < MAX_HOPS
            then Some(Walked(|q|, [Hop] + c.value.items, c.value.closed))
            else None
  {
    var at := l.at.value;
    var q := l.stop.Written() + Ending(l);
    assert q[l.stop.index] == 0xC0 + at / 256 && q[l.stop.index + 1] == at % 256;
    assert Target(q[l.stop.index], q[l.stop.index + 1]) == at;
    if Walk(q, at, at, 0).Some? && Hops(Walk(q, at, at, 0).value.items) < MAX_HOPS {
      DepthShift(q, at, at, 0, 1);
    } else if Walk(q, at, at, 1).Some? {
      HopsBound(q, at, at, 1);
      DepthShift(q, at, at, 1, 0);
    }
  }

  /** The round trip of every name that fits, wherever its match ends: with no pointer it always reads back; with a
   * pointer it reads back if and only if the candidate, followed from there, has the labels that are left. */
  lemma RoundTripFollowed(o: Out, strings: seq<CString>)
    requires o.Valid() && GoodLabels(strings) && Fits(o, strings)
    ensures var l := LayoutOf(o, strings); var o' := Fqdn(o, strings).0;
            && o.Written() <= o'.Written()
            && (ReadsBack(o'.Written(), o.index, strings) <==> l.at.None? || Followed(l, o.index))
  {
    hide Walk, CStr, WithLabels, FindMatch, Matches, LayoutOf, Fqdn, NameWriter.Out.Put;
    var l := LayoutOf(o, strings);
    var q := Fqdn(o, strings).0.Written();
    FqdnGrowth(o, strings);
    FqdnEnding(o, strings);
    ReadsWrittenLabels(o, strings, q, o.index);
    LayoutLeft(o, strings);
    var own := strings[..|strings| - |l.left|];
    assert strings == own + l.left;
    if l.at.Some? {
      PointerIsLast(l, o.index);
      var c := Walk(q, l.at.value, l.at.value, 0);
      if l.at.value < o.index && c.Some? && Hops(c.value.items) < MAX_HOPS {
        var items := [Hop] + c.value.items;
        WithLabelsMeaning(own, Walked(|q|, items, c.value.closed));
        assert items[1..] == c.value.items;
        EqAllOwn(own, Labels(c.value.items), l.left);
      } else {
        WithLabelsNone(own);
      }
    } else {
      EndStep(q, o.index, l.stop.index, 0);
      WithLabelsMeaning(own, Walked(|q|, [], true));
      assert own + [] == strings;
      EqAllAppend(strings, [], []);
    }
  }

  lemma EqAllOwn(a: seq<CString>, b: seq<CString>, c: seq<CString>)
    ensures EqAllNoCase(a + b, a + c) <==> EqAllNoCase(b, c)
  {
    if EqAllNoCase(a + b, a + c) {
      forall i | 0 <= i < |b|
        ensures EqNoCase(b[i], c[i])
      {
        assert (a + b)[|a| + i] == b[i] && (a + c)[|a| + i] == c[i];
      }
    }
  }

  /** A walk that runs off the bytes written meets the pointer, which goes no further back. */
  lemma {:induction false} RunsIntoPointer(w: seq<byte>, q: seq<byte>, seg: nat, pos: nat, depth: nat, at: nat)
    requires Walk(w, seg, pos, depth).Some? && !Walk(w, seg, pos, depth).value.closed
    requires pos <= |w| && seg <= |w| && seg <= at < 0x4000 && q == w + U16(0xC000 + at)
    ensures Walk(q, seg, pos, depth) == None
    decreases seg, |w| - pos
  {
    hide Walk, CStr, U16;
    if pos == |w| {
      MeetsPointer(w, q, seg, depth, at);
    } else {
      OpenSteps(w, seg, pos, depth);
      assert q[pos] == w[pos];
      if LabelAt(w, pos) {
        var after := pos + 1 + w[pos];
        LabelStep(w, seg, pos, depth);
        LabelStep(q, seg, pos, depth);
        assert q[pos + 1..after] == w[pos + 1..after];
        RunsIntoPointer(w, q, seg, after, depth, at);
      } else {
        assert q[pos + 1] == w[pos + 1];
        PointerStep(w, seg, pos, depth);
        PointerStep(q, seg, pos, depth);
        var to := Target(w[pos], w[pos + 1]);
        RunsIntoPointer(w, q, to, to, depth + 1, at);
      }
    }
  }

  lemma MeetsPointer(w: seq<byte>, q: seq<byte>, seg: nat, depth: nat, at: nat)
    requires seg <= at < 0x4000 && q == w + U16(0xC000 + at)
    ensures Walk(q, seg, |w|, depth) == None
  {
    assert q[|w|] == 0xC0 + at / 256 && q[|w| + 1] == at % 256;
  }

  lemma OpenSteps(p: seq<byte>, seg: nat, pos: nat, depth: nat)
    requires Walk(p, seg, pos, depth).Some? && !Walk(p, seg, pos, depth).value.closed && pos < |p|
    ensures LabelAt(p, pos) || PointerAt(p, seg, pos, depth)
  {}

  /** A candidate that reads to the end of the bytes written, without a zero byte, is never read back. */
  lemma RunsOff(o: Out, strings: seq<CString>)
    requires o.Valid() && GoodLabels(strings) && Fits(o, strings) && LayoutOf(o, strings).at.Some?
    requires var l := LayoutOf(o, strings); Candidate(l).Some? && !Candidate(l).value.closed
    ensures !ReadsBack(Fqdn(o, strings).0.Written(), o.index, strings)
  {
    hide Walk, FindMatch, Matches, LayoutOf, Fqdn;
    var l := LayoutOf(o, strings);
    RoundTripFollowed(o, strings);
    RunsIntoPointer(l.stop.Written(), l.stop.Written() + Ending(l), l.at.value, l.at.value, 0, l.at.value);
  }

  lemma EqAllAppend(a: seq<CString>, b: seq<CString>, c: seq<CString>)
    requires EqAllNoCase(b, c)
    ensures EqAllNoCase(a + b, a + c)
  {}

  lemma {:induction false} WithLabelsNone(strings: seq<CString>)
    requires GoodLabels(strings)
    ensures WithLabels(strings, None) == None
    decreases |strings|
  {
    if strings != [] {
      WithLabelsNone(strings[1..]);
    }
  }
}
