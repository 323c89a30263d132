/** Names over a whole packet: every name written while a packet is filled still reads back at the
 * end, whatever other bytes are written between the names and patched afterwards. */
module PacketNames {
  import opened Bytes
  import opened NameReader
  import opened NameWriter
  import opened NameRoundTrip
  import opened NameLimits

  /** What a record writer does to the packet: a name, other bytes, or a 16-bit field set later. */
  datatype Write = NameOf(strings: seq<CString>) | Raw(data: seq<byte>) | Patch(at: nat, value: nat)

  datatype WrittenName = WrittenName(start: nat, end: nat, strings: seq<CString>)

  /** The packet, the names written so far, the offsets where one of their labels begins,
   * and the offsets their bytes occupy. */
  datatype Doc = Doc(out: Out, names: seq<WrittenName>, starts: set<nat>, nameBytes: set<nat>)

  const EMPTY_DOC := Doc(Out(seq(MAX_PACKET, _ => 0), 12), [], {}, {})

  /** Every pointer is followed by a label. */
  predicate Alternates(items: seq<Item>) {
    items != [] && forall i :: 0 <= i < |items| && items[i].Hop? ==> i + 1 < |items| && items[i + 1].Label?
  }

  predicate Labelled(items: seq<Item>) {
    Alternates(items) && items[0].Label?
  }

  lemma {:induction false} FewerPointersThanLabels(items: seq<Item>)
    requires Alternates(items)
    ensures Hops(items) <= |Labels(items)|
    ensures items[0].Label? ==> Hops(items) < |Labels(items)|
    decreases |items|
  {
    if |items| > 1 {
      var rest := items[1..];
      forall i | 0 <= i < |rest| && rest[i].Hop?
        ensures i + 1 < |rest| && rest[i + 1].Label?
      {
        assert items[i + 1].Hop?;
      }
      FewerPointersThanLabels(rest);
    }
  }

  /** A name at `at` that ends in a zero byte, made only of bytes that names are read from. */
  predicate SoundName(p: seq<byte>, at: nat, nameBytes: set<nat>) {
    match Walk(p, at, at, 0)
    case None => false
    case Some(w) => w.closed && Touched(p, at, at, 0) <= nameBytes
  }

  function ItemsAt(p: seq<byte>, at: nat): seq<Item> {
    match Walk(p, at, at, 0) case None => [] case Some(w) => w.items
  }

  predicate ReadsAs(p: seq<byte>, n: WrittenName) {
    match Walk(p, n.start, n.start, 0)
    case None => false
    case Some(w) => w.next == n.end && EqAllNoCase(Labels(w.items), n.strings)
  }

  predicate SoundNames(p: seq<byte>, names: seq<WrittenName>, nameBytes: set<nat>) {
    forall i :: 0 <= i < |names| ==> SoundName(p, names[i].start, nameBytes) && ReadsAs(p, names[i])
  }

  predicate Inv(d: Doc) {
    && d.out.Valid()
    && (forall i :: i in d.nameBytes ==> i < d.out.index)
    && SoundNames(d.out.Written(), d.names, d.nameBytes)
  }

  /** The bytes the pointer's candidate is read from. */
  function PointerBytes(l: Layout): set<nat>
    requires l.stop.Valid()
  {
    if l.at.Some? then Touched(l.stop.Written(), l.at.value, l.at.value, 0) else {}
  }

  /** The candidate of a pointer, if one is taken, ends inside the bytes written and is clean: the exact condition
   * under which the name reads back at once. */
  predicate PointsRight(o: Out, strings: seq<CString>)
    requires o.Valid() && GoodLabels(strings)
  {
    var l := LayoutOf(o, strings);
    l.at.Some? ==> Candidate(l).Some? && Candidate(l).value.closed && Clean(l, o.index)
  }

  /** The writer's own step is a correct one: a name fits and reads back at once, other bytes fit, and a field that
   * is set is none of the bytes a name is read from. */
  predicate Allowed(d: Doc, w: Write)
    requires d.out.Valid()
  {
    match w
    case NameOf(strings) => GoodLabels(strings) && strings != [] && Fits(d.out, strings) && PointsRight(d.out, strings)
    case Raw(data) => d.out.index + |data| <= MAX_PACKET
    case Patch(at, value) => at + 1 < d.out.index && at !in d.nameBytes && at + 1 !in d.nameBytes
  }

  /** Where the labels written in full begin. */
  function OwnStarts(o: Out, strings: seq<CString>): set<nat>
    requires o.Valid() && GoodLabels(strings)
    decreases |strings|
  {
    if WritesNoLabel(o, strings) then {}
    else {o.index} + OwnStarts(o.Put([|strings[0]|] + strings[0]), strings[1..])
  }

  function SetU16(b: seq<byte>, at: nat, value: nat): seq<byte>
    requires at + 1 < |b|
  {
    b[at := (value / 256) % 256][at + 1 := value % 256]
  }

  function Do(d: Doc, w: Write): (d': Doc)
    requires d.out.Valid() && Allowed(d, w)
    ensures d'.out.Valid()
  {
    match w
    case NameOf(strings) =>
      var o' := Fqdn(d.out, strings).0;
      Doc(o', d.names + [WrittenName(d.out.index, o'.index, strings)],
          d.starts + OwnStarts(d.out, strings),
          d.nameBytes + (Range(d.out.index, o'.index) + PointerBytes(LayoutOf(d.out, strings))))
    case Raw(data) => d.(out := d.out.Put(data))
    case Patch(at, value) => d.(out := d.out.(bytes := SetU16(d.out.bytes, at, value)))
  }

  // ---------- Names written earlier ----------

  predicate Agree(p: seq<byte>, q: seq<byte>, at: set<nat>) {
    forall i :: i in at ==> i < |p| && i < |q| && p[i] == q[i]
  }

  lemma KeepsName(p: seq<byte>, q: seq<byte>, at: nat, nameBytes: set<nat>, more: set<nat>)
    requires SoundName(p, at, nameBytes) && Agree(p, q, nameBytes) && nameBytes <= more
    ensures SoundName(q, at, more) && Walk(q, at, at, 0) == Walk(p, at, at, 0)
  {
    SameBytes(p, q, at, at, 0);
  }

  lemma KeepsAll(p: seq<byte>, q: seq<byte>, names: seq<WrittenName>, nameBytes: set<nat>, more: set<nat>)
    requires SoundNames(p, names, nameBytes)
    requires Agree(p, q, nameBytes) && nameBytes <= more
    ensures SoundNames(q, names, more)
  {
    hide Walk, Touched;
    forall i | 0 <= i < |names|
      ensures SoundName(q, names[i].start, more) && ReadsAs(q, names[i])
    {
      KeepsName(p, q, names[i].start, nameBytes, more);
    }
  }

  // ---------- The name being written ----------

  /** The offsets read along the labels written in full. */
  lemma {:induction false} TouchesWrittenLabels(o: Out, strings: seq<CString>, q: seq<byte>, seg: nat)
    requires o.Valid() && GoodLabels(strings)
    requires LayoutOf(o, strings).stop.Written() <= q
    ensures var l := LayoutOf(o, strings);
            Touched(q, seg, o.index, 0) == Range(o.index, l.stop.index) + Touched(q, seg, l.stop.index, 0)
    decreases |strings|
  {
    hide Walk, Touched, CStr, LayoutOf, FindMatch, NameWriter.Out.Put, NameWriter.Out.Written, Fqdn;
    if WritesNoLabel(o, strings) {
      LayoutStops(o, strings);
    } else {
      var next := o.Put([|strings[0]|] + strings[0]);
      LabelIsThere(o, strings, q);
      LabelStep(q, seg, o.index, 0);
      TouchesWrittenLabels(next, strings[1..], q, seg);
      var l := LayoutOf(o, strings);
      assert Range(o.index, l.stop.index) == Range(o.index, next.index) + Range(next.index, l.stop.index);
    }
  }

  lemma {:induction false} WithLabelsAlternates(strings: seq<CString>, rest: Walked)
    requires GoodLabels(strings) && (rest.items == [] || Alternates(rest.items))
    requires strings != [] || rest.items != []
    ensures var r := WithLabels(strings, Some(rest));
            r.Some? && Alternates(r.value.items) && (strings != [] ==> r.value.items[0].Label?)
    decreases |strings|
  {
    if strings != [] && (strings[1..] != [] || rest.items != []) {
      WithLabelsAlternates(strings[1..], rest);
      var tail := WithLabels(strings[1..], Some(rest)).value.items;
      var items := [Label(strings[0])] + tail;
      forall i | 0 <= i < |items| && items[i].Hop?
        ensures i + 1 < |items| && items[i + 1].Label?
      {
        assert tail[i - 1].Hop?;
      }
    }
  }

  /** The pointer, if any, goes to a name the reader keeps whole. */
  predicate SoundPointer(l: Layout, before: nat)
    requires l.stop.Valid()
  {
    l.at.Some? ==>
      && l.at.value < before <= l.stop.index && l.left != []
      && Matches(l.stop.bytes, l.at.value, l.left)
      && Candidate(l).Some? && Candidate(l).value.closed && Hops(Candidate(l).value.items) < MAX_HOPS
      && |Labels(Candidate(l).value.items)| == |l.left|
  }

  /** It goes to a label, and every pointer behind it does. */
  predicate PointsToLabels(l: Layout)
    requires l.stop.Valid()
  {
    l.at.Some? ==> Candidate(l).Some? && Labelled(Candidate(l).value.items)
  }

  /** What the last bytes read as, from the segment `seg`. */
  lemma EndingReads(l: Layout, seg: nat)
    requires l.stop.Valid() && l.stop.index + |Ending(l)| <= MAX_PACKET && SoundPointer(l, seg)
    requires l.left == [] <==> l.at == None
    ensures var q := l.stop.Written() + Ending(l);
            && var t := Walk(q, seg, l.stop.index, 0);
            && t.Some? && t.value.next == |q| && t.value.closed
            && EqAllNoCase(Labels(t.value.items), l.left)
            && t.value.items == (if l.at.Some? then [Hop] + Candidate(l).value.items else [])
            && Touched(q, seg, l.stop.index, 0) <= PointerBytes(l) + Range(l.stop.index, |q|)
  {
    hide Walk, CStr, Touched, Matches;
    var q := l.stop.Written() + Ending(l);
    if l.at.Some? {
      var c := Candidate(l).value;
      var at := l.at.value;
      ReadsEnding(l, seg);
      CandidateLabels(l);
      assert ([Hop] + c.items)[1..] == c.items;
      ReadsTheSameAfterMoreBytes(l.stop.Written(), q, at, at, 0);
      assert q[l.stop.index] == 0xC0 + at / 256 && q[l.stop.index + 1] == at % 256;
      PointerStep(q, seg, l.stop.index, 0);
      DepthShift(q, at, at, 0, 1);
      TouchedDepth(q, at, at, 0, 1);
    } else {
      EndStep(q, seg, l.stop.index, 0);
    }
  }

  lemma HopAlternates(items: seq<Item>)
    requires Labelled(items)
    ensures Alternates([Hop] + items)
  {
    var all := [Hop] + items;
    forall i | 0 <= i < |all| && all[i].Hop?
      ensures i + 1 < |all| && all[i + 1].Label?
    {
      assert i > 0 ==> items[i - 1].Hop?;
    }
  }

  lemma {:induction false} TouchedDepth(p: seq<byte>, seg: nat, pos: nat, depth: nat, depth': nat)
    requires Walk(p, seg, pos, depth).Some? && Walk(p, seg, pos, depth').Some?
    ensures Touched(p, seg, pos, depth') == Touched(p, seg, pos, depth)
    decreases seg, |p| - pos
  {
    if pos < |p| && p[pos] != 0 {
      if p[pos] < 0xC0 {
        TouchedDepth(p, seg, pos + 1 + p[pos], depth, depth');
      } else {
        var at := Target(p[pos], p[pos + 1]);
        TouchedDepth(p, at, at, depth + 1, depth' + 1);
      }
    }
  }

  lemma NameWalks(o: Out, strings: seq<CString>)
    requires o.Valid() && GoodLabels(strings) && strings != [] && Fits(o, strings)
    requires SoundPointer(LayoutOf(o, strings), o.index)
    ensures var l := LayoutOf(o, strings); var q := l.stop.Written() + Ending(l);
            && var w := Walk(q, o.index, o.index, 0);
            && w.Some? && w.value.closed && w.value.next == |q|
            && EqAllNoCase(Labels(w.value.items), strings)
            && (PointsToLabels(l) ==> Alternates(w.value.items))
            && (PointsToLabels(l) && !WritesNoLabel(o, strings) ==> w.value.items[0].Label?)
  {
    hide Walk, CStr, Touched, Matches, WithLabels, LayoutOf, FindMatch, SoundPointer, EqAllNoCase, NameWriter.Out.Put,
         Alternates;
    var l := LayoutOf(o, strings);
    var q := l.stop.Written() + Ending(l);
    EndingReads(l, o.index);
    ReadsWrittenLabels(o, strings, q, o.index);
    LayoutLeft(o, strings);
    var own := strings[..|strings| - |l.left|];
    var t := Walk(q, o.index, l.stop.index, 0).value;
    WithLabelsMeaning(own, t);
    EqAllAppend(own, Labels(t.items), l.left);
    assert own + l.left == strings;
    if PointsToLabels(l) {
      if l.at.Some? {
        HopAlternates(Candidate(l).value.items);
      }
      WithLabelsAlternates(own, t);
    }
    if !WritesNoLabel(o, strings) {
      LabelIsThere(o, strings, q);
    }
  }

  /** The name being written, or any of its own suffixes, once it is complete. */
  lemma NameReads(o: Out, strings: seq<CString>)
    requires o.Valid() && GoodLabels(strings) && strings != [] && Fits(o, strings)
    requires SoundPointer(LayoutOf(o, strings), o.index)
    ensures var l := LayoutOf(o, strings); var q := l.stop.Written() + Ending(l);
            && SoundName(q, o.index, Range(o.index, |q|) + PointerBytes(l))
            && ReadsAs(q, WrittenName(o.index, |q|, strings))
            && (PointsToLabels(l) ==> Alternates(ItemsAt(q, o.index)))
            && (PointsToLabels(l) && !WritesNoLabel(o, strings) ==> Labelled(ItemsAt(q, o.index)))
  {
    hide Walk, CStr, Touched, Matches, LayoutOf, FindMatch, SoundPointer, EqAllNoCase, NameWriter.Out.Put, Alternates,
         PointerBytes;
    var l := LayoutOf(o, strings);
    var q := l.stop.Written() + Ending(l);
    EndingReads(l, o.index);
    NameWalks(o, strings);
    TouchesWrittenLabels(o, strings, q, o.index);
    assert Range(o.index, |q|) == Range(o.index, l.stop.index) + Range(l.stop.index, |q|);
  }

  // ---------- The invariant over a run of writes ----------

  function StringsOf(names: seq<WrittenName>): seq<seq<CString>> {
    seq(|names|, i requires 0 <= i < |names| => names[i].strings)
  }

  lemma AllowedPointer(d: Doc, strings: seq<CString>)
    requires d.out.Valid() && Allowed(d, NameOf(strings))
    ensures SoundPointer(LayoutOf(d.out, strings), d.out.index)
  {
    hide Walk, CStr, Touched, Matches, Reads, LayoutOf, Fqdn;
    var l := LayoutOf(d.out, strings);
    FqdnGrowth(d.out, strings);
    if l.at.Some? {
      MatchedParts(l);
    }
  }

  lemma PointerBytesInside(l: Layout)
    requires l.stop.Valid() && (l.at.Some? ==> Candidate(l).Some?)
    ensures forall i :: i in PointerBytes(l) ==> i < l.stop.index
  {
    hide Walk, Touched;
    if l.at.Some? {
      TouchedInside(l.stop.Written(), l.at.value, l.at.value, 0);
    }
  }

  lemma MatchedParts(l: Layout)
    requires l.stop.Valid() && l.left != []
    requires l.at.Some? && FindMatch(l.stop.bytes, 0, l.stop.index, l.left) == l.at
    ensures l.at.value < l.stop.index && Matches(l.stop.bytes, l.at.value, l.left) && |l.left| <= 4
  {
    hide Walk, Fold;
    assert Matches(l.stop.bytes, l.at.value, l.left);
  }

  lemma StepKeepsInv(d: Doc, w: Write)
    requires Inv(d) && Allowed(d, w)
    ensures Inv(Do(d, w)) && StringsOf(Do(d, w).names) == StringsOf(d.names) + NamesIn([w])
  {
    hide Walk, CStr, Touched, Matches, LayoutOf, Fqdn, SoundName, SoundPointer, OwnStarts, ReadsAs, FindMatch,
         PointerBytes;
    var d' := Do(d, w);
    var p := d.out.Written();
    var q := d'.out.Written();
    match w
    case NameOf(strings) =>
      AllowedPointer(d, strings);
      FqdnGrowth(d.out, strings);
      FqdnEnding(d.out, strings);
      PointerBytesInside(LayoutOf(d.out, strings));
      KeepsAll(p, q, d.names, d.nameBytes, d'.nameBytes);
      NameReads(d.out, strings);
      MoreBytes(q, d.out.index, Range(d.out.index, |q|) + PointerBytes(LayoutOf(d.out, strings)), d'.nameBytes);
    case Raw(data) =>
      KeepsAll(p, q, d.names, d.nameBytes, d.nameBytes);
    case Patch(at, value) =>
      KeepsAll(p, q, d.names, d.nameBytes, d.nameBytes);
  }

  lemma MoreBytes(p: seq<byte>, at: nat, nameBytes: set<nat>, more: set<nat>)
    requires SoundName(p, at, nameBytes) && nameBytes <= more
    ensures SoundName(p, at, more)
  {}

  predicate AllowedRun(d: Doc, ws: seq<Write>)
    requires d.out.Valid()
    decreases |ws|
  {
    ws != [] ==> Allowed(d, ws[0]) && AllowedRun(Do(d, ws[0]), ws[1..])
  }

  function Run(d: Doc, ws: seq<Write>): (d': Doc)
    requires d.out.Valid() && AllowedRun(d, ws)
    ensures d'.out.Valid()
    decreases |ws|
  {
    if ws == [] then d else Run(Do(d, ws[0]), ws[1..])
  }

  function NamesIn(ws: seq<Write>): seq<seq<CString>> {
    if ws == [] then []
    else (if ws[0].NameOf? then [ws[0].strings] else []) + NamesIn(ws[1..])
  }

  lemma NamesInFirst(ws: seq<Write>)
    requires ws != []
    ensures NamesIn(ws) == NamesIn([ws[0]]) + NamesIn(ws[1..])
  {
    assert NamesIn([ws[0]][1..]) == [];
  }

  lemma {:induction false} RunKeepsInv(d: Doc, ws: seq<Write>)
    requires d.out.Valid() && Inv(d) && AllowedRun(d, ws)
    ensures Inv(Run(d, ws))
    ensures StringsOf(Run(d, ws).names) == StringsOf(d.names) + NamesIn(ws)
    decreases |ws|
  {
    hide Allowed, Do, Inv, StringsOf;
    if ws != [] {
      StepKeepsInv(d, ws[0]);
      RunKeepsInv(Do(d, ws[0]), ws[1..]);
      NamesInFirst(ws);
    } else {
      assert StringsOf(d.names) + [] == StringsOf(d.names);
    }
  }

  /** In a packet filled from empty by correct steps, every name written, in order, is still there
   * at the end: it reads back, label by label up to case, and ends where its writing ended. */
  lemma EveryNameReadsBack(ws: seq<Write>)
    requires AllowedRun(EMPTY_DOC, ws)
    ensures var d := Run(EMPTY_DOC, ws);
            && StringsOf(d.names) == NamesIn(ws)
            && forall i :: 0 <= i < |d.names| ==>
                 ReadsAs(d.out.Written(), d.names[i]) && SoundName(d.out.Written(), d.names[i].start, d.nameBytes)
  {
    RunKeepsInv(EMPTY_DOC, ws);
    assert StringsOf(EMPTY_DOC.names) + NamesIn(ws) == NamesIn(ws);
  }

  // ---------- The names the sender builds ----------

  /** At most four labels, none of them "_sub". */
  predicate Plain(labels: seq<CString>) {
    |labels| <= 4 && forall i :: 0 <= i < |labels| ==> !EqNoCase(labels[i], SUB)
  }

  lemma PlainUpToCase(a: seq<CString>, b: seq<CString>)
    requires EqAllNoCase(a, b) && Plain(b)
    ensures Plain(a)
  {
    forall i | 0 <= i < |a|
      ensures !EqNoCase(a[i], SUB)
    {
      assert EqNoCase(a[i], b[i]);
    }
  }

  /** At every start begins a sound and plain name, with a label. */
  ghost predicate PlainStarts(p: seq<byte>, starts: set<nat>, nameBytes: set<nat>) {
    forall at :: at in starts ==> at < |p| && SoundName(p, at, nameBytes) && PlainAt(p, at)
  }

  predicate PlainAt(p: seq<byte>, at: nat) {
    Labelled(ItemsAt(p, at)) && Plain(Labels(ItemsAt(p, at)))
  }

  ghost predicate PlainNames(p: seq<byte>, names: seq<WrittenName>) {
    forall i :: 0 <= i < |names| ==> Alternates(ItemsAt(p, names[i].start))
  }

  /** A match, if there is one, is at the start of a label of an earlier name. */
  predicate Lands(d: Doc, strings: seq<CString>)
    requires d.out.Valid() && GoodLabels(strings)
  {
    var l := LayoutOf(d.out, strings);
    l.at.Some? ==> l.at.value in d.starts
  }

  /** The first item read at a match is the first label looked for. */
  lemma FirstLabelMatches(p: seq<byte>, at: nat, strings: seq<CString>)
    requires at < |p| && strings != [] && 1 <= |strings[0]| <= MAX_LABEL && 0 !in strings[0] && Matches(p, at, strings)
    requires Walk(p, at, at, 0).Some?
    ensures Walk(p, at, at, 0).value.items != [] && Walk(p, at, at, 0).value.items[0] == Label(strings[0])
  {
    hide Walk, Fold, Reads;
    assert strings[0][..|strings[0]|] == strings[0];
    LabelStep(p, at, at, 0);
  }

  /** A name the sender builds takes a pointer only to a name the reader keeps whole, and reads no new byte there. */
  lemma LandingPointsRight(d: Doc, strings: seq<CString>)
    requires Inv(d) && PlainStarts(d.out.Written(), d.starts, d.nameBytes)
    requires GoodLabels(strings) && strings != [] && Fits(d.out, strings) && Plain(strings) && Lands(d, strings)
    ensures PointsRight(d.out, strings)
    ensures var l := LayoutOf(d.out, strings); PointsToLabels(l) && PointerBytes(l) <= d.nameBytes
  {
    hide Walk, CStr, Touched, Matches, LayoutOf, Fqdn, Fold, FindMatch;
    var l := LayoutOf(d.out, strings);
    if l.at.Some? {
      var at := l.at.value;
      FqdnGrowth(d.out, strings);
      LayoutLeft(d.out, strings);
      MatchedParts(l);
      KeepsName(d.out.Written(), l.stop.Written(), at, d.nameBytes, d.nameBytes);
      WholeCandidate(l, d.out.Written());
      FewerPointersThanLabels(Candidate(l).value.items);
    }
  }

  lemma WholeCandidate(l: Layout, p: seq<byte>)
    requires l.stop.Valid() && l.at.Some? && l.left != [] && l.at.value < l.stop.index
    requires Matches(l.stop.bytes, l.at.value, l.left) && |l.left| <= 4 && GoodLabels(l.left) && Plain(l.left)
    requires Candidate(l).Some? && Candidate(l).value.closed && Candidate(l) == Walk(p, l.at.value, l.at.value, 0)
    requires Plain(Labels(ItemsAt(p, l.at.value)))
    ensures |Labels(Candidate(l).value.items)| == |l.left|
  {
    hide Walk, CStr, Fold;
    var at := l.at.value;
    var c := Candidate(l).value;
    assert l.stop.Written() <= l.stop.bytes;
    ReadsTheSameAfterMoreBytes(l.stop.Written(), l.stop.bytes, at, at, 0);
    assert ReadName(l.stop.bytes, at) == Some((c.next, Fold(EMPTY_NAME, c.items)));
    FirstLabelMatches(l.stop.bytes, at, l.left);
    ReadWhole(c.items, l.left);
  }

  /** Each label written in full begins such a name. */
  lemma {:induction false} OwnStartsPlain(o: Out, strings: seq<CString>, more: set<nat>, at: nat)
    requires o.Valid() && GoodLabels(strings) && Fits(o, strings) && Plain(strings)
    requires var l := LayoutOf(o, strings);
             && SoundPointer(l, o.index) && PointsToLabels(l)
             && Range(o.index, l.stop.index + |Ending(l)|) + PointerBytes(l) <= more
    requires at in OwnStarts(o, strings)
    ensures var l := LayoutOf(o, strings); var q := l.stop.Written() + Ending(l);
            at < |q| && SoundName(q, at, more) && PlainAt(q, at)
    decreases |strings|
  {
    hide Walk, CStr, Touched, Matches, LayoutOf, FindMatch, NameWriter.Out.Put, Fqdn, NameReader.Target, EqNoCase,
         PointerBytes, PointsToLabels, Alternates;
    var next := o.Put([|strings[0]|] + strings[0]);
    var l := LayoutOf(o, strings);
    var q := l.stop.Written() + Ending(l);
    LabelIsThere(o, strings, q);
    if at == o.index {
      NameReads(o, strings);
      MoreBytes(q, at, Range(o.index, |q|) + PointerBytes(l), more);
      PlainUpToCase(Labels(ItemsAt(q, at)), strings);
    } else {
      assert Range(next.index, l.stop.index + |Ending(l)|) <= Range(o.index, l.stop.index + |Ending(l)|);
      OwnStartsPlain(next, strings[1..], more, at);
    }
  }

  /** Names written earlier stay as they are. */
  lemma StaysPlain(d: Doc, q: seq<byte>, more: set<nat>)
    requires PlainInv(d) && Agree(d.out.Written(), q, d.nameBytes) && d.nameBytes <= more && |d.out.Written()| <= |q|
    ensures PlainStarts(q, d.starts, more) && PlainNames(q, d.names)
  {
    hide Walk, Touched, Alternates, Plain;
    var p := d.out.Written();
    forall at | at in d.starts
      ensures at < |q| && SoundName(q, at, more) && PlainAt(q, at)
    {
      KeepsName(p, q, at, d.nameBytes, more);
    }
    forall i | 0 <= i < |d.names|
      ensures Alternates(ItemsAt(q, d.names[i].start))
    {
      KeepsName(p, q, d.names[i].start, d.nameBytes, more);
    }
  }

  lemma WroteName(d: Doc, strings: seq<CString>)
    requires d.out.Valid() && Allowed(d, NameOf(strings))
    ensures var d' := Do(d, NameOf(strings)); var l := LayoutOf(d.out, strings);
            && d'.out.Written() == l.stop.Written() + Ending(l) && d.out.Written() <= d'.out.Written()
            && d'.out.index == |d'.out.Written()| == l.stop.index + |Ending(l)|
  {
    hide Walk, Touched, LayoutOf, Fqdn, PointsRight, OwnStarts;
    FqdnGrowth(d.out, strings);
    FqdnEnding(d.out, strings);
  }

  lemma NameStaysPlain(d: Doc, strings: seq<CString>)
    requires PlainInv(d) && Allowed(d, NameOf(strings)) && Plain(strings) && Lands(d, strings)
    ensures PlainInv(Do(d, NameOf(strings)))
    ensures Do(d, NameOf(strings)).nameBytes == d.nameBytes + Range(d.out.index, Do(d, NameOf(strings)).out.index)
  {
    hide Walk, CStr, Touched, Matches, LayoutOf, Fqdn, SoundPointer, OwnStarts, ReadsAs, FindMatch, Plain, Alternates,
         PointerBytes, PointsToLabels, SoundName, PlainAt, Fits, PointsRight;
    var d' := Do(d, NameOf(strings));
    var l := LayoutOf(d.out, strings);
    var q := d'.out.Written();
    LandingPointsRight(d, strings);
    AllowedPointer(d, strings);
    WroteName(d, strings);
    StepKeepsInv(d, NameOf(strings));
    StaysPlain(d, q, d'.nameBytes);
    NameReads(d.out, strings);
    forall at | at in OwnStarts(d.out, strings)
      ensures at < |q| && SoundName(q, at, d'.nameBytes) && PlainAt(q, at)
    {
      OwnStartsPlain(d.out, strings, d'.nameBytes, at);
    }
  }

  /** A name of the sender's shapes that fits, and whose match, if there is one, is at a label start. */
  predicate NameSent(d: Doc, strings: seq<CString>)
    requires d.out.Valid()
  {
    SentName(strings) && Fits(d.out, strings) && Lands(d, strings)
  }

  /** Every name of the run is one. */
  predicate NamesSent(d: Doc, ws: seq<Write>)
    requires d.out.Valid()
    decreases |ws|
  {
    ws != [] ==>
      && (ws[0].NameOf? ==> NameSent(d, ws[0].strings))
      && (Allowed(d, ws[0]) ==> NamesSent(Do(d, ws[0]), ws[1..]))
  }

  /** Every other write of the run fits, and patches no name. */
  predicate OthersFit(d: Doc, ws: seq<Write>)
    requires d.out.Valid()
    decreases |ws|
  {
    ws != [] ==> (!ws[0].NameOf? ==> Allowed(d, ws[0])) && (Allowed(d, ws[0]) ==> OthersFit(Do(d, ws[0]), ws[1..]))
  }

  /** What holds of the packet while such names are written. */
  ghost predicate PlainInv(d: Doc) {
    Inv(d) && PlainStarts(d.out.Written(), d.starts, d.nameBytes) && PlainNames(d.out.Written(), d.names)
  }

  lemma SentIsAllowed(d: Doc, strings: seq<CString>)
    requires d.out.Valid() && PlainInv(d) && NameSent(d, strings)
    ensures Allowed(d, NameOf(strings)) && Plain(strings)
    ensures PointerBytes(LayoutOf(d.out, strings)) <= d.nameBytes
  {
    hide Inv, PlainStarts, Lands, Fits, PointsRight, PointerBytes, LayoutOf;
    LandingPointsRight(d, strings);
  }

  lemma SentStepKeeps(d: Doc, w: Write)
    requires d.out.Valid() && PlainInv(d) && Allowed(d, w) && (w.NameOf? ==> NameSent(d, w.strings))
    ensures PlainInv(Do(d, w)) && StringsOf(Do(d, w).names) == StringsOf(d.names) + NamesIn([w])
    ensures w.NameOf? ==> Do(d, w).nameBytes == d.nameBytes + Range(d.out.index, Do(d, w).out.index)
  {
    hide Inv, PlainStarts, PlainNames, Lands, Fits, PointsRight, Fqdn, OwnStarts, LayoutOf, PointerBytes;
    StepKeepsInv(d, w);
    if w.NameOf? {
      SentIsAllowed(d, w.strings);
      NameStaysPlain(d, w.strings);
    } else {
      OthersAgree(d, w);
      StaysPlain(d, Do(d, w).out.Written(), d.nameBytes);
    }
  }

  lemma OthersAgree(d: Doc, w: Write)
    requires Inv(d) && Allowed(d, w) && !w.NameOf?
    ensures Agree(d.out.Written(), Do(d, w).out.Written(), d.nameBytes)
    ensures |d.out.Written()| <= |Do(d, w).out.Written()|
    ensures Do(d, w).nameBytes == d.nameBytes && Do(d, w).starts == d.starts && Do(d, w).names == d.names
  {
    hide SoundNames;
  }

  /** A run of such names is a correct one: that the reader keeps every label of every pointer's target follows. */
  lemma {:induction false} SentRunIsAllowed(d: Doc, ws: seq<Write>)
    requires d.out.Valid() && PlainInv(d) && NamesSent(d, ws) && OthersFit(d, ws)
    ensures AllowedRun(d, ws) && PlainInv(Run(d, ws))
    decreases |ws|
  {
    hide PlainInv, NameSent, Allowed, Do;
    if ws != [] {
      if ws[0].NameOf? {
        SentIsAllowed(d, ws[0].strings);
      }
      SentStepKeeps(d, ws[0]);
      SentRunIsAllowed(Do(d, ws[0]), ws[1..]);
    }
  }

  lemma EmptyIsPlain()
    ensures PlainInv(EMPTY_DOC)
  {}

  // ---------- What the parser makes of a name that was sent ----------

  /** The three shapes of name the sender builds. */
  predicate SentName(strings: seq<CString>) {
    && GoodLabels(strings)
    && 2 <= |strings| <= 4
    && strings[|strings| - 1] == LOCAL
    && (forall i :: 0 <= i < |strings| ==> !EqNoCase(strings[i], SUB))
    && (|strings| > 2 ==> strings[|strings| - 2][0] == UNDERSCORE && strings[|strings| - 3][0] == UNDERSCORE)
  }

  function Sorted(strings: seq<CString>): NameState
    requires 2 <= |strings| <= 4
  {
    if |strings| == 2 then NameState(strings[0], [], [], strings[1], 2, false, false)
    else if |strings| == 3 then NameState([], strings[0], strings[1], strings[2], 3, false, false)
    else NameState(strings[0], strings[1], strings[2], strings[3], 4, false, false)
  }

  /** Pointers between at most four labels leave no trace in the parts. */
  lemma {:induction false} FoldSkipsPointers(st: NameState, items: seq<Item>)
    requires st.Valid() && !st.invalid && st.parts + |Labels(items)| <= 4 && (items == [] || Alternates(items))
    ensures Fold(st, items) == Fold(st, AsItems(Labels(items)))
    decreases |items|
  {
    if items != [] {
      var rest := items[1..];
      if rest != [] {
        forall i | 0 <= i < |rest| && rest[i].Hop?
          ensures i + 1 < |rest| && rest[i + 1].Label?
        {
          assert items[i + 1].Hop?;
        }
      }
      if items[0].Hop? {
        assert rest[0].Label?;
        assert Absorb(st, Hop) == st;
      } else {
        assert Labels(items) == [items[0].text] + Labels(rest);
        FoldLabel(st, Labels(items));
      }
      FoldSkipsPointers(Absorb(st, items[0]), rest);
    }
  }

  lemma SortsLabels(labels: seq<LabelText>, strings: seq<CString>)
    requires SentName(strings) && EqAllNoCase(labels, strings)
    ensures Arrange(Fold(EMPTY_NAME, AsItems(labels))) == Sorted(labels)
  {
    hide Fold;
    var s1 := Absorb(EMPTY_NAME, Label(labels[0]));
    var s2 := Absorb(s1, Label(labels[1]));
    FoldLabel(EMPTY_NAME, labels);
    FoldLabel(s1, labels[1..]);
    FoldLabel(s2, labels[2..]);
    assert labels[1..][1..] == labels[2..];
    if |labels| >= 3 {
      var s3 := Absorb(s2, Label(labels[2]));
      assert labels[2..][1..] == labels[3..];
      FoldLabel(s3, labels[3..]);
      if |labels| == 4 {
        assert labels[3..][1..] == [];
        FoldLabel(Absorb(s3, Label(labels[3])), []);
      }
    }
  }

  /** A name of one of the sender's shapes that reads back is parsed into the parts it was sent
   * with: host, service, protocol and domain in their places, valid, and not a subtype. */
  lemma ParsesAsSent(p: seq<byte>, n: WrittenName, nameBytes: set<nat>)
    requires SoundName(p, n.start, nameBytes) && Alternates(ItemsAt(p, n.start)) && ReadsAs(p, n) && SentName(n.strings)
    ensures ReadName(p, n.start).Some?
    ensures var (next, st) := ReadName(p, n.start).value;
            next == n.end && Arrange(st) == Sorted(Labels(ItemsAt(p, n.start)))
    ensures EqAllNoCase(Labels(ItemsAt(p, n.start)), n.strings)
  {
    hide Walk, Absorb, Fold, Arrange;
    FoldSkipsPointers(EMPTY_NAME, ItemsAt(p, n.start));
    SortsLabels(Labels(ItemsAt(p, n.start)), n.strings);
  }

  lemma {:induction false} OnlySentNames(d: Doc, ws: seq<Write>)
    requires d.out.Valid() && PlainInv(d) && NamesSent(d, ws) && OthersFit(d, ws)
    requires forall n :: n in d.names ==> SentName(n.strings)
    ensures AllowedRun(d, ws) && forall n :: n in Run(d, ws).names ==> SentName(n.strings)
    decreases |ws|
  {
    hide PlainInv, NameSent, Allowed, SentName, Fqdn, OwnStarts;
    if ws != [] {
      if ws[0].NameOf? {
        SentIsAllowed(d, ws[0].strings);
        assert SentName(ws[0].strings) by { SentShape(d, ws[0].strings); }
      }
      SentStepKeeps(d, ws[0]);
      OnlySentNames(Do(d, ws[0]), ws[1..]);
    }
  }

  lemma SentShape(d: Doc, strings: seq<CString>)
    requires d.out.Valid() && NameSent(d, strings)
    ensures SentName(strings)
  {}

  /** In a packet filled from empty with names of the sender's shapes whose matches are at label starts, every name,
   * in order, reads back at the end: it ends where its writing ended, and is parsed into the parts it was sent
   * with, up to case. */
  lemma EverySentNameReadsBack(ws: seq<Write>)
    requires NamesSent(EMPTY_DOC, ws) && OthersFit(EMPTY_DOC, ws)
    ensures AllowedRun(EMPTY_DOC, ws)
    ensures var d := Run(EMPTY_DOC, ws); var p := d.out.Written();
            && StringsOf(d.names) == NamesIn(ws)
            && forall i :: 0 <= i < |d.names| ==>
                 var n := d.names[i]; var labels := Labels(ItemsAt(p, n.start));
                 && EqAllNoCase(labels, n.strings) && 2 <= |labels| <= 4
                 && ReadName(p, n.start).Some? && ReadName(p, n.start).value.0 == n.end
                 && Arrange(ReadName(p, n.start).value.1) == Sorted(labels)
  {
    hide Allowed, Do, NameSent, SentName, Walk, Fold, Arrange, EqNoCase, SoundName, ReadsAs, NamesSent, OthersFit,
         AllowedRun, Run;
    EmptyIsPlain();
    SentRunIsAllowed(EMPTY_DOC, ws);
    OnlySentNames(EMPTY_DOC, ws);
    EveryNameReadsBack(ws);
    var d := Run(EMPTY_DOC, ws);
    forall i | 0 <= i < |d.names|
      ensures var n := d.names[i]; var labels := Labels(ItemsAt(d.out.Written(), n.start));
              && EqAllNoCase(labels, n.strings) && 2 <= |labels| <= 4
              && ReadName(d.out.Written(), n.start).Some? && ReadName(d.out.Written(), n.start).value.0 == n.end
              && Arrange(ReadName(d.out.Written(), n.start).value.1) == Sorted(labels)
    {
      assert d.names[i] in d.names;
      SentLength(d.names[i].strings);
      ParsesAsSent(d.out.Written(), d.names[i], d.nameBytes);
    }
  }

  lemma SentLength(strings: seq<CString>)
    requires SentName(strings)
    ensures 2 <= |strings| <= 4
  {}
}
