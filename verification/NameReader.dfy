/** The DNS name reader: mdns_utils_read_fqdn_impl and mdns_utils_parse_fqdn.
 *
 * `Walk` is the wire format alone (section 4.1.4 of RFC 1035, with the reader's
 * own limits); `Fold` is the sorting of the labels it meets into the four parts
 * of a name.  `ReadFqdnImpl` interleaves the two over mutable buffers, as the
 * source does, and is proved to compute their composition.
 */
module NameReader {
  import opened Bytes

  const MAX_LABEL := 63
  const MAX_HOPS := 16
  const NAME_MAX := 64      // longest string a name buffer holds
  const NAME_BUF := 65      // with its NUL

  /** One step of a walk: a label, as a C string, or a compression pointer. */
  type LabelText = s: CString | |s| <= MAX_LABEL
  datatype Item = Label(text: LabelText) | Hop

  /** `next`: offset after the name in its own segment.  `closed`: the name ended
   * in a zero byte, not by running off the end of the packet. */
  datatype Walked = Walked(next: nat, items: seq<Item>, closed: bool)

  function Target(hi: byte, lo: byte): nat
    requires hi >= 0xC0
  {
    (hi - 0xC0) * 256 + lo
  }

  /** The name at `pos`, in the segment that began at `seg`, after `depth` pointers. */
  function Walk(p: seq<byte>, seg: nat, pos: nat, depth: nat): Option<Walked>
    decreases seg, |p| - pos
  {
    if pos >= |p| then
      Some(Walked(pos + 1, [], false))
    else if p[pos] == 0 then
      Some(Walked(pos + 1, [], true))
    else if p[pos] < 0xC0 then
      var after := pos + 1 + p[pos];
      if p[pos] > MAX_LABEL || after > |p| then None
      else Prepend(Label(CStr(p[pos + 1..after])), Walk(p, seg, after, depth))
    else if pos + 1 >= |p| || Target(p[pos], p[pos + 1]) >= seg || depth >= MAX_HOPS then
      None
    else
      var at := Target(p[pos], p[pos + 1]);
      match Walk(p, at, at, depth + 1)
      case None => None
      case Some(w) => Some(Walked(pos + 2, [Hop] + w.items, w.closed))
  }

  function Prepend(item: Item, rest: Option<Walked>): Option<Walked> {
    match rest
    case None => None
    case Some(w) => Some(w.(items := [item] + w.items))
  }

  /** The reader makes progress and ends at most one past the packet. */
  lemma {:induction false} WalkProgress(p: seq<byte>, seg: nat, pos: nat, depth: nat)
    requires Walk(p, seg, pos, depth).Some?
    ensures var w := Walk(p, seg, pos, depth).value;
            && pos < w.next
            && (pos <= |p| ==> w.next <= |p| + 1)
            && (w.closed && pos <= |p| ==> w.next <= |p|)
    decreases |p| - pos
  {
    if pos < |p| && 0 < p[pos] < 0xC0 {
      WalkProgress(p, seg, pos + 1 + p[pos], depth);
    }
  }

  /** The fields of mdns_name_t. */
  datatype NameState = NameState(
    host: CString, service: CString, proto: CString, domain: CString,
    parts: nat, sub: bool, invalid: bool)
  {
    predicate Valid() {
      |host| <= NAME_MAX && |service| <= NAME_MAX && |proto| <= NAME_MAX && |domain| <= NAME_MAX && parts <= 4
    }

    function Field(i: nat): CString
      requires i < 4
    {
      if i == 0 then host else if i == 1 then service else if i == 2 then proto else domain
    }

    function Store(i: nat, text: CString): NameState
      requires i < 4
    {
      if i == 0 then this.(host := text, parts := 1)
      else if i == 1 then this.(service := text, parts := 2)
      else if i == 2 then this.(proto := text, parts := 3)
      else this.(domain := text, parts := 4)
    }
  }

  const EMPTY_NAME := NameState([], [], [], [], 0, false, false)

  /** A second label that is neither a service type nor a known domain continues the host name. */
  predicate ContinuesHost(parts: nat, text: CString) {
    && parts == 1
    && (text == [] || text[0] != UNDERSCORE)
    && !EqNoCase(text, LOCAL) && !EqNoCase(text, ARPA)
    && !EqNoCase(text, IP6) && !EqNoCase(text, IN_ADDR)
  }

  /** `strlcat` of "." and `text` into a name buffer. */
  function JoinHost(host: CString, text: CString): (s: CString)
    ensures |host| <= NAME_MAX ==> |s| <= NAME_MAX
  {
    var joined := host + [DOT] + text;
    if |joined| <= NAME_MAX then joined else joined[..NAME_MAX]
  }

  function Absorb(st: NameState, item: Item): NameState
    requires st.Valid()
  {
    var s := if st.parts == 4 then st.(invalid := true) else st;
    match item
    case Hop => s
    case Label(text) =>
      if ContinuesHost(s.parts, text) then s.(host := JoinHost(s.host, text))
      else if EqNoCase(text, SUB) then s.(sub := true)
      else if s.invalid || s.parts >= 4 then s
      else s.Store(s.parts, text)
  }

  /** Raising the flag of a full name first makes no difference. */
  lemma AbsorbFlagged(st: NameState, item: Item)
    requires st.Valid()
    ensures Absorb(Absorb(st, Hop), item) == Absorb(st, item)
  {}

  function Fold(st: NameState, items: seq<Item>): (r: NameState)
    requires st.Valid()
    ensures r.Valid()
    decreases |items|
  {
    if items == [] then st else Fold(Absorb(st, items[0]), items[1..])
  }

  lemma {:induction false} FoldAppend(st: NameState, a: seq<Item>, b: seq<Item>)
    requires st.Valid()
    ensures Fold(st, a + b) == Fold(Fold(st, a), b)
    decreases |a|
  {
    if a == [] {
      assert a + b == b;
    } else {
      assert (a + b)[1..] == a[1..] + b;
      FoldAppend(Absorb(st, a[0]), a[1..], b);
    }
  }

  /** Reading a name: where the next data starts, and the raw parts. */
  function ReadName(p: seq<byte>, start: nat): Option<(nat, NameState)> {
    match Walk(p, start, start, 0)
    case None => None
    case Some(w) => Some((w.next, Fold(EMPTY_NAME, w.items)))
  }

  /** Shifts the parts read so that the last one is the domain, and checks that domain. */
  function Arrange(st: NameState): NameState {
    if st.parts == 0 || st.invalid then st
    else
      var s :=
        if st.parts == 3 then st.(host := [], service := st.host, proto := st.service, domain := st.proto)
        else if st.parts == 2 then st.(service := [], proto := [], domain := st.service)
        else st;
      if EqNoCase(s.domain, LOCAL) || EqNoCase(s.domain, ARPA) then s else s.(invalid := true)
  }

  /** mdns_name_t, filled in place. */
  class Name {
    var host: CString
    var service: CString
    var proto: CString
    var domain: CString
    var parts: nat
    var sub: bool
    var invalid: bool

    ghost function State(): NameState
      reads this
    {
      NameState(host, service, proto, domain, parts, sub, invalid)
    }

    constructor ()
      ensures State() == EMPTY_NAME
    {
      host, service, proto, domain := [], [], [], [];
      parts, sub, invalid := 0, false, false;
    }

    method Clear()
      modifies this
      ensures State() == EMPTY_NAME
    {
      host, service, proto, domain := [], [], [], [];
      parts, sub, invalid := 0, false, false;
    }

    /** A further label or pointer after four parts makes the name invalid. */
    method FlagIfFull()
      requires State().Valid()
      modifies this
      ensures State() == Absorb(old(State()), Hop) && State().Valid() && (parts == 4 ==> invalid)
    {
      if parts == 4 {
        invalid := true;
      }
    }

    /** Sorts the label in the scratch buffer into the name. */
    method TakeLabel(text: CString)
      requires State().Valid() && |text| <= MAX_LABEL && (parts == 4 ==> invalid)
      modifies this
      ensures State() == Absorb(old(State()), Label(text))
    {
      if parts == 1 && (text == [] || text[0] != UNDERSCORE)
         && !EqNoCase(text, LOCAL) && !EqNoCase(text, ARPA)
         && !EqNoCase(text, IP6) && !EqNoCase(text, IN_ADDR) {
        host := JoinHost(host, text);
      } else if EqNoCase(text, SUB) {
        sub := true;
      } else if !invalid {
        if parts == 0 { host := text; }
        else if parts == 1 { service := text; }
        else if parts == 2 { proto := text; }
        else { domain := text; }
        parts := parts + 1;
      }
    }
  }

  /** What `ReadFqdnImpl` has done after the items `done`, standing at `pos`. */
  ghost predicate ReadSoFar(p: seq<byte>, seg: nat, pos: nat, depth: nat, done: seq<Item>) {
    match Walk(p, seg, pos, depth)
    case None => Walk(p, seg, seg, depth) == None
    case Some(w) => Walk(p, seg, seg, depth) == Some(w.(items := done + w.items))
  }

  lemma ReadOneLabel(p: seq<byte>, seg: nat, pos: nat, depth: nat, done: seq<Item>, st: NameState, item: Item)
    requires pos < |p| && 0 < p[pos] <= MAX_LABEL && pos + 1 + p[pos] <= |p|
    requires item == Label(CStr(p[pos + 1..pos + 1 + p[pos]]))
    requires ReadSoFar(p, seg, pos, depth, done)
    requires st.Valid()
    ensures ReadSoFar(p, seg, pos + 1 + p[pos], depth, done + [item])
    ensures Fold(st, done + [item]) == Absorb(Fold(st, done), item)
  {
    FoldAppend(st, done, [item]);
    var rest := Walk(p, seg, pos + 1 + p[pos], depth);
    assert Walk(p, seg, pos, depth) == Prepend(item, rest);
    if rest.Some? {
      assert done + ([item] + rest.value.items) == (done + [item]) + rest.value.items;
    }
  }

  /** What a pointer met after `done` contributes, given the walk from its target. */
  lemma ReadOnePointer(p: seq<byte>, seg: nat, pos: nat, depth: nat, done: seq<Item>, st: NameState, tail: Walked)
    requires pos + 1 < |p| && p[pos] >= 0xC0 && depth < MAX_HOPS
    requires Target(p[pos], p[pos + 1]) < seg
    requires Walk(p, Target(p[pos], p[pos + 1]), Target(p[pos], p[pos + 1]), depth + 1) == Some(tail)
    requires ReadSoFar(p, seg, pos, depth, done)
    requires st.Valid()
    ensures Walk(p, seg, seg, depth) == Some(Walked(pos + 2, done + [Hop] + tail.items, tail.closed))
    ensures Fold(st, done + [Hop] + tail.items) == Fold(Absorb(Fold(st, done), Hop), tail.items)
  {
    assert ([Hop] + tail.items)[1..] == tail.items;
    assert done + ([Hop] + tail.items) == done + [Hop] + tail.items;
    FoldAppend(st, done, [Hop] + tail.items);
  }

  /** Where reading starts, ends and gives up. */
  lemma ReadStarts(p: seq<byte>, seg: nat, depth: nat, st: NameState)
    requires st.Valid()
    ensures ReadSoFar(p, seg, seg, depth, []) && Fold(st, []) == st
  {
    var r := Walk(p, seg, seg, depth);
    assert r.Some? ==> [] + r.value.items == r.value.items;
  }

  lemma ReadEnds(p: seq<byte>, seg: nat, pos: nat, depth: nat, done: seq<Item>)
    requires pos >= |p| || p[pos] == 0
    requires ReadSoFar(p, seg, pos, depth, done)
    ensures Walk(p, seg, seg, depth) == Some(Walked(pos + 1, done, pos < |p|))
  {
    assert done + [] == done;
  }

  lemma ReadFails(p: seq<byte>, seg: nat, pos: nat, depth: nat, done: seq<Item>)
    requires pos < |p| && p[pos] != 0
    requires if p[pos] < 0xC0 then p[pos] > MAX_LABEL || pos + 1 + p[pos] > |p|
             else if pos + 1 >= |p| || depth >= MAX_HOPS then true
             else var at := Target(p[pos], p[pos + 1]); at >= seg || Walk(p, at, at, depth + 1) == None
    requires ReadSoFar(p, seg, pos, depth, done)
    ensures Walk(p, seg, seg, depth) == None
  {}

  /** Copies a label into the scratch buffer and sorts it into the name; false when the
   * packet ends inside it. */
  method ReadLabel(packet: array<byte>, from: nat, len: nat, name: Name, buf: array<byte>, bound: nat,
                   ghost p: seq<byte>)
    returns (ok: bool)
    requires bound <= packet.Length && p == packet[..bound] && 0 < len <= MAX_LABEL && buf.Length == NAME_BUF
    requires buf != packet
    requires name.State().Valid() && (name.parts == 4 ==> name.invalid)
    modifies name, buf
    ensures packet[..bound] == p
    ensures ok == (from + len <= |p|)
    ensures ok ==> name.State() == Absorb(old(name.State()), Label(CStr(p[from..from + len])))
    ensures !ok ==> name.State() == old(name.State())
  {
    var i := 0;
    while i < len
      invariant 0 <= i <= len && (i > 0 ==> from + i <= bound)
      invariant forall k :: 0 <= k < i ==> buf[k] == packet[from + k]
      invariant name.State() == old(name.State())
    {
      if from + i >= bound {
        return false;
      }
      buf[i] := packet[from + i];
      i := i + 1;
    }
    buf[len] := 0;
    assert buf[..len] == p[from..from + len];
    name.TakeLabel(CStr(buf[..len]));
    return true;
  }

  /** Reads a name into `name`, one label or pointer at a time, through the scratch buffer `buf`. */
  method ReadFqdnImpl(packet: array<byte>, start: nat, name: Name, buf: array<byte>, bound: nat, depth: nat)
    returns (next: Option<nat>)
    requires bound <= packet.Length && buf.Length == NAME_BUF && buf != packet
    requires name.State().Valid()
    modifies name, buf
    ensures name.State().Valid()
    ensures match Walk(packet[..bound], start, start, depth)
            case None => next == None
            case Some(w) => next == Some(w.next) && name.State() == Fold(old(name.State()), w.items)
    decreases start, 1
  {
    hide *;
    ghost var p := packet[..bound];
    ghost var before := name.State();
    ghost var done: seq<Item> := [];
    var index := 0;
    ReadStarts(p, start, depth, before);
    while start + index < bound && packet[start + index] != 0
      invariant packet[..bound] == p
      invariant name.State().Valid() && name.State() == Fold(before, done)
      invariant ReadSoFar(p, start, start + index, depth, done)
      decreases bound - index
    {
      ghost var pos := start + index;
      ghost var entry := name.State();
      name.FlagIfFull();
      var len := packet[start + index];
      index := index + 1;
      if len < 0xC0 {
        if len > MAX_LABEL {
          ReadFails(p, start, pos, depth, done);
          return None;
        }
        var ok := ReadLabel(packet, start + index, len, name, buf, bound, p);
        if !ok {
          ReadFails(p, start, pos, depth, done);
          return None;
        }
        index := index + len;
        ghost var item := Label(CStr(p[pos + 1..pos + 1 + len]));
        AbsorbFlagged(entry, item);
        ReadOneLabel(p, start, pos, depth, done, before, item);
        done := done + [item];
      } else {
        next := FollowPointer(packet, start, start + index - 1, name, buf, bound, depth, before, done);
        return;
      }
    }
    ReadEnds(p, start, start + index, depth, done);
    return Some(start + index + 1);
  }

  /** The pointer branch of the reader, standing on the pointer's first byte. */
  method FollowPointer(packet: array<byte>, start: nat, pos: nat, name: Name, buf: array<byte>, bound: nat,
                       depth: nat, ghost before: NameState, ghost done: seq<Item>)
    returns (next: Option<nat>)
    requires bound <= packet.Length && buf.Length == NAME_BUF && buf != packet
    requires pos < bound && packet[pos] >= 0xC0
    requires name.State().Valid() && before.Valid()
    requires name.State() == Absorb(Fold(before, done), Hop)
    requires ReadSoFar(packet[..bound], start, pos, depth, done)
    modifies name, buf
    ensures name.State().Valid()
    ensures match Walk(packet[..bound], start, start, depth)
            case None => next == None
            case Some(w) => next == Some(w.next) && name.State() == Fold(before, w.items)
    decreases start, 0
  {
    hide Walk, Fold, ReadSoFar, CStr, Absorb;
    ghost var p := packet[..bound];
    if pos + 1 >= bound {
      ReadFails(p, start, pos, depth, done);
      return None;
    }
    var address := Target(packet[pos], packet[pos + 1]);
    if address >= start || depth >= MAX_HOPS {
      ReadFails(p, start, pos, depth, done);
      return None;
    }
    var r := ReadFqdnImpl(packet, address, name, buf, bound, depth + 1);
    if r == None {
      ReadFails(p, start, pos, depth, done);
      return None;
    }
    ReadOnePointer(p, start, pos, depth, done, before, Walk(p, address, address, depth + 1).value);
    return Some(pos + 2);
  }

  /** mdns_utils_parse_fqdn. */
  method ParseFqdn(packet: array<byte>, start: nat, name: Name, bound: nat) returns (next: Option<nat>)
    requires bound <= packet.Length
    modifies name
    ensures match ReadName(packet[..bound], start)
            case None => next == None
            case Some((n, raw)) => next == Some(n) && name.State() == Arrange(raw)
  {
    name.Clear();
    var buf := new byte[NAME_BUF];
    next := ReadFqdnImpl(packet, start, name, buf, bound, 0);
    if next == None {
      return;
    }
    if name.parts == 0 || name.invalid {
      return;
    }
    if name.parts == 3 {
      name.service, name.proto, name.domain := name.host, name.service, name.proto;
      name.host := [];
    } else if name.parts == 2 {
      name.domain := name.service;
      name.service, name.proto := [], [];
    }
    if EqNoCase(name.domain, LOCAL) || EqNoCase(name.domain, ARPA) {
      return;
    }
    name.invalid := true;
  }
}
