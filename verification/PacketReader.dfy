/** The loops of mdns_parse_packet that go over the questions and the records of a packet (mdns_receive.c:679-700,
 * 766-788), as far as the packet's framing goes. */
module PacketReader {
  import opened Bytes
  import opened NameReader

  function U16At(p: seq<byte>, at: nat): nat
    requires at + 1 < |p|
  {
    var hi: nat := p[at];
    hi * 256 + p[at + 1]
  }

  function U32At(p: seq<byte>, at: nat): nat
    requires at + 3 < |p|
  {
    U16At(p, at) * 0x1_0000 + U16At(p, at + 2)
  }

  /** Where a record's name begins, its type, class without the flush bit, time to live and data. */
  datatype Skimmed = Skimmed(at: nat, kind: nat, cls: nat, ttl: nat, data: nat, len: nat)

  datatype Asked = Asked(at: nat, kind: nat, unicast: bool, cls: nat)

  /** The records from `at` on, and whether the loop reached the end of the packet. */
  function SkimRecords(p: seq<byte>, at: nat): (seq<Skimmed>, bool)
    decreases |p| - at
  {
    if at >= |p| then ([], true)
    else
      match Walk(p, at, at, 0)
      case None => ([], false)
      case Some(w) =>
        var c := w.next;
        if c + 9 >= |p| then ([], false)
        else
          var len := U16At(p, c + 8);
          if c + 10 + len > |p| || len == 0 then ([], false)
          else
            WalkProgress(p, at, at, 0);
            var (rest, ok) := SkimRecords(p, c + 10 + len);
            ([Skimmed(at, U16At(p, c), U16At(p, c + 2) % 0x8000, U32At(p, c + 4), c + 10, len)] + rest, ok)
  }

  /** `n` questions from `at` on, and where the records begin, if all questions could be read. */
  function SkimQuestions(p: seq<byte>, at: nat, n: nat): (seq<Asked>, Option<nat>)
    decreases n
  {
    if n == 0 then ([], Some(at))
    else
      match Walk(p, at, at, 0)
      case None => ([], None)
      case Some(w) =>
        var c := w.next;
        if c + 3 >= |p| then ([], None)
        else
          var (rest, end) := SkimQuestions(p, c + 4, n - 1);
          ([Asked(at, U16At(p, c), U16At(p, c + 2) >= 0x8000, U16At(p, c + 2) % 0x8000)] + rest, end)
  }

  /** Every record found lies inside the packet, after the one before. */
  lemma {:induction false} RecordsLieInside(p: seq<byte>, at: nat)
    ensures var (records, ok) := SkimRecords(p, at);
            && (forall i :: 0 <= i < |records| ==>
                  at + 11 <= records[i].data && records[i].len > 0 && records[i].data + records[i].len <= |p|)
            && (forall i, j :: 0 <= i < j < |records| ==> records[i].data + records[i].len + 11 <= records[j].data)
            && (at <= |p| ==> 11 * |records| <= |p| - at)
    decreases |p| - at
  {
    hide Walk;
    if at < |p| && Walk(p, at, at, 0).Some? {
      var c := Walk(p, at, at, 0).value.next;
      WalkProgress(p, at, at, 0);
      if c + 9 < |p| {
        var len := U16At(p, c + 8);
        if c + 10 + len <= |p| && len > 0 {
          RecordsLieInside(p, c + 10 + len);
        }
      }
    }
  }

  // ---------- The program ----------

  /** mdns_utils_read_u16. */
  method ReadU16(packet: array<byte>, at: nat) returns (v: nat)
    requires at + 1 < packet.Length
    ensures v == U16At(packet[..], at)
  {
    var hi: nat := packet[at];
    v := hi * 256 + packet[at + 1];
  }

  lemma SameU16(p: seq<byte>, q: seq<byte>, at: nat)
    requires at + 1 < |p| <= |q| && q[..|p|] == p
    ensures U16At(p, at) == U16At(q, at)
  {
    assert p[at] == q[..|p|][at] && p[at + 1] == q[..|p|][at + 1];
  }

  /** The record loop: it ends, and reads nothing outside the `len` bytes of the packet. */
  method ReadRecords(packet: array<byte>, len: nat, start: nat, name: Name)
    returns (records: seq<Skimmed>, complete: bool)
    requires len <= packet.Length
    modifies name
    ensures (records, complete) == SkimRecords(packet[..len], start)
  {
    hide Walk, SkimRecords, U16At, U32At, ReadName;
    records := [];
    var content := start;
    ghost var p := packet[..len];
    ghost var spec := SkimRecords(p, start);
    assert records + spec.0 == spec.0;
    while content < len
      invariant packet[..len] == p
      invariant var (rest, ok) := SkimRecords(p, content); spec == (records + rest, ok)
      decreases if content < len then len - content else 0
    {
      RecordStep(p, content);
      NameStep(p, content);
      var next := ParseFqdn(packet, content, name, len);
      if next == None {
        assert records + [] == records;
        return records, false;
      }
      var c := next.value;
      if c + 9 >= len {
        assert records + [] == records;
        return records, false;
      }
      SameFields(packet[..], p, c);
      var kind := ReadU16(packet, c);
      var cls := ReadU16(packet, c + 2);
      var hi := ReadU16(packet, c + 4);
      var lo := ReadU16(packet, c + 6);
      var dataLen := ReadU16(packet, c + 8);
      var at := content;
      content := c + 10 + dataLen;
      if content > len || dataLen == 0 {
        assert records + [] == records;
        return records, false;
      }
      ghost var rest := SkimRecords(p, content).0;
      var r := Skimmed(at, kind, cls % 0x8000, hi * 0x1_0000 + lo, c + 10, dataLen);
      assert records + ([r] + rest) == records + [r] + rest;
      records := records + [r];
    }
    RecordsEnd(p, content);
    assert records + [] == records;
    return records, true;
  }

  lemma SameFields(q: seq<byte>, p: seq<byte>, c: nat)
    requires |p| <= |q| && q[..|p|] == p && c + 9 < |p|
    ensures U16At(q, c) == U16At(p, c) && U16At(q, c + 2) == U16At(p, c + 2) && U16At(q, c + 8) == U16At(p, c + 8)
    ensures U16At(q, c + 4) * 0x1_0000 + U16At(q, c + 6) == U32At(p, c + 4)
  {
    SameU16(p, q, c);
    SameU16(p, q, c + 2);
    SameU16(p, q, c + 4);
    SameU16(p, q, c + 6);
    SameU16(p, q, c + 8);
  }

  lemma NameStep(p: seq<byte>, at: nat)
    ensures match Walk(p, at, at, 0)
            case None => ReadName(p, at) == None
            case Some(w) => ReadName(p, at).Some? && ReadName(p, at).value.0 == w.next && at < w.next
  {
    hide Walk;
    if Walk(p, at, at, 0).Some? {
      WalkProgress(p, at, at, 0);
    }
  }

  lemma RecordStep(p: seq<byte>, at: nat)
    requires at < |p|
    ensures SkimRecords(p, at) ==
              match Walk(p, at, at, 0)
              case None => ([], false)
              case Some(w) =>
                var c := w.next;
                if c + 9 >= |p| || U16At(p, c + 8) == 0 || c + 10 + U16At(p, c + 8) > |p| then ([], false)
                else
                  var (rest, ok) := SkimRecords(p, c + 10 + U16At(p, c + 8));
                  ([Skimmed(at, U16At(p, c), U16At(p, c + 2) % 0x8000, U32At(p, c + 4), c + 10, U16At(p, c + 8))]
                    + rest, ok)
  {
    hide Walk;
    if Walk(p, at, at, 0).Some? {
      WalkProgress(p, at, at, 0);
    }
  }

  lemma RecordsEnd(p: seq<byte>, at: nat)
    requires at >= |p|
    ensures SkimRecords(p, at) == ([], true)
  {}

  /** The question loop. */
  method ReadQuestions(packet: array<byte>, len: nat, start: nat, n: nat, name: Name)
    returns (questions: seq<Asked>, end: Option<nat>)
    requires len <= packet.Length
    modifies name
    ensures (questions, end) == SkimQuestions(packet[..len], start, n)
  {
    hide Walk, SkimQuestions, U16At, ReadName;
    questions := [];
    var content := start;
    var left := n;
    ghost var p := packet[..len];
    ghost var spec := SkimQuestions(p, start, n);
    assert questions + spec.0 == spec.0;
    while left > 0
      invariant packet[..len] == p
      invariant var (rest, at) := SkimQuestions(p, content, left); spec == (questions + rest, at)
    {
      QuestionStep(p, content, left);
      NameStep(p, content);
      var next := ParseFqdn(packet, content, name, len);
      if next == None || next.value + 3 >= len {
        assert questions + [] == questions;
        return questions, None;
      }
      var c := next.value;
      SameU16(p, packet[..], c);
      SameU16(p, packet[..], c + 2);
      var kind := ReadU16(packet, c);
      var cls := ReadU16(packet, c + 2);
      var at := content;
      content := c + 4;
      left := left - 1;
      ghost var rest := SkimQuestions(p, content, left).0;
      var x := Asked(at, kind, cls >= 0x8000, cls % 0x8000);
      assert questions + ([x] + rest) == questions + [x] + rest;
      questions := questions + [x];
    }
    QuestionsEnd(p, content);
    assert questions + [] == questions;
    return questions, Some(content);
  }

  lemma QuestionStep(p: seq<byte>, at: nat, n: nat)
    requires n > 0
    ensures SkimQuestions(p, at, n) ==
              match Walk(p, at, at, 0)
              case None => ([], None)
              case Some(w) =>
                var c := w.next;
                if c + 3 >= |p| then ([], None)
                else
                  var (rest, end) := SkimQuestions(p, c + 4, n - 1);
                  ([Asked(at, U16At(p, c), U16At(p, c + 2) >= 0x8000, U16At(p, c + 2) % 0x8000)] + rest, end)
  {
    hide Walk;
  }

  lemma QuestionsEnd(p: seq<byte>, at: nat)
    ensures SkimQuestions(p, at, 0) == ([], Some(at))
  {}
}
