/** Where the record loop of mdns_parse_packet stops (mdns_receive.c:766-788): the records it has found lie one behind
 * the other, and it has come to the end of the packet, or to a record that is broken. */
module PacketStops {
  import opened Bytes
  import NameReader
  import opened PacketReader

  /** The fields behind the name of a record, which ends at `c`. */
  predicate FieldsAt(p: seq<byte>, c: nat, x: Skimmed) {
    && c + 10 <= |p|
    && x.kind == U16At(p, c) && x.cls == U16At(p, c + 2) % 0x8000 && x.ttl == U32At(p, c + 4)
    && x.len == U16At(p, c + 8) && x.data == c + 10
  }

  /** A whole record: its name can be read, its fields stand behind it, and it has data, all inside the packet. */
  predicate WholeAt(p: seq<byte>, at: nat, x: Skimmed) {
    && x.at == at && at < |p| && x.len > 0 && x.data + x.len <= |p|
    && match NameReader.Walk(p, at, at, 0)
       case None => false
       case Some(w) => FieldsAt(p, w.next, x)
  }

  /** Whole records, one behind the other, from `at` to `end`. */
  predicate InLine(p: seq<byte>, at: nat, records: seq<Skimmed>, end: nat)
    decreases |records|
  {
    if records == [] then at == end
    else WholeAt(p, at, records[0]) && InLine(p, records[0].data + records[0].len, records[1..], end)
  }

  /** No whole record stands there: its name cannot be read, fewer than ten bytes are left behind it, or its data are
   * empty or run past the end. */
  predicate BrokenAt(p: seq<byte>, at: nat) {
    && at < |p|
    && match NameReader.Walk(p, at, at, 0)
       case None => true
       case Some(w) =>
         w.next + 10 > |p| || U16At(p, w.next + 8) == 0 || w.next + 10 + U16At(p, w.next + 8) > |p|
  }

  /** The loop finds every whole record up to where it stops: at the end of the packet, or at the first that is
   * broken. */
  lemma {:induction false} StopsWhere(p: seq<byte>, at: nat) returns (end: nat)
    ensures var (records, ok) := SkimRecords(p, at);
            InLine(p, at, records, end) && (if ok then end >= |p| else BrokenAt(p, end))
    decreases |p| - at
  {
    hide NameReader.Walk, SkimRecords, U16At, U32At;
    end := at;
    if at >= |p| {
      RecordsEnd(p, at);
    } else {
      RecordStep(p, at);
      NameStep(p, at);
      var found := NameReader.Walk(p, at, at, 0);
      if found.Some? {
        var c := found.value.next;
        if c + 9 < |p| && U16At(p, c + 8) != 0 && c + 10 + U16At(p, c + 8) <= |p| {
          end := StopsWhere(p, c + 10 + U16At(p, c + 8));
          var records := SkimRecords(p, at).0;
          assert records[1..] == SkimRecords(p, c + 10 + U16At(p, c + 8)).0;
        }
      }
    }
  }

  /** A 16-bit and a 32-bit field, most significant byte first. */
  lemma FieldsAre(p: seq<byte>, at: nat)
    requires at + 3 < |p|
    ensures var a: nat, b: nat, c: nat, d: nat := p[at], p[at + 1], p[at + 2], p[at + 3];
            U16At(p, at) == 256 * a + b && U32At(p, at) == 0x100_0000 * a + 0x1_0000 * b + 256 * c + d
  {}

  // ---------- Questions ----------

  /** A whole question: its name can be read, and its type and class stand behind it. */
  predicate QuestionAt(p: seq<byte>, at: nat, x: Asked, end: nat) {
    && x.at == at
    && match NameReader.Walk(p, at, at, 0)
       case None => false
       case Some(w) =>
         && w.next + 4 <= |p| && end == w.next + 4
         && x.kind == U16At(p, w.next)
         && x.unicast == (U16At(p, w.next + 2) >= 0x8000) && x.cls == U16At(p, w.next + 2) % 0x8000
  }

  predicate AskedInLine(p: seq<byte>, at: nat, questions: seq<Asked>, ends: seq<nat>, end: nat)
    decreases |questions|
  {
    && |ends| == |questions|
    && if questions == [] then at == end
       else QuestionAt(p, at, questions[0], ends[0]) && AskedInLine(p, ends[0], questions[1..], ends[1..], end)
  }

  predicate NoQuestionAt(p: seq<byte>, at: nat) {
    match NameReader.Walk(p, at, at, 0)
    case None => true
    case Some(w) => w.next + 4 > |p|
  }

  /** The loop over the questions finds as many as the header counts, one behind the other, or fails at the first that
   * cannot be read. */
  lemma {:induction false} QuestionsStop(p: seq<byte>, at: nat, n: nat) returns (ends: seq<nat>, end: nat)
    ensures var (questions, next) := SkimQuestions(p, at, n);
            && AskedInLine(p, at, questions, ends, end)
            && if |questions| == n then next == Some(end) else next == None && |questions| < n && NoQuestionAt(p, end)
    decreases n
  {
    hide NameReader.Walk, SkimQuestions, U16At;
    ends, end := [], at;
    if n == 0 {
      QuestionsEnd(p, at);
    } else {
      QuestionStep(p, at, n);
      var found := NameReader.Walk(p, at, at, 0);
      if found.Some? && found.value.next + 3 < |p| {
        var c := found.value.next;
        var more;
        more, end := QuestionsStop(p, c + 4, n - 1);
        ends := [c + 4] + more;
        var questions := SkimQuestions(p, at, n).0;
        assert questions[1..] == SkimQuestions(p, c + 4, n - 1).0 && ends[1..] == more;
      }
    }
  }
}
