/** The compressing name writer: append_fqdn and the byte writers under it (mdns_send.c, mdns_utils.c).
 *
 * `Out` is the packet buffer with its write index.  The functions say what each writer does
 * to it; class `Packet` does it in place, over one fixed buffer that keeps stale bytes past the index.
 */
module NameWriter {
  import opened Bytes
  import opened NameReader

  const MAX_PACKET := 1460

  datatype Out = Out(bytes: seq<byte>, index: nat)
  {
    predicate Valid() {
      |bytes| == MAX_PACKET && index <= MAX_PACKET
    }

    function Written(): seq<byte>
      requires Valid()
    {
      bytes[..index]
    }

    /** Overwrites what follows the index and moves past it. */
    function Put(data: seq<byte>): (o: Out)
      requires Valid() && index + |data| <= MAX_PACKET
      ensures o.Valid() && o.index == index + |data|
      ensures o.Written() == Written() + data
      ensures forall k :: o.index <= k < MAX_PACKET ==> o.bytes[k] == bytes[k]
    {
      Out(bytes[..index] + data + bytes[index + |data|..], index + |data|)
    }
  }

  lemma PutTwice(o: Out, a: seq<byte>, b: seq<byte>)
    requires o.Valid() && o.index + |a| + |b| <= MAX_PACKET
    ensures o.Put(a).Put(b) == o.Put(a + b)
  {
    assert o.bytes[..o.index] + a + b == o.bytes[..o.index] + (a + b);
    assert o.Put(a).bytes[o.index + |a| + |b|..] == o.bytes[o.index + |a + b|..];
  }

  function U16(v: nat): (d: seq<byte>)
    ensures |d| == 2
  {
    [(v / 256) % 256, v % 256]
  }

  /** The name read at `at` has exactly these parts, in the order they were read. */
  predicate Reads(b: seq<byte>, at: nat, strings: seq<CString>) {
    match ReadName(b, at)
    case None => false
    case Some((_, st)) =>
      st.parts == |strings| && forall i :: 0 <= i < |strings| && i < 4 ==> EqNoCase(strings[i], st.Field(i))
  }

  /** `strlen` kept in a byte. */
  function Len8(s: CString): byte {
    |s| % 256
  }

  /** The candidate test: the first label in full, then the whole name up to case.  A first label
   * that would cross the end of the buffer cannot be read, so it is no candidate. */
  predicate Matches(b: seq<byte>, at: nat, strings: seq<CString>)
    requires at < |b| && strings != []
  {
    var len := Len8(strings[0]);
    && b[at] == len
    && at + 1 + len <= |b|
    && b[at + 1..at + 1 + len] == strings[0][..len]
    && Reads(b, at, strings)
  }

  /** The first candidate in [from, index). */
  function FindMatch(b: seq<byte>, from: nat, index: nat, strings: seq<CString>): (at: Option<nat>)
    requires index <= |b| && strings != []
    ensures at.Some? ==> from <= at.value < index && Matches(b, at.value, strings)
    decreases index - from
  {
    if from >= index then None
    else if Matches(b, from, strings) then Some(from)
    else FindMatch(b, from + 1, index, strings)
  }

  /** append_fqdn: the new buffer and the returned length. */
  function Fqdn(o: Out, strings: seq<CString>): (r: (Out, nat))
    requires o.Valid()
    ensures r.0.Valid()
    decreases |strings|
  {
    if strings == [] then
      if o.index >= MAX_PACKET then (o, 0) else (o.Put([0]), 1)
    else
      match FindMatch(o.bytes, 0, o.index, strings)
      case Some(at) =>
        if o.index + 1 >= MAX_PACKET then (o, 0) else (o.Put(U16(0xC000 + at)), 2)
      case None =>
        var len := Len8(strings[0]);
        if o.index + len + 1 >= MAX_PACKET then (o, 0)
        else
          var next := o.Put([len] + strings[0][..len]);
          if (len + 1) % 256 == 0 then (next, 0)
          else
            var rest := Fqdn(next, strings[1..]);
            (rest.0, (len + 1) % 256 + rest.1)
  }

  lemma {:induction false} SkipNonMatches(b: seq<byte>, from: nat, upto: nat, index: nat, strings: seq<CString>)
    requires from <= upto <= index <= |b| && strings != []
    requires forall k :: from <= k < upto ==> b[k] != Len8(strings[0])
    ensures FindMatch(b, from, index, strings) == FindMatch(b, upto, index, strings)
    decreases upto - from
  {
    hide Reads;
    if from < upto {
      SkipNonMatches(b, from + 1, upto, index, strings);
    }
  }

  /** Places that do not match are passed over. */
  lemma {:induction false} NoneBefore(b: seq<byte>, from: nat, upto: nat, index: nat, strings: seq<CString>)
    requires from <= upto <= index <= |b| && strings != []
    requires forall k :: from <= k < upto ==> !Matches(b, k, strings)
    ensures FindMatch(b, from, index, strings) == FindMatch(b, upto, index, strings)
    decreases upto - from
  {
    hide Matches;
    if from < upto {
      NoneBefore(b, from + 1, upto, index, strings);
    }
  }

  class Packet {
    const bytes: array<byte>
    var index: nat

    ghost predicate Valid()
      reads this
    {
      bytes.Length == MAX_PACKET && index <= MAX_PACKET
    }

    ghost function State(): Out
      reads this, bytes
      requires Valid()
    {
      Out(bytes[..], index)
    }

    constructor ()
      ensures Valid() && fresh(bytes) && index == 0
    {
      bytes := new byte[MAX_PACKET];
      index := 0;
    }

    /** mdns_utils_append_u8. */
    method AppendU8(value: byte) returns (n: nat)
      requires Valid()
      modifies this`index, bytes
      ensures Valid()
      ensures old(index) < MAX_PACKET ==> State() == old(State()).Put([value]) && n == 1
      ensures old(index) >= MAX_PACKET ==> State() == old(State()) && n == 0
    {
      if index >= MAX_PACKET {
        return 0;
      }
      ghost var was := State();
      bytes[index] := value;
      index := index + 1;
      assert bytes[..] == was.Put([value]).bytes;
      return 1;
    }

    /** mdns_utils_append_u16. */
    method AppendU16(value: nat) returns (n: nat)
      requires Valid()
      modifies this`index, bytes
      ensures Valid()
      ensures old(index) + 1 < MAX_PACKET ==> State() == old(State()).Put(U16(value)) && n == 2
      ensures old(index) + 1 >= MAX_PACKET ==> State() == old(State()) && n == 0
    {
      if index + 1 >= MAX_PACKET {
        return 0;
      }
      ghost var was := State();
      bytes[index] := (value / 256) % 256;
      bytes[index + 1] := value % 256;
      index := index + 2;
      assert bytes[..] == was.Put(U16(value)).bytes;
      return 2;
    }

    /** append_string: a length byte and that many bytes of text. */
    method AppendString(s: CString) returns (n: nat)
      requires Valid()
      modifies this`index, bytes
      ensures Valid()
      ensures old(index) + Len8(s) + 1 < MAX_PACKET ==>
                State() == old(State()).Put([Len8(s)] + s[..Len8(s)]) && n == (Len8(s) + 1) % 256
      ensures old(index) + Len8(s) + 1 >= MAX_PACKET ==> State() == old(State()) && n == 0
    {
      var len: nat := Len8(s);
      if index + len + 1 >= MAX_PACKET {
        return 0;
      }
      ghost var was := State();
      var k := AppendU8(len);
      MemCpy(s[..len]);
      PutTwice(was, [len], s[..len]);
      return (len + 1) % 256;
    }

    /** `memcpy` to the index, and past it. */
    method MemCpy(data: seq<byte>)
      requires Valid() && index + |data| <= MAX_PACKET
      modifies this`index, bytes
      ensures Valid() && State() == old(State()).Put(data)
    {
      ghost var was := bytes[..];
      var i := 0;
      while i < |data|
        invariant 0 <= i <= |data| && index == old(index)
        invariant forall k :: 0 <= k < i ==> bytes[index + k] == data[k]
        invariant forall k :: 0 <= k < MAX_PACKET && !(index <= k < index + i) ==> bytes[k] == was[k]
      {
        bytes[index + i] := data[i];
        i := i + 1;
      }
      assert bytes[..] == was[..index] + data + was[index + |data|..];
      index := index + |data|;
    }

    /** `memchr` over the written bytes. */
    method MemChr(from: nat, c: byte) returns (at: Option<nat>)
      requires Valid()
      ensures at.Some? ==> from <= at.value < index && bytes[at.value] == c
      ensures forall k :: from <= k < (if at.Some? then at.value else index) ==> bytes[k] != c
    {
      var i := from;
      while i < index
        invariant from <= i
        invariant forall k :: from <= k < i && k < index ==> bytes[k] != c
      {
        if bytes[i] == c {
          return Some(i);
        }
        i := i + 1;
      }
      return None;
    }

    /** `memcmp` of the bytes at `at` with the first `len` bytes of `s`. */
    method MemEq(at: nat, s: CString, len: nat) returns (eq: bool)
      requires Valid() && len <= |s|
      ensures eq == (at + len <= MAX_PACKET && bytes[..][at..at + len] == s[..len])
    {
      if at + len > MAX_PACKET {
        return false;
      }
      var i := 0;
      while i < len
        invariant 0 <= i <= len
        invariant forall k :: 0 <= k < i ==> bytes[at + k] == s[k]
      {
        if bytes[at + i] != s[i] {
          assert bytes[..][at..at + len][i] != s[..len][i];
          return false;
        }
        i := i + 1;
      }
      return true;
    }

    /** Compares the strings with the parts of the name just read, in buffer order. */
    method SameParts(strings: seq<CString>, name: Name) returns (same: bool)
      requires name.State().Valid() && name.parts == |strings|
      ensures same == forall i :: 0 <= i < |strings| && i < 4 ==> EqNoCase(strings[i], name.State().Field(i))
    {
      var parts := [name.host, name.service, name.proto, name.domain];
      var i := 0;
      while i < |strings|
        invariant 0 <= i <= |strings|
        invariant forall k :: 0 <= k < i ==> EqNoCase(strings[k], name.State().Field(k))
      {
        assert parts[i] == name.State().Field(i);
        if !EqNoCase(strings[i], parts[i]) {
          return false;
        }
        i := i + 1;
      }
      return true;
    }

    /** One candidate of the search: reads the name there and compares it part by part. */
    method TryCandidate(at: nat, strings: seq<CString>, name: Name, buf: array<byte>) returns (ok: bool)
      requires Valid() && at < index && strings != [] && bytes[at] == Len8(strings[0])
      requires buf.Length == NAME_BUF && buf != bytes
      modifies name, buf
      ensures ok == Matches(bytes[..], at, strings)
    {
      hide Walk, Fold, EqNoCase;
      ghost var b := bytes[..];
      var same := MemEq(at + 1, strings[0], Len8(strings[0]));
      if !same {
        return false;
      }
      name.Clear();
      assert bytes[..MAX_PACKET] == b;
      var next := ReadFqdnImpl(bytes, at, name, buf, MAX_PACKET, 0);
      assert bytes[..MAX_PACKET] == bytes[..] == b;
      if next == None || name.parts != |strings| {
        return false;
      }
      ok := SameParts(strings, name);
    }

    /** The search loop of append_fqdn. */
    method FindSuffix(strings: seq<CString>) returns (found: Option<nat>)
      requires Valid() && strings != []
      ensures found == FindMatch(bytes[..], 0, index, strings)
    {
      ghost var b := bytes[..];
      var name := new Name();
      var buf := new byte[NAME_BUF];
      var at := MemChr(0, Len8(strings[0]));
      SkipNonMatches(b, 0, if at.Some? then at.value else index, index, strings);
      while at.Some?
        invariant bytes[..] == b
        invariant at.Some? ==> at.value < index && b[at.value] == Len8(strings[0])
        invariant FindMatch(b, 0, index, strings) == FindMatch(b, if at.Some? then at.value else index, index, strings)
        decreases if at.Some? then index - at.value else 0
      {
        var ok := TryCandidate(at.value, strings, name, buf);
        if ok {
          return at;
        }
        ghost var was := at.value;
        at := MemChr(at.value + 1, Len8(strings[0]));
        SkipNonMatches(b, was + 1, if at.Some? then at.value else index, index, strings);
      }
      return None;
    }

    /** append_fqdn. */
    method AppendFqdn(strings: seq<CString>) returns (n: nat)
      requires Valid()
      modifies this`index, bytes
      ensures Valid()
      ensures (State(), n) == Fqdn(old(State()), strings)
      decreases |strings|
    {
      if strings == [] {
        n := AppendU8(0);
        return;
      }
      var at := FindSuffix(strings);
      if at == None {
        var written := AppendString(strings[0]);
        if written == 0 {
          return 0;
        }
        var rest := AppendFqdn(strings[1..]);
        return written + rest;
      }
      n := AppendU16(0xC000 + at.value);
    }
  }
}
