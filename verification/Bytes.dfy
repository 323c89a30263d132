/** Bytes, C strings and the small result types shared by the other modules. */
module Bytes {

  datatype Option<+T> = None | Some(value: T)

  type byte = b: int | 0 <= b < 256

  /** The text of a C string: the bytes before the terminating NUL. */
  type CString = seq<byte>

  const LOCAL: CString := [108, 111, 99, 97, 108]
  const ARPA: CString := [97, 114, 112, 97]
  const IP6: CString := [105, 112, 54]
  const IN_ADDR: CString := [105, 110, 45, 97, 100, 100, 114]
  const SUB: CString := [95, 115, 117, 98]
  const UNDERSCORE: byte := 95
  const DOT: byte := 46

  /** What a string function sees in a buffer that holds `raw` followed by a NUL. */
  function CStr(raw: seq<byte>): (s: CString)
    ensures |s| <= |raw| && s == raw[..|s|]
    ensures 0 !in s
    ensures |s| < |raw| ==> raw[|s|] == 0
    ensures 0 !in raw ==> s == raw
  {
    if raw == [] || raw[0] == 0 then [] else [raw[0]] + CStr(raw[1..])
  }

  /** `tolower` in the C locale. */
  function Lower(b: byte): byte {
    if 65 <= b <= 90 then b + 32 else b
  }

  /** `strcasecmp(a, b) == 0`. */
  predicate EqNoCase(a: seq<byte>, b: seq<byte>) {
    |a| == |b| && forall i :: 0 <= i < |a| ==> Lower(a[i]) == Lower(b[i])
  }

  /** Equal up to ASCII case: of the same length, and each byte the same or the same letter, A to Z, in the other
   * case. */
  lemma EqNoCaseIff(a: seq<byte>, b: seq<byte>)
    ensures EqNoCase(a, b) <==>
              |a| == |b| && forall i :: 0 <= i < |a| ==>
                a[i] == b[i] || (65 <= a[i] <= 90 && b[i] == a[i] + 32) || (65 <= b[i] <= 90 && a[i] == b[i] + 32)
  {
    if |a| == |b| {
      forall i | 0 <= i < |a|
        ensures Lower(a[i]) == Lower(b[i]) <==>
                  a[i] == b[i] || (65 <= a[i] <= 90 && b[i] == a[i] + 32) || (65 <= b[i] <= 90 && a[i] == b[i] + 32)
      {}
    }
  }

  /** Two lists of strings, equal up to ASCII case. */
  predicate EqAllNoCase(a: seq<seq<byte>>, b: seq<seq<byte>>) {
    |a| == |b| && forall i :: 0 <= i < |a| ==> EqNoCase(a[i], b[i])
  }

  lemma EqSelf(a: CString)
    ensures EqNoCase(a, a)
  {}

  predicate NoRepeats<T(==)>(xs: seq<T>) {
    forall i, j :: 0 <= i < j < |xs| ==> xs[i] != xs[j]
  }

  function Reverse<T>(xs: seq<T>): seq<T> {
    if xs == [] then [] else Reverse(xs[1..]) + [xs[0]]
  }

  lemma {:induction false} ReverseAt<T>(xs: seq<T>, k: nat)
    requires k < |xs|
    ensures |Reverse(xs)| == |xs| && Reverse(xs)[k] == xs[|xs| - 1 - k]
    decreases |xs|
  {
    if |xs| > 1 {
      ReverseAt(xs[1..], if k < |xs| - 1 then k else 0);
    } else {
      assert Reverse(xs[1..]) == [];
    }
  }

  /** Where a record was received: an interface and a protocol. */
  datatype Where = Where(ifx: nat, v6: bool)

  datatype Addr = V4(bits: nat) | V6(bits: nat)

  /** A string that is there and not empty. */
  predicate Given(name: Option<CString>) {
    name.Some? && name.value != []
  }
}
