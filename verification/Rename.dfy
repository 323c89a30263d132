/** New names after a conflict (section 9 of RFC 6762): mangle_name (mdns_receive.c:138-176) and the move of
 * services to the new host name (mdns_responder.c:533-545). */
module Rename {
  import opened Bytes
  import NameReader

  const DASH: byte := 45
  const PLUS: byte := 43
  const ZERO: byte := 48
  const INT_MAX := 0x7FFF_FFFF

  predicate IsDigit(b: byte) {
    48 <= b <= 57
  }

  predicate IsSpace(b: byte) {
    9 <= b <= 13 || b == 32
  }

  predicate AllDigits(s: seq<byte>) {
    forall i :: 0 <= i < |s| ==> IsDigit(s[i])
  }

  // ---------- Numerals ----------

  function Value(digits: seq<byte>): nat
    requires AllDigits(digits)
  {
    if digits == [] then 0 else 10 * Value(digits[..|digits| - 1]) + (digits[|digits| - 1] - ZERO)
  }

  /** `%d` of a number that is not negative. */
  function Decimal(n: nat): (s: seq<byte>)
    ensures AllDigits(s) && s != [] && DASH !in s
  {
    (if n < 10 then [] else Decimal(n / 10)) + [ZERO + n % 10]
  }

  lemma DecimalStep(n: nat)
    ensures Decimal(n) == (if n < 10 then [] else Decimal(n / 10)) + [ZERO + n % 10]
  {}

  lemma ValueSnoc(digits: seq<byte>, d: byte)
    requires AllDigits(digits) && IsDigit(d)
    ensures Value(digits + [d]) == 10 * Value(digits) + (d - ZERO)
  {
    assert (digits + [d])[..|digits|] == digits;
  }

  lemma {:induction false} ValueOfDecimal(n: nat)
    ensures Value(Decimal(n)) == n
    decreases n
  {
    hide Value, Decimal;
    DecimalStep(n);
    if n < 10 {
      ValueSnoc([], ZERO + n);
      NoDigits();
    } else {
      ValueOfDecimal(n / 10);
      ValueSnoc(Decimal(n / 10), ZERO + n % 10);
    }
  }

  /** A number is written with no more digits than any numeral it was read from. */
  lemma {:induction false} DecimalIsShort(digits: seq<byte>)
    requires AllDigits(digits) && digits != []
    ensures |Decimal(Value(digits))| <= |digits|
    decreases |digits|
  {
    var rest := digits[..|digits| - 1];
    if rest == [] {
      assert Value(rest) == 0;
    } else {
      DecimalIsShort(rest);
      assert Value(digits) / 10 == Value(rest);
    }
  }

  /** Counting on adds a digit at most. */
  lemma {:induction false} NextIsShort(n: nat)
    ensures |Decimal(n + 1)| <= |Decimal(n)| + 1
    decreases n
  {
    if n >= 10 {
      NextIsShort(n / 10);
      assert (n + 1) / 10 == n / 10 || (n + 1) / 10 == n / 10 + 1;
    }
  }

  // ---------- Reading a suffix ----------

  function SkipSpace(s: seq<byte>): seq<byte> {
    if s != [] && IsSpace(s[0]) then SkipSpace(s[1..]) else s
  }

  function DigitsLen(s: seq<byte>): (n: nat)
    ensures n <= |s| && AllDigits(s[..n]) && (n < |s| ==> !IsDigit(s[n]))
  {
    if s == [] || !IsDigit(s[0]) then 0 else 1 + DigitsLen(s[1..])
  }

  /** The numeral in the text, after white space and one sign.  The text has no dash. */
  function Numeral(s: seq<byte>): seq<byte> {
    var t := SkipSpace(s);
    if t != [] && t[0] == PLUS then t[1..] else t
  }

  /** `strtol` in base 10 with `*endp == 0` after it: the value, clamped, or none.  Without a digit nothing is
   * read, so only the empty text ends where it starts. */
  function Suffix(s: seq<byte>): (v: Option<nat>)
    ensures v.Some? ==> v.value <= INT_MAX
  {
    var digits := Numeral(s);
    if s == [] then Some(0)
    else if digits == [] || DigitsLen(digits) < |digits| then None
    else Some(if Value(digits) > INT_MAX then INT_MAX else Value(digits))
  }

  /** strrchr: where the last dash is. */
  function LastDash(s: seq<byte>): (at: Option<nat>)
    ensures at.Some? ==> at.value < |s| && s[at.value] == DASH && DASH !in s[at.value + 1..]
    ensures at.None? <==> DASH !in s
  {
    if s == [] then None
    else if s[|s| - 1] == DASH then Some(|s| - 1)
    else
      var r := LastDash(s[..|s| - 1]);
      assert s == s[..|s| - 1] + [s[|s| - 1]];
      assert r.Some? ==> s[r.value + 1..] == s[..|s| - 1][r.value + 1..] + [s[|s| - 1]];
      r
  }

  /** The name without its number, and the number, if there is one. */
  function Split(name: CString): (seq<byte>, Option<nat>) {
    match LastDash(name)
    case None => (name, None)
    case Some(at) =>
      match Suffix(name[at + 1..])
      case None => (name, None)
      case Some(v) => (name[..at], Some(v))
  }

  function Numbered(base: seq<byte>, n: nat): seq<byte> {
    base + [DASH] + Decimal(n)
  }

  /** The number of the next name. */
  function NextNumber(name: CString): nat {
    match Split(name).1 case None => 2 case Some(v) => v + 1
  }

  /** mangle_name, as long as the number fits an int. */
  function Mangled(name: CString): seq<byte> {
    Numbered(Split(name).0, NextNumber(name))
  }

  // ---------- The program ----------

  /** What the program allocates for the new name, with its terminating NUL. */
  function Allocated(name: CString): nat {
    if Split(name).1.None? then |name| + 3 else |name| + 2
  }

  lemma SplitShape(name: CString)
    ensures var (base, n) := Split(name); n.Some? ==> base + [DASH] + name[|base| + 1..] == name && |base| < |name|
  {}

  lemma {:induction false} SkipSpaceIsShort(s: seq<byte>)
    ensures |SkipSpace(s)| <= |s|
    decreases |s|
  {
    if s != [] && IsSpace(s[0]) {
      SkipSpaceIsShort(s[1..]);
    }
  }

  /** Every new name fits what was allocated for it, as long as the number does not overflow. */
  lemma MangledFits(name: CString)
    requires NextNumber(name) <= INT_MAX
    ensures |Mangled(name)| + 1 <= Allocated(name)
  {
    SplitShape(name);
    var (base, n) := Split(name);
    if n.Some? {
      var tail := name[|base| + 1..];
      var digits := Numeral(tail);
      SkipSpaceIsShort(tail);
      if tail != [] {
        assert digits[..DigitsLen(digits)] == digits;
        DecimalIsShort(digits);
      }
      NextIsShort(n.value);
    }
  }

  /** The last dash of the name, as strrchr finds it. */
  method StrRChr(s: CString) returns (at: Option<nat>)
    ensures at == LastDash(s)
  {
    var i := |s|;
    assert s[..i] == s;
    while i > 0
      invariant 0 <= i <= |s| && LastDash(s) == LastDash(s[..i])
    {
      assert s[..i][|s[..i]| - 1] == s[i - 1] && s[..i][..|s[..i]| - 1] == s[..i - 1];
      if s[i - 1] == DASH {
        return Some(i - 1);
      }
      i := i - 1;
    }
    return None;
  }

  lemma SpaceGoesOn(s: seq<byte>, i: nat)
    requires i < |s|
    ensures SkipSpace(s[i..]) == if IsSpace(s[i]) then SkipSpace(s[i + 1..]) else s[i..]
  {
    assert s[i..][0] == s[i] && s[i..][1..] == s[i + 1..];
  }

  lemma DigitsGoOn(s: seq<byte>, i: nat)
    requires i < |s|
    ensures DigitsLen(s[i..]) == if IsDigit(s[i]) then 1 + DigitsLen(s[i + 1..]) else 0
  {
    assert s[i..][0] == s[i] && s[i..][1..] == s[i + 1..];
  }

  lemma ValueGoesOn(s: seq<byte>, i: nat)
    requires i < |s| && AllDigits(s[..i]) && IsDigit(s[i])
    ensures AllDigits(s[..i + 1]) && Value(s[..i + 1]) == 10 * Value(s[..i]) + (s[i] - ZERO)
  {
    assert s[..i + 1][..i] == s[..i] && s[..i + 1][i] == s[i];
  }

  /** The white space and sign that strtol skips. */
  method SkipToDigits(s: seq<byte>) returns (i: nat)
    ensures i <= |s| && s[i..] == Numeral(s) && (i == |s| ==> Numeral(s) == [])
  {
    hide SkipSpace;
    i := 0;
    assert s[0..] == s;
    while i < |s| && IsSpace(s[i])
      invariant i <= |s| && SkipSpace(s[i..]) == SkipSpace(s)
    {
      SpaceGoesOn(s, i);
      i := i + 1;
    }
    if i < |s| {
      SpaceGoesOn(s, i);
      if s[i] == PLUS {
        assert s[i..][1..] == s[i + 1..];
        i := i + 1;
      }
    } else {
      NoSpace();
      assert s[i..] == [];
    }
  }

  lemma NoSpace()
    ensures SkipSpace([]) == []
  {}

  /** Reads digits, and clamps what they stand for. */
  method ReadDigits(s: seq<byte>) returns (value: nat, n: nat)
    ensures n == DigitsLen(s) && value == if Value(s[..n]) > INT_MAX then INT_MAX else Value(s[..n])
  {
    hide DigitsLen, Value;
    value, n := 0, 0;
    assert s[0..] == s && s[..0] == [];
    NoDigits();
    while n < |s| && IsDigit(s[n])
      invariant n <= |s| && n + DigitsLen(s[n..]) == DigitsLen(s) && AllDigits(s[..n])
      invariant value == if Value(s[..n]) > INT_MAX then INT_MAX else Value(s[..n])
    {
      DigitsGoOn(s, n);
      ValueGoesOn(s, n);
      value := if 10 * value + (s[n] - ZERO) > INT_MAX then INT_MAX else 10 * value + (s[n] - ZERO);
      n := n + 1;
    }
    if n < |s| {
      DigitsGoOn(s, n);
    } else {
      assert s[n..] == [];
    }
  }

  lemma NoDigits()
    ensures Value([]) == 0 && DigitsLen([]) == 0
  {}

  /** `strtol` in base 10: the value, and where it stopped. */
  method StrToL(s: CString) returns (value: nat, end: nat)
    ensures end <= |s| && (end == |s| <==> Suffix(s).Some?)
    ensures Suffix(s).Some? ==> value == Suffix(s).value
  {
    hide SkipSpace, DigitsLen, Value, Numeral;
    var i := SkipToDigits(s);
    var digits := s[i..];
    var n;
    value, n := ReadDigits(digits);
    end := if n == 0 then 0 else i + n;
    assert n == |digits| ==> digits[..n] == digits;
    if s == [] {
      assert digits[..0] == [];
      NoDigits();
    }
  }

  /** mangle_name: the new name and what was allocated for it. */
  method MangleName(name: CString) returns (r: seq<byte>, room: nat)
    requires NextNumber(name) <= INT_MAX
    ensures r == Mangled(name) && |r| + 1 <= room
  {
    hide LastDash, Suffix, Decimal;
    MangledFits(name);
    Two();
    var p := StrRChr(name);
    var suffix := 0;
    if p.Some? {
      var end: nat;
      suffix, end := StrToL(name[p.value + 1..]);
      if end != |name[p.value + 1..]| {
        p := None;
      }
    }
    if p.None? {
      return name + [DASH] + [ZERO + 2], |name| + 3;
    }
    return name[..p.value] + [DASH] + Decimal(suffix + 1), |name| + 2;
  }

  lemma Two()
    ensures Decimal(2) == [ZERO + 2]
  {}

  // ---------- Names never repeat ----------

  lemma {:induction false} SkipNothing(s: seq<byte>)
    requires AllDigits(s)
    ensures SkipSpace(s) == s && DigitsLen(s) == |s|
    decreases |s|
  {
    if s != [] {
      SkipNothing(s[1..]);
    }
  }

  lemma {:induction false} LastDashOf(base: seq<byte>, tail: seq<byte>)
    requires DASH !in tail
    ensures LastDash(base + [DASH] + tail) == Some(|base|)
    decreases |tail|
  {
    var s := base + [DASH] + tail;
    if tail == [] {
      assert s[|s| - 1] == DASH;
    } else {
      var shorter := tail[..|tail| - 1];
      assert s[|s| - 1] == tail[|tail| - 1];
      assert s[..|s| - 1] == base + [DASH] + shorter;
      LastDashOf(base, shorter);
    }
  }

  lemma SuffixOfDecimal(n: nat)
    requires n <= INT_MAX
    ensures Suffix(Decimal(n)) == Some(n)
  {
    hide SkipSpace, DigitsLen, Value, Decimal;
    var s := Decimal(n);
    SkipNothing(s);
    ValueOfDecimal(n);
    assert IsDigit(s[0]);
  }

  /** A numbered name counts on. */
  lemma NumberedCounts(base: seq<byte>, n: nat)
    requires n <= INT_MAX
    ensures Split(Numbered(base, n)) == (base, Some(n)) && Mangled(Numbered(base, n)) == Numbered(base, n + 1)
  {
    hide LastDash, Suffix, Decimal;
    var name := Numbered(base, n);
    LastDashOf(base, Decimal(n));
    assert name[|base| + 1..] == Decimal(n) && name[..|base|] == base;
    SuffixOfDecimal(n);
  }

  lemma NumberedInjective(base: seq<byte>, m: nat, n: nat)
    requires Numbered(base, m) == Numbered(base, n)
    ensures m == n
  {
    hide Decimal, Value;
    assert Numbered(base, m)[|base| + 1..] == Decimal(m) && Numbered(base, n)[|base| + 1..] == Decimal(n);
    ValueOfDecimal(m);
    ValueOfDecimal(n);
  }

  /** The name after `k` conflicts. */
  function After(name: CString, k: nat): seq<byte> {
    if k == 0 then name else Mangled(After(name, k - 1))
  }

  lemma {:induction false} AfterIs(name: CString, k: nat)
    requires k >= 1 && NextNumber(name) + k - 1 <= INT_MAX
    ensures After(name, k) == Numbered(Split(name).0, NextNumber(name) + k - 1)
    decreases k
  {
    hide Split, Numbered, NextNumber;
    if k > 1 {
      AfterIs(name, k - 1);
      NumberedCounts(Split(name).0, NextNumber(name) + k - 2);
    } else {
      assert After(name, 0) == name;
    }
  }

  lemma NotYet(name: CString)
    ensures After(name, 0) == name
  {}

  lemma Later(name: CString)
    ensures Split(name).1.Some? ==> NextNumber(name) == Split(name).1.value + 1
  {}

  /** Names given after conflicts are pairwise different, and different from the first, until the number
   * overflows an int. */
  lemma NeverTheSame(name: CString, j: nat, k: nat)
    requires j < k && NextNumber(name) + k - 1 <= INT_MAX
    ensures After(name, j) != After(name, k)
  {
    hide Split, Numbered, After, LastDash, Suffix, Decimal;
    var base := Split(name).0;
    AfterIs(name, k);
    if j > 0 {
      AfterIs(name, j);
      if After(name, j) == After(name, k) {
        NumberedInjective(base, NextNumber(name) + j - 1, NextNumber(name) + k - 1);
      }
    } else {
      NotYet(name);
      if name == After(name, k) {
        NumberedCounts(base, NextNumber(name) + k - 1);
        Later(name);
      }
    }
  }

  /** A name with no dash gets its number from 2 on: after `k` conflicts it ends in k + 1. */
  lemma PlainNames(name: CString, k: nat)
    requires DASH !in name && 1 <= k < INT_MAX
    ensures After(name, k) == name + [45] + Decimal(k + 1)
  {
    AfterIs(name, k);
  }

  // ---------- Names and labels ----------

  function Power10(d: nat): nat {
    if d == 0 then 1 else 10 * Power10(d - 1)
  }

  /** A number has at most `d` digits exactly when it is less than the d-th power of ten. */
  lemma {:induction false} DecimalLength(n: nat, d: nat)
    requires d >= 1
    ensures |Decimal(n)| <= d <==> n < Power10(d)
    decreases n
  {
    hide Decimal;
    DecimalStep(n);
    if n >= 10 {
      if d == 1 {
        assert Power10(1) == 10 * Power10(0);
      } else {
        DecimalLength(n / 10, d - 1);
        assert n / 10 < Power10(d - 1) <==> n < 10 * Power10(d - 1);
      }
    } else {
      PowerIsTen(d);
    }
  }

  lemma {:induction false} PowerIsTen(d: nat)
    requires d >= 1
    ensures Power10(d) >= 10
    decreases d
  {
    if d > 1 {
      PowerIsTen(d - 1);
    }
  }

  /** After `k` conflicts the name still fits a label exactly when what stands before the number leaves room for the
   * dash and for every digit of the number. */
  lemma FitsLabelIff(name: CString, k: nat)
    requires k >= 1 && NextNumber(name) + k - 1 <= INT_MAX
    ensures var room := 62 - |Split(name).0|;
            |After(name, k)| <= 63 <==> room >= 1 && NextNumber(name) + k - 1 < Power10(room)
  {
    hide After, Decimal, Split, NextNumber;
    AfterIs(name, k);
    var base := |Split(name).0|;
    if base + 2 <= NameReader.MAX_LABEL {
      DecimalLength(NextNumber(name) + k - 1, NameReader.MAX_LABEL - 1 - base);
    }
  }

  /** A name of up to 52 bytes fits after any number of conflicts; a name of 62 or 63 bytes without a number is too
   * long after the first. */
  lemma ShortNamesFit(name: CString, k: nat)
    requires k >= 1 && NextNumber(name) + k - 1 <= INT_MAX
    ensures |name| <= 52 ==> |After(name, k)| <= 63
    ensures |name| >= 62 && Split(name).1 == None ==> |After(name, k)| > 63
  {
    hide After, Decimal, LastDash, Suffix;
    FitsLabelIff(name, k);
    var base := |Split(name).0|;
    if |name| <= 52 {
      assert base <= |name|;
      ManyDigits(NameReader.MAX_LABEL - 1 - base);
    }
  }

  lemma ManyDigits(d: nat)
    requires d >= 10
    ensures Power10(d) > INT_MAX
  {
    if d > 10 {
      ManyDigits(d - 1);
    } else {
      assert Power10(10) == 100_000 * Power10(5) && Power10(5) == 100_000 by {
        assert Power10(5) == 10 * Power10(4) && Power10(4) == 10 * Power10(3) && Power10(3) == 10 * Power10(2);
        assert Power10(2) == 10 * Power10(1) && Power10(1) == 10 * Power10(0);
        assert Power10(10) == 10 * Power10(9) && Power10(9) == 10 * Power10(8) && Power10(8) == 10 * Power10(7);
        assert Power10(7) == 10 * Power10(6) && Power10(6) == 10 * Power10(5);
      }
    }
  }

  // ---------- Services on the renamed host ----------

  function Moved(hosts: seq<Option<CString>>, from: CString, to': CString): (r: seq<Option<CString>>)
    ensures |r| == |hosts|
    ensures forall i :: 0 <= i < |hosts| ==> r[i] == if hosts[i] == Some(from) then Some(to') else hosts[i]
  {
    seq(|hosts|, i requires 0 <= i < |hosts| => if hosts[i] == Some(from) then Some(to') else hosts[i])
  }

  /** mdns_priv_remap_self_service_hostname: the host names of the services, in place. */
  method RemapServiceHosts(hosts: array<Option<CString>>, from: CString, to': CString)
    modifies hosts
    ensures hosts[..] == Moved(old(hosts[..]), from, to')
  {
    var i := 0;
    while i < hosts.Length
      invariant 0 <= i <= hosts.Length
      invariant forall k :: 0 <= k < i ==> hosts[k] == Moved(old(hosts[..]), from, to')[k]
      invariant forall k :: i <= k < hosts.Length ==> hosts[k] == old(hosts[k])
    {
      if hosts[i].Some? && hosts[i].value == from {
        hosts[i] := Some(to');
      }
      i := i + 1;
    }
  }

  /** The host names of the services after each of `k` conflicts renamed the host. */
  function MovedAll(hosts: seq<Option<CString>>, name: CString, k: nat): (r: seq<Option<CString>>)
    ensures |r| == |hosts|
  {
    if k == 0 then hosts else Moved(MovedAll(hosts, name, k - 1), After(name, k - 1), After(name, k))
  }

  /** The host name is the one the renaming began with, or one it came to before the last conflict. */
  ghost predicate OnTheWay(host: Option<CString>, name: CString, k: nat) {
    exists j: nat :: j < k && host == Some(After(name, j))
  }

  lemma {:induction false} WhereItGoes(host: Option<CString>, hosts: seq<Option<CString>>, name: CString, k: nat,
                                       i: nat)
    requires i < |hosts| && hosts[i] == host
    ensures MovedAll(hosts, name, k)[i] == if OnTheWay(host, name, k) then Some(After(name, k)) else host
    decreases k
  {
    hide After;
    if k > 0 {
      WhereItGoes(host, hosts, name, k - 1, i);
      assert OnTheWay(host, name, k) <==> OnTheWay(host, name, k - 1) || host == Some(After(name, k - 1));
    }
  }

  /** Renaming after each of `k` conflicts moves a service if and only if it was on the host, or on a host that has a
   * name the renaming passes through; it then has the last name. */
  lemma ServicesFollow(hosts: seq<Option<CString>>, name: CString, k: nat, i: nat)
    requires i < |hosts| && (k > 0 ==> NextNumber(name) + k - 1 <= INT_MAX)
    ensures MovedAll(hosts, name, k)[i] == if OnTheWay(hosts[i], name, k) then Some(After(name, k)) else hosts[i]
    ensures MovedAll(hosts, name, k)[i] != hosts[i] <==> OnTheWay(hosts[i], name, k)
  {
    hide After, MovedAll;
    WhereItGoes(hosts[i], hosts, name, k, i);
    if OnTheWay(hosts[i], name, k) {
      var j: nat :| j < k && hosts[i] == Some(After(name, j));
      NeverTheSame(name, j, k);
    }
  }
}
