/** What mangle_name makes of a name, by what stands behind its last dash (mdns_receive.c:138-176): a number counts on,
 * and anything else gets a number of its own. */
module RenameSuffix {
  import opened Bytes
  import opened Rename

  predicate Blank(b: byte) {
    b == 32 || 9 <= b <= 13
  }

  predicate Figures(s: seq<byte>) {
    s != [] && forall i :: 0 <= i < |s| ==> 48 <= s[i] <= 57
  }

  /** Blanks up to `i`, perhaps a plus sign, and figures from `j` on. */
  predicate IsNumber(tail: seq<byte>, i: nat, j: nat) {
    && i <= j <= i + 1 && j <= |tail|
    && (forall k :: 0 <= k < i ==> Blank(tail[k]))
    && (j == i + 1 ==> tail[i] == 43)
    && Figures(tail[j..])
  }

  lemma {:induction false} SkippedTo(s: seq<byte>) returns (i: nat)
    ensures i <= |s| && SkipSpace(s) == s[i..] && (forall k :: 0 <= k < i ==> Blank(s[k]))
    ensures i < |s| ==> !Blank(s[i])
    decreases |s|
  {
    i := 0;
    if s != [] && IsSpace(s[0]) {
      var k := SkippedTo(s[1..]);
      i := k + 1;
      assert forall x :: 0 < x < i ==> s[x] == s[1..][x - 1];
    }
  }

  lemma AllFigures(s: seq<byte>)
    ensures s != [] && DigitsLen(s) == |s| <==> Figures(s)
  {
    if Figures(s) {
      SkipNothing(s);
    }
    if DigitsLen(s) == |s| {
      assert s[..DigitsLen(s)] == s;
    }
  }

  /** What stands behind the dash is a number exactly when it is figures, behind blanks and at most one plus sign, or
   * when there is nothing; it counts for no more than the greatest int. */
  lemma NumberIff(tail: seq<byte>)
    ensures tail == [] ==> Suffix(tail) == Some(0)
    ensures tail != [] ==> (Suffix(tail).Some? <==> exists i: nat, j: nat :: IsNumber(tail, i, j))
    ensures forall i: nat, j: nat :: IsNumber(tail, i, j) ==>
              AllDigits(tail[j..])
              && Suffix(tail) == Some(if Value(tail[j..]) > 0x7FFF_FFFF then 0x7FFF_FFFF else Value(tail[j..]))
  {
    hide SkipSpace, DigitsLen, Value;
    var i := SkippedTo(tail);
    var at := if i < |tail| && tail[i] == 43 then i + 1 else i;
    assert Numeral(tail) == tail[at..] by {
      assert at > i ==> tail[i..][1..] == tail[at..];
    }
    AllFigures(tail[at..]);
    forall a: nat, b: nat | IsNumber(tail, a, b)
      ensures a == i && b == at
    {
      NotBlank(tail, a, b);
    }
    if tail != [] && Figures(tail[at..]) {
      assert IsNumber(tail, i, at);
    }
  }

  lemma NotBlank(tail: seq<byte>, i: nat, j: nat)
    requires IsNumber(tail, i, j)
    ensures i < |tail| && !Blank(tail[i]) && forall k :: 0 <= k < i ==> Blank(tail[k])
    ensures tail[i] == 43 <==> j == i + 1
  {
    assert tail[j] == tail[j..][0];
  }

  /** The last dash. */
  predicate LastDashAt(name: CString, at: nat) {
    at < |name| && name[at] == 45 && 45 !in name[at + 1..]
  }

  lemma DashFound(name: CString, at: nat)
    requires LastDashAt(name, at)
    ensures LastDash(name) == Some(at)
    ensures name[..at] + [45] == name[..at + 1] && (name[at + 1..] == [] ==> name[..at + 1] == name)
  {
    hide LastDash;
    LastDashOf(name[..at], name[at + 1..]);
    assert name[..at] + [45] + name[at + 1..] == name;
  }

  /** The new name: without a number behind its last dash, or without a dash, the old one with "-2" behind it; with
   * one, the next number in its place. */
  lemma RenamedTo(name: CString)
    ensures 45 !in name ==> Mangled(name) == name + [45, 50]
    ensures forall at: nat :: LastDashAt(name, at) ==>
              var tail := name[at + 1..];
              if tail == [] then Mangled(name) == name + [49]
              else
                && ((forall i: nat, j: nat :: !IsNumber(tail, i, j)) ==> Mangled(name) == name + [45, 50])
                && forall i: nat, j: nat :: IsNumber(tail, i, j) ==>
                     AllDigits(tail[j..])
                     && Mangled(name) == name[..at + 1] + Decimal(if Value(tail[j..]) > 0x7FFF_FFFF then 0x8000_0000
                                                                  else Value(tail[j..]) + 1)
  {
    hide LastDash, Suffix, Decimal, IsNumber, Value;
    SmallNumbers();
    assert name + [45] + [50] == name + [45, 50];
    forall at: nat | LastDashAt(name, at)
      ensures LastDash(name) == Some(at)
      ensures name[..at] + [45] == name[..at + 1] && (name[at + 1..] == [] ==> name[..at + 1] == name)
    {
      DashFound(name, at);
    }
    if LastDash(name).Some? {
      NumberIff(name[LastDash(name).value + 1..]);
    }
  }

  lemma SmallNumbers()
    ensures Decimal(2) == [50] && Decimal(1) == [49]
  {}
}
