/** The subtypes of a service (mdns_responder.c:1247-1475): adding several, removing one, and replacing them all with
 * a goodbye for those that go. */
module Subtypes {
  import opened Bytes

  datatype Status = Fine | InvalidArgument | NotFound

  /** What a change leaves: the list, what it returned, the subtypes a goodbye was sent for, whether the service was
   * announced again. */
  datatype Change = Change(subtypes: seq<CString>, status: Status, goodbye: seq<CString>, announced: bool)

  // ---------- Adding ----------

  /** One after the other in front, up to the first that is there already, and how many were added. */
  function Add(subtypes: seq<CString>, items: seq<CString>): (seq<CString>, nat)
    decreases |items|
  {
    if items == [] || items[0] in subtypes then (subtypes, 0)
    else
      var (all, n) := Add([items[0]] + subtypes, items[1..]);
      (all, n + 1)
  }

  lemma {:induction false} AddCount(subtypes: seq<CString>, items: seq<CString>)
    ensures Add(subtypes, items).1 <= |items|
    decreases |items|
  {
    if items != [] && items[0] !in subtypes {
      AddCount([items[0]] + subtypes, items[1..]);
    }
  }

  /** The items added are those up to the first that repeats an earlier one or one that was there. */
  lemma {:induction false} AddTakes(subtypes: seq<CString>, items: seq<CString>)
    requires NoRepeats(subtypes)
    ensures var (all, n) := Add(subtypes, items);
            && n <= |items| && all == Reverse(items[..n]) + subtypes && NoRepeats(all)
            && (n < |items| ==> items[n] in items[..n] + subtypes)
    decreases |items|
  {
    hide Reverse;
    AddCount(subtypes, items);
    if items != [] && items[0] !in subtypes {
      var rest := items[1..];
      var more := [items[0]] + subtypes;
      AddTakes(more, rest);
      var n := Add(more, rest).1;
      OneMoreAdded(items, n, subtypes);
      assert n < |rest| ==> items[n + 1] == rest[n];
    } else {
      NoneAdded(items, subtypes);
    }
  }

  lemma OneMoreAdded(items: seq<CString>, n: nat, subtypes: seq<CString>)
    requires n < |items|
    ensures Reverse(items[1..][..n]) + ([items[0]] + subtypes) == Reverse(items[..n + 1]) + subtypes
    ensures forall x :: x in items[1..][..n] + ([items[0]] + subtypes) ==> x in items[..n + 1] + subtypes
  {
    var taken := items[..n + 1];
    assert taken[0] == items[0] && taken[1..] == items[1..][..n];
    assert Reverse(taken) == Reverse(taken[1..]) + [items[0]];
    assert taken == [items[0]] + taken[1..];
  }

  lemma NoneAdded(items: seq<CString>, subtypes: seq<CString>)
    ensures Reverse(items[..0]) + subtypes == subtypes && items[..0] + subtypes == subtypes
  {}

  /** They are all added exactly when there is no such item. */
  lemma AllAddedIff(subtypes: seq<CString>, items: seq<CString>)
    requires NoRepeats(subtypes)
    ensures Add(subtypes, items).1 == |items| <==> NoRepeats(items) && forall x :: x in items ==> x !in subtypes
  {
    AddTakes(subtypes, items);
    var (all, n) := Add(subtypes, items);
    if n < |items| {
      NotAllDistinct(items, subtypes, n);
    } else {
      assert items[..n] == items;
      ReversedApart(items, subtypes);
    }
  }

  lemma ReversedApart(items: seq<CString>, subtypes: seq<CString>)
    requires NoRepeats(Reverse(items) + subtypes)
    ensures NoRepeats(items) && forall x :: x in items ==> x !in subtypes
  {
    var r := Reverse(items);
    ReverseHas(items);
    forall x | x in items
      ensures x !in subtypes
    {
      assert x in r;
      var i :| 0 <= i < |r| && r[i] == x;
      forall j | 0 <= j < |subtypes|
        ensures subtypes[j] != x
      {
        assert (r + subtypes)[i] == x && (r + subtypes)[|r| + j] == subtypes[j];
      }
    }
    forall i, j | 0 <= i < j < |items|
      ensures items[i] != items[j]
    {
      ReverseAt(items, |items| - 1 - i);
      ReverseAt(items, |items| - 1 - j);
      assert (r + subtypes)[|items| - 1 - j] != (r + subtypes)[|items| - 1 - i];
    }
  }

  lemma NotAllDistinct(items: seq<CString>, subtypes: seq<CString>, n: nat)
    requires n < |items| && items[n] in items[..n] + subtypes
    ensures !(NoRepeats(items) && forall x :: x in items ==> x !in subtypes)
  {
    assert items[n] in items;
    if items[n] !in subtypes {
      var i :| 0 <= i < n && items[..n][i] == items[n];
      assert items[i] == items[n];
    }
  }

  lemma {:induction false} ReverseHas(xs: seq<CString>)
    ensures forall x :: x in Reverse(xs) <==> x in xs
    decreases |xs|
  {
    if xs != [] {
      ReverseHas(xs[1..]);
      assert xs == [xs[0]] + xs[1..];
    }
  }

  /** mdns_service_subtype_add_multiple_items_for_host, once the service is found. */
  function AddMultiple(subtypes: seq<CString>, items: seq<CString>): Change {
    if items == [] then Change(subtypes, InvalidArgument, [], false)
    else
      var (all, n) := Add(subtypes, items);
      if n == |items| then Change(all, Fine, [], true) else Change(all, InvalidArgument, [], false)
  }

  /** Adding succeeds exactly when no item repeats another or one that was there, and announces the service then;
   * when it fails, what came before the item that failed stays and is not announced. */
  lemma AddMultipleIs(subtypes: seq<CString>, items: seq<CString>)
    requires NoRepeats(subtypes)
    ensures var c := AddMultiple(subtypes, items);
            && NoRepeats(c.subtypes) && c.announced == c.status.Fine?
            && (c.status.Fine? <==> items != [] && NoRepeats(items) && forall x :: x in items ==> x !in subtypes)
            && (c.status.Fine? ==> forall x :: x in c.subtypes <==> x in items || x in subtypes)
            && exists n :: 0 <= n <= |items| && c.subtypes == Reverse(items[..n]) + subtypes
                           && (n < |items| && items != [] ==> items[n] in items[..n] + subtypes)
  {
    AddTakes(subtypes, items);
    AllAddedIff(subtypes, items);
    ReverseHas(items);
    var n := Add(subtypes, items).1;
    if items == [] {
      assert items[..0] == [] && Reverse(items[..0]) + subtypes == subtypes;
    } else {
      assert items[..|items|] == items;
      assert 0 <= n <= |items| && AddMultiple(subtypes, items).subtypes == Reverse(items[..n]) + subtypes;
    }
  }

  // ---------- Removing ----------

  function Without(subtypes: seq<CString>, x: CString): seq<CString> {
    if subtypes == [] then [] else if subtypes[0] == x then subtypes[1..] else [subtypes[0]] + Without(subtypes[1..], x)
  }

  /** mdns_service_subtype_remove_for_host, once the service is found. */
  function Remove(subtypes: seq<CString>, x: CString): Change {
    if x in subtypes then Change(Without(subtypes, x), Fine, [x], false) else Change(subtypes, NotFound, [], false)
  }

  lemma {:induction false} RemoveIs(subtypes: seq<CString>, x: CString)
    requires NoRepeats(subtypes)
    ensures var r := Without(subtypes, x);
            NoRepeats(r) && forall y :: y in r <==> y in subtypes && y != x
    decreases |subtypes|
  {
    if subtypes != [] {
      assert subtypes == [subtypes[0]] + subtypes[1..];
      var rest := subtypes[1..];
      assert subtypes[0] !in rest;
      RemoveIs(rest, x);
      var r := Without(rest, x);
      if subtypes[0] != x {
        assert forall i :: 0 <= i < |r| ==> r[i] in r;
      }
    }
  }

  /** Removing a subtype takes just that one away and says goodbye for it, once; one that is not there is not found and
   * nothing happens.  The service is not announced again. */
  lemma RemoveTells(subtypes: seq<CString>, x: CString)
    requires NoRepeats(subtypes)
    ensures var c := Remove(subtypes, x);
            && c.status == (if x in subtypes then Fine else NotFound) && !c.announced
            && c.goodbye == (if x in subtypes then [x] else [])
            && NoRepeats(c.subtypes) && (forall y :: y in c.subtypes <==> y in subtypes && y != x)
            && (x !in subtypes ==> c.subtypes == subtypes)
  {
    RemoveIs(subtypes, x);
  }

  /** What was just added, and only that, is removed again. */
  lemma RemoveUndoesAdd(subtypes: seq<CString>, x: CString)
    requires x !in subtypes
    ensures Remove(AddMultiple(subtypes, [x]).subtypes, x).subtypes == subtypes
  {
    assert Add([x] + subtypes, [x][1..]) == ([x] + subtypes, 0);
  }

  // ---------- Replacing ----------

  /** service_find_subtype_needed_sendbye: what stays on the list and what goes, in order. */
  function Staying(subtypes: seq<CString>, items: seq<CString>): seq<CString> {
    if subtypes == [] then []
    else (if subtypes[0] in items then [subtypes[0]] else []) + Staying(subtypes[1..], items)
  }

  function Going(subtypes: seq<CString>, items: seq<CString>): seq<CString> {
    if subtypes == [] then []
    else (if subtypes[0] in items then [] else [subtypes[0]]) + Going(subtypes[1..], items)
  }

  lemma {:induction false} GoingAre(subtypes: seq<CString>, items: seq<CString>)
    ensures forall x :: x in Going(subtypes, items) <==> x in subtypes && x !in items
    ensures NoRepeats(subtypes) ==> NoRepeats(Going(subtypes, items))
    decreases |subtypes|
  {
    if subtypes != [] {
      var rest := subtypes[1..];
      assert subtypes == [subtypes[0]] + rest;
      GoingAre(rest, items);
      var g := Going(rest, items);
      if NoRepeats(subtypes) {
        forall i | 0 <= i < |g|
          ensures g[i] != subtypes[0]
        {
          assert g[i] in g;
          var j :| 0 <= j < |rest| && rest[j] == g[i];
          assert subtypes[j + 1] == g[i];
        }
      }
    }
  }

  /** mdns_service_subtype_update_multiple_items_for_host, once the service is found. */
  function Update(subtypes: seq<CString>, items: seq<CString>): Change {
    var (all, n) := Add([], items);
    Change(all, if n == |items| then Fine else InvalidArgument, Going(subtypes, items), n == |items| && items != [])
  }

  /** Items without repeats become the subtypes; exactly the others get a goodbye, each once; and the service is
   * announced again unless none are left. */
  lemma UpdateReplaces(subtypes: seq<CString>, items: seq<CString>)
    requires NoRepeats(subtypes)
    ensures var c := Update(subtypes, items);
            && (c.status.Fine? <==> NoRepeats(items))
            && (c.status.Fine? ==> c.subtypes == Reverse(items) && forall x :: x in c.subtypes <==> x in items)
            && (forall x :: x in c.goodbye <==> x in subtypes && x !in items) && NoRepeats(c.goodbye)
            && c.announced == (c.status.Fine? && items != [])
            && NoRepeats(c.subtypes)
  {
    AddTakes([], items);
    AllAddedIff([], items);
    GoingAre(subtypes, items);
    ReverseHas(items);
    assert items[..|items|] == items && Reverse(items) + [] == Reverse(items);
  }

  /** A subtype that was there is neither kept nor taken leave of. */
  predicate LostSilently(subtypes: seq<CString>, c: Change, x: CString) {
    x in subtypes && x !in c.subtypes && x !in c.goodbye
  }

  /** The items up to the first that repeats an earlier one. */
  function FirstDistinct(items: seq<CString>): (n: nat)
    ensures n <= |items|
  {
    AddTakes([], items);
    Add([], items).1
  }

  /** That happens exactly to what comes only after the first repeated item. */
  lemma LostSilentlyIff(subtypes: seq<CString>, items: seq<CString>, x: CString)
    requires NoRepeats(subtypes)
    ensures LostSilently(subtypes, Update(subtypes, items), x) <==>
              x in subtypes && x in items && x !in items[..FirstDistinct(items)]
  {
    AddTakes([], items);
    GoingAre(subtypes, items);
    var n := FirstDistinct(items);
    ReverseHas(items[..n]);
    assert Update(subtypes, items).subtypes == Reverse(items[..n]) + [];
  }

  lemma RepeatedItemLosesRest(a: CString, b: CString)
    requires a != b
    ensures LostSilently([b], Update([b], [a, a, b]), b)
  {
    var items := [a, a, b];
    assert items[1..] == [a, b] && Add([a], [a, b]) == ([a], 0);
    assert Add([], items) == ([a], 1) by {
      assert [a] + [] == [a];
    }
    assert Going([b], items) == [];
  }

  // ---------- In place ----------

  /** The list of a service. */
  class ServiceSubtypes {
    var subtypes: seq<CString>

    constructor ()
      ensures subtypes == []
    {
      subtypes := [];
    }

    /** service_subtype_add_for_host. */
    method AddOne(x: CString) returns (status: Status)
      modifies this
      ensures status == if x in old(subtypes) then InvalidArgument else Fine
      ensures subtypes == if x in old(subtypes) then old(subtypes) else [x] + old(subtypes)
    {
      var i := 0;
      while i < |subtypes|
        modifies {}
        invariant 0 <= i <= |subtypes| && x !in subtypes[..i]
      {
        if subtypes[i] == x {
          return InvalidArgument;
        }
        i := i + 1;
      }
      assert subtypes[..i] == subtypes;
      subtypes := [x] + subtypes;
      return Fine;
    }

    /** service_subtype_remove_for_host. */
    method RemoveOne(x: CString) returns (status: Status)
      modifies this
      ensures status == if x in old(subtypes) then Fine else NotFound
      ensures subtypes == Without(old(subtypes), x)
    {
      var i := 0;
      assert subtypes[..0] + Without(subtypes[0..], x) == Without(subtypes, x) by {
        assert subtypes[0..] == subtypes;
      }
      while i < |subtypes|
        invariant 0 <= i <= |subtypes| && subtypes == old(subtypes) && x !in subtypes[..i]
        invariant subtypes[..i] + Without(subtypes[i..], x) == Without(subtypes, x)
      {
        assert subtypes[i..][0] == subtypes[i] && subtypes[i..][1..] == subtypes[i + 1..];
        if subtypes[i] == x {
          subtypes := subtypes[..i] + subtypes[i + 1..];
          return Fine;
        }
        assert subtypes[..i] + ([subtypes[i]] + Without(subtypes[i + 1..], x))
               == subtypes[..i + 1] + Without(subtypes[i + 1..], x);
        i := i + 1;
      }
      assert subtypes[..i] == subtypes && subtypes[i..] == [];
      assert subtypes + [] == subtypes;
      return NotFound;
    }

    /** The loop over the items to add. */
    method AddAll(items: seq<CString>) returns (status: Status)
      modifies this
      ensures subtypes == Add(old(subtypes), items).0
      ensures status == if Add(old(subtypes), items).1 == |items| then Fine else InvalidArgument
    {
      var i := 0;
      assert items[0..] == items;
      while i < |items|
        invariant 0 <= i <= |items|
        invariant var (all, n) := Add(subtypes, items[i..]); Add(old(subtypes), items) == (all, n + i)
      {
        assert items[i..][0] == items[i] && items[i..][1..] == items[i + 1..];
        var one := AddOne(items[i]);
        if !one.Fine? {
          return InvalidArgument;
        }
        i := i + 1;
      }
      return Fine;
    }

    /** service_find_subtype_needed_sendbye: those not among the items leave the list. */
    method TakeGoing(items: seq<CString>) returns (going: seq<CString>)
      modifies this
      ensures subtypes == Staying(old(subtypes), items) && going == Going(old(subtypes), items)
    {
      going := [];
      var i := 0;
      ghost var was := subtypes;
      ghost var left := was;
      assert subtypes[..0] + Staying(left, items) == Staying(was, items);
      while i < |subtypes|
        invariant 0 <= i <= |subtypes| && subtypes[i..] == left
        invariant subtypes[..i] + Staying(left, items) == Staying(was, items)
        invariant going + Going(left, items) == Going(was, items)
        decreases |subtypes| - i
      {
        var x := subtypes[i];
        ghost var rest := left[1..];
        assert left[0] == x && subtypes[i + 1..] == rest;
        assert [x] + Staying(rest, items) == Staying(left, items) || [] + Staying(rest, items) == Staying(left, items);
        if x in items {
          assert subtypes[..i + 1] + Staying(rest, items) == subtypes[..i] + ([x] + Staying(rest, items));
          assert [] + Going(rest, items) == Going(rest, items);
          i := i + 1;
        } else {
          assert [] + Staying(rest, items) == Staying(rest, items);
          assert going + ([x] + Going(rest, items)) == going + [x] + Going(rest, items);
          subtypes := subtypes[..i] + subtypes[i + 1..];
          going := going + [x];
        }
        left := rest;
      }
      assert subtypes[..i] == subtypes && subtypes + [] == subtypes && going + [] == going;
    }

    method AddMultipleItems(items: seq<CString>) returns (c: Change)
      modifies this
      ensures c == AddMultiple(old(subtypes), items) && subtypes == c.subtypes
    {
      if items == [] {
        return Change(subtypes, InvalidArgument, [], false);
      }
      var status := AddAll(items);
      c := Change(subtypes, status, [], status.Fine?);
    }

    method RemoveItem(x: CString) returns (c: Change)
      modifies this
      ensures c == Remove(old(subtypes), x) && subtypes == c.subtypes
    {
      WithoutMissing(subtypes, x);
      var status := RemoveOne(x);
      c := Change(subtypes, status, if status.Fine? then [x] else [], false);
    }

    method UpdateMultipleItems(items: seq<CString>) returns (c: Change)
      modifies this
      ensures c == Update(old(subtypes), items) && subtypes == c.subtypes
    {
      var going := TakeGoing(items);
      subtypes := [];
      var status := AddAll(items);
      c := Change(subtypes, status, going, status.Fine? && items != []);
    }
  }

  lemma {:induction false} WithoutMissing(subtypes: seq<CString>, x: CString)
    ensures x !in subtypes ==> Without(subtypes, x) == subtypes
    decreases |subtypes|
  {
    if subtypes != [] {
      WithoutMissing(subtypes[1..], x);
      assert subtypes == [subtypes[0]] + subtypes[1..];
    }
  }
}
