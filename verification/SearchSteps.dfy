/** What a tick of the timer and the end of a packet do to every search of the list (mdns_querier.c:81-241, 786-850):
 * which are asked for, which complete, and how far apart the queries of one search are. */
module SearchSteps {
  import opened Bytes
  import opened Searches

  // ---------- A tick of the timer ----------

  predicate Expired(s: Sys, id: nat)
    requires id in s.searches
  {
    s.now > s.searches[id].startedAt + s.searches[id].timeout
  }

  /** The search is to be ended. */
  predicate EndDue(s: Sys, id: nat)
    requires id in s.searches
  {
    !s.searches[id].state.Over? && Expired(s, id)
  }

  /** The query is to be sent: for the first time, or more than a second after the last. */
  predicate QueryDue(s: Sys, id: nat)
    requires id in s.searches
  {
    var r := s.searches[id];
    !r.state.Over? && !Expired(s, id) && (r.state.Waiting? || s.now > r.sentAt + 1000)
  }

  /** What becomes of a search: `ok` says whether the action queue takes its action. */
  predicate Ticked(s: Sys, id: nat, r': Search, ok: bool)
    requires id in s.searches
  {
    var r := s.searches[id];
    if EndDue(s, id) then r' == r.(state := if ok then Over else Active)
    else if QueryDue(s, id) then r' == r.(state := Active, sentAt := if ok then s.now else s.now - 1000)
    else r' == r
  }

  predicate Posts(s: Sys, id: nat, ok: bool, a: Act)
    requires id in s.searches
  {
    ok && ((a == Send(id) && QueryDue(s, id)) || (a == End(id) && EndDue(s, id)))
  }

  lemma OneTicked(s: Sys, id: nat, ok: bool)
    requires id in s.searches && id in s.alive
    ensures var t := StartStop1(s, id, ok);
            && t == s.(searches := t.searches, fifo := t.fifo)
            && t.searches == s.searches[id := t.searches[id]] && Ticked(s, id, t.searches[id], ok)
            && (t.fifo == s.fifo || exists a :: t.fifo == s.fifo + [a] && Posts(s, id, ok, a))
            && forall a :: Posts(s, id, ok, a) ==> t.fifo == s.fifo + [a]
  {}

  /** The actions posted: each is due and was taken, and each that is due and taken is there, once. */
  ghost predicate PostedFor(s: Sys, ids: seq<nat>, accept: nat -> bool, posted: seq<Act>)
    requires forall id :: id in ids ==> id in s.searches
  {
    NoRepeats(posted) && forall a :: a in posted <==> exists id :: id in ids && Posts(s, id, accept(id), a)
  }

  lemma PostedMore(s: Sys, s1: Sys, ids: seq<nat>, accept: nat -> bool, first: seq<Act>, rest: seq<Act>)
    requires ids != [] && NoRepeats(ids) && (forall id :: id in ids ==> id in s.searches && id in s1.searches)
    requires s1.now == s.now && forall id :: id in ids[1..] ==> s1.searches[id] == s.searches[id]
    requires first == [] || exists a :: first == [a] && Posts(s, ids[0], accept(ids[0]), a)
    requires forall a :: Posts(s, ids[0], accept(ids[0]), a) ==> first == [a]
    requires PostedFor(s1, ids[1..], accept, rest)
    ensures PostedFor(s, ids, accept, first + rest)
  {
    var posted := first + rest;
    assert ids == [ids[0]] + ids[1..] && ids[0] !in ids[1..];
    forall a
      ensures a in posted <==> exists id :: id in ids && Posts(s, id, accept(id), a)
    {
      if id :| id in ids && Posts(s, id, accept(id), a) {
        if id != ids[0] {
          assert id in ids[1..] && Posts(s1, id, accept(id), a);
        }
      }
      if a in rest {
        var id :| id in ids[1..] && Posts(s1, id, accept(id), a);
        assert Posts(s, id, accept(id), a);
      }
    }
    assert forall i :: 0 <= i < |rest| ==> rest[i] in rest;
  }

  lemma {:induction false} AllTicked(s: Sys, ids: seq<nat>, accept: nat -> bool)
    requires NoRepeats(ids) && forall id :: id in ids ==> id in s.searches && id in s.alive
    ensures var t := StartStop(s, ids, accept);
            && t == s.(searches := t.searches, fifo := t.fifo) && t.searches.Keys == s.searches.Keys
            && (forall id :: id in ids ==> Ticked(s, id, t.searches[id], accept(id)))
            && (forall id :: id in s.searches && id !in ids ==> t.searches[id] == s.searches[id])
            && |t.fifo| >= |s.fifo| && t.fifo[..|s.fifo|] == s.fifo
            && PostedFor(s, ids, accept, t.fifo[|s.fifo|..])
    decreases |ids|
  {
    hide StartStop1, Ticked, Posts, PostedFor, NoRepeats;
    if ids == [] {
      NothingPosted(s, accept);
      assert s.fifo[|s.fifo|..] == [];
    } else {
      var id, rest := ids[0], ids[1..];
      RestApart(ids);
      var s1 := StartStop1(s, id, accept(id));
      OneTicked(s, id, accept(id));
      AllTicked(s1, rest, accept);
      var t := StartStop(s1, rest, accept);
      forall x | x in rest
        ensures Ticked(s, x, t.searches[x], accept(x))
      {
        SameTick(s, s1, x, t.searches[x], accept(x));
      }
      var first := s1.fifo[|s.fifo|..];
      Behind(s.fifo, s1.fifo, t.fifo);
      PostedMore(s, s1, ids, accept, first, t.fifo[|s1.fifo|..]);
    }
  }

  lemma Behind(a: seq<Act>, b: seq<Act>, c: seq<Act>)
    requires |a| <= |b| <= |c| && b[..|a|] == a && c[..|b|] == b
    ensures c[..|a|] == a && c[|a|..] == b[|a|..] + c[|b|..]
  {
    assert c == b + c[|b|..] && b == a + b[|a|..];
  }

  lemma RestApart(ids: seq<nat>)
    requires ids != [] && NoRepeats(ids)
    ensures ids == [ids[0]] + ids[1..] && ids[0] !in ids[1..] && NoRepeats(ids[1..])
  {}

  lemma NothingPosted(s: Sys, accept: nat -> bool)
    ensures PostedFor(s, [], accept, [])
  {}

  lemma SameTick(s: Sys, s1: Sys, id: nat, r': Search, ok: bool)
    requires id in s.searches && id in s1.searches && s1.searches[id] == s.searches[id] && s1.now == s.now
    ensures Ticked(s, id, r', ok) == Ticked(s1, id, r', ok)
  {}

  lemma ListAlive(s: Sys)
    requires Inv(s)
    ensures NoRepeats(s.list) && forall id :: id in s.list ==> id in s.searches && id in s.alive
  {
    hide SearchOk, Adds;
    NoRepeatsParts(s.list, Adds(s.fifo));
    assert forall id :: id in s.list ==> id in s.list + Adds(s.fifo);
  }

  /** A tick, for the whole list: exactly the queries that are due are posted, and the ends of exactly the searches
   * whose time is over, each once and as far as the action queue takes them; the other searches stay as they are. */
  lemma TickTells(s: Sys, accept: nat -> bool)
    requires Inv(s)
    ensures forall id :: id in s.list ==> id in s.searches
    ensures var t := Step(s, TimerTick(accept));
            && t.list == s.list && t.alive == s.alive && t.searches.Keys == s.searches.Keys
            && |t.fifo| >= |s.fifo| && t.fifo[..|s.fifo|] == s.fifo
            && PostedFor(s, s.list, accept, t.fifo[|s.fifo|..])
            && (forall id :: id in s.list ==> Ticked(s, id, t.searches[id], accept(id)))
            && (forall id :: id in s.searches && id !in s.list ==> t.searches[id] == s.searches[id])
  {
    hide Inv, StartStop, PostedFor;
    ListAlive(s);
    AllTicked(s, s.list, accept);
  }

  /** The queries of a search that runs are more than a second apart: after one that was posted, the next is due
   * exactly when more than 1000 ms have passed; one that found no place is due again with the next tick. */
  lemma QueriesApart(s: Sys, accept: nat -> bool, ms: nat, id: nat)
    requires Inv(s) && id in s.list && id in s.searches && QueryDue(s, id)
    ensures var t := Step(Step(s, TimerTick(accept)), Wait(ms));
            && id in t.searches
            && (QueryDue(t, id) <==> !Expired(t, id) && ms > if accept(id) then 1000 else 0)
  {
    hide Inv, StartStop, PostedFor;
    TickTells(s, accept);
    var u := Step(s, TimerTick(accept));
    assert Ticked(s, id, u.searches[id], accept(id));
    AllTickedNow(s, accept);
  }

  lemma AllTickedNow(s: Sys, accept: nat -> bool)
    requires Inv(s)
    ensures Step(s, TimerTick(accept)).now == s.now
  {
    hide Inv, StartStop, PostedFor, Ticked;
    ListAlive(s);
    AllTicked(s, s.list, accept);
  }

  // ---------- The end of a packet ----------

  /** The search has found as many results as it was to find. */
  predicate HasEnough(r: Search) {
    r.max != 0 && r.num >= r.max
  }

  /** What completing a search does to it. */
  function Completed(r: Search): Search {
    r.(state := Over, notifier := false, notified := if r.notifier then 1 else 0, given := 1)
  }

  lemma {:induction false} AllDone(s: Sys, ids: seq<nat>)
    requires Inv(s) && NoRepeats(ids) && forall id :: id in ids ==> id in s.list
    ensures forall id :: id in ids ==> id in s.searches
    ensures var t := QueryDone(s, ids);
            && t == s.(searches := t.searches, list := t.list) && t.searches.Keys == s.searches.Keys
            && (forall id :: id in ids ==>
                  t.searches[id] == if HasEnough(s.searches[id]) then Completed(s.searches[id]) else s.searches[id])
            && (forall id :: id in s.searches && id !in ids ==> t.searches[id] == s.searches[id])
            && (forall id :: id in t.list <==>
                  id in s.list && !(id in ids && id in s.searches && HasEnough(s.searches[id])))
    decreases |ids|
  {
    hide Inv, Finish, Detach;
    ListAlive(s);
    if ids != [] {
      var id, rest := ids[0], ids[1..];
      assert ids == [id] + rest && id !in rest;
      var s1 := if Full(s, id) then Finish(s, id) else s;
      OneDone(s, id);
      FinishKeeps(s, id);
      assert s.(strayed := s.strayed || id !in s.alive) == s by {
        NotStrayed(s, id);
      }
      AllDone(s1, rest);
      assert QueryDone(s, ids) == QueryDone(s1, rest);
    }
  }

  lemma NotStrayed(s: Sys, id: nat)
    requires Inv(s) && id in s.list
    ensures id in s.alive
  {
    ListAlive(s);
  }

  lemma OneDone(s: Sys, id: nat)
    requires Inv(s) && id in s.list
    ensures id in s.searches && Full(s, id) == HasEnough(s.searches[id])
    ensures var t := Finish(s, id);
            && t == s.(searches := t.searches, list := t.list)
            && t.searches == s.searches[id := Completed(s.searches[id])]
            && forall x :: x in t.list <==> x in s.list && x != id
  {
    hide Bounded, Adds;
    ListAlive(s);
    NoRepeatsParts(s.list, Adds(s.fifo));
    DetachIs(s.list, id);
    assert SearchOk(s, id);
  }

  /** After a packet, exactly the searches that have enough results are complete and off the list, each with one call
   * of its semaphore and of its notifier, if it has one; the others go on. */
  lemma PacketEndTells(s: Sys)
    requires Inv(s)
    ensures forall id :: id in s.list ==> id in s.searches
    ensures var t := Step(s, PacketParsed);
            && t.fifo == s.fifo && t.alive == s.alive && t.searches.Keys == s.searches.Keys
            && (forall id :: id in s.searches ==>
                  t.searches[id] ==
                    if id in s.list && HasEnough(s.searches[id]) then Completed(s.searches[id]) else s.searches[id])
            && (forall id :: id in t.list <==> id in s.list && id in s.searches && !HasEnough(s.searches[id]))
  {
    hide Inv, QueryDone;
    ListAlive(s);
    AllDone(s, s.list);
  }

  // ---------- The callers ----------

  /** A search is deleted exactly when it is over, and then no list has it any more. */
  lemma DeleteTells(s: Sys, id: nat)
    requires Inv(s) && id in s.alive
    ensures id in s.searches
    ensures var t := Step(s, DeleteSearch(id));
            if s.searches[id].state.Over?
            then t == s.(list := t.list, alive := s.alive - {id}) && forall x :: x in t.list <==> x in s.list && x != id
            else t == s
  {
    hide Bounded, Adds;
    NoRepeatsParts(s.list, Adds(s.fifo));
    DetachIs(s.list, id);
  }

  /** A new search waits to be added, with no result; one that cannot be queued leaves no trace but its number. */
  lemma NewTells(s: Sys, timeout: nat, notifier: bool, kind: Kind, max: nat, queued: bool)
    requires Inv(s)
    ensures var t := Step(s, NewSearch(timeout, notifier, kind, max, queued)); var id := s.nextId;
            && id !in s.searches && t.nextId == id + 1 && t.list == s.list
            && (forall x :: x in s.searches ==> x in t.searches && t.searches[x] == s.searches[x])
            && t.fifo == s.fifo + (if queued then [Add(id)] else [])
            && t.alive == s.alive + (if queued then {id} else {})
            && id in t.searches
            && var r := t.searches[id];
               && r.state.Waiting? && r.startedAt == s.now && r.timeout == timeout && r.notifier == notifier
               && r.kind == kind && r.max == max % 256 && r.num == 0 && r.results == []
               && r.notified == 0 && r.given == 0
  {
    hide Bounded, Adds;
    forall id | id in s.searches
      ensures id < s.nextId
    {
      assert SearchOk(s, id);
    }
    assert s.fifo + [] == s.fifo && s.alive + {} == s.alive;
  }

  /** The service task takes the next action: a new search comes first in the list, the end of a search completes it if
   * it is still there, and nothing else changes the list. */
  lemma TakenTells(s: Sys)
    requires Inv(s) && s.fifo != []
    ensures forall id :: id in s.list ==> id in s.searches
    ensures var t := Step(s, TakeAction); var a := s.fifo[0];
            && t.fifo == s.fifo[1..] && t.alive == s.alive
            && (a.Add? ==> t.list == [a.id] + s.list && t.searches == s.searches)
            && (a.End? && a.id in s.list ==>
                  && t.searches == s.searches[a.id := Completed(s.searches[a.id])]
                  && forall x :: x in t.list <==> x in s.list && x != a.id)
            && (a.Send? || a.Else? || (a.End? && a.id !in s.list) ==> t.list == s.list && t.searches == s.searches)
  {
    hide Inv, Detach;
    ListAlive(s);
    var a := s.fifo[0];
    if a.End? && a.id in s.list {
      OneDone(s, a.id);
      FinishThenPop(s, a.id, s.fifo[1..]);
    }
  }
}
