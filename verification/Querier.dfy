/** One-shot searches as the program has them: loops over a list changed in place (mdns_querier.c). */
module Querier {
  import opened Bytes
  import opened Searches

  lemma FirstGoesOn(results: seq<Result>, at: Where, key: Key, i: nat)
    requires i < |results|
    ensures First(results[i..], at, key) ==
              if Matches(results[i], at, key) then 0 else 1 + First(results[i + 1..], at, key)
  {
    hide EqNoCase;
    assert results[i..][0] == results[i] && results[i..][1..] == results[i + 1..];
  }

  lemma DetachGoesOn(list: seq<nat>, id: nat, i: nat)
    requires i < |list|
    ensures list[i] != id ==> list[..i] + Detach(list[i..], id) == list[..i + 1] + Detach(list[i + 1..], id)
    ensures list[i] == id ==> list[..i] + Detach(list[i..], id) == list[..i] + list[i + 1..]
  {
    assert list[i..][0] == list[i] && list[i..][1..] == list[i + 1..] && list[..i + 1] == list[..i] + [list[i]];
  }

  /** The search for a result. */
  method FindResult(results: seq<Result>, at: Where, key: Key) returns (i: nat)
    ensures i == First(results, at, key)
  {
    hide First;
    i := 0;
    assert results[0..] == results;
    while i < |results| && !Matches(results[i], at, key)
      invariant i <= |results| && i + First(results[i..], at, key) == First(results, at, key)
    {
      FirstGoesOn(results, at, key, i);
      i := i + 1;
    }
    if i < |results| {
      FirstGoesOn(results, at, key, i);
    }
  }

  class Engine {
    var now: nat
    var list: seq<nat>
    var searches: map<nat, Search>
    var fifo: seq<Act>
    var nextId: nat
    ghost var alive: set<nat>
    ghost var strayed: bool

    ghost function State(): Sys
      reads this
    {
      Sys(now, list, searches, alive, fifo, nextId, strayed)
    }

    constructor ()
      ensures State() == START
    {
      now, list, searches, fifo, nextId := 0, [], map[], [], 0;
      alive, strayed := {}, false;
    }

    /** Writes the search back; every write is to one that was not freed. */
    method Update(id: nat, search: Search)
      modifies this`searches, this`strayed
      ensures State() == old(State()).With(id, search)
    {
      searches := searches[id := search];
      strayed := strayed || id !in alive;
    }

    /** queueDetach. */
    method DetachSearch(id: nat)
      modifies this`list
      ensures list == Detach(old(list), id)
    {
      if list != [] {
        if list[0] == id {
          list := list[1..];
          return;
        }
        var i := 0;
        DetachGoesOn(list, id, 0);
        assert list[..0] + Detach(list[0..], id) == Detach(list, id) && list[0..] == list;
        while i + 1 < |list| && list[i + 1] != id
          invariant i < |list| && list[..i + 1] + Detach(list[i + 1..], id) == Detach(list, id)
          modifies {}
        {
          DetachGoesOn(list, id, i + 1);
          i := i + 1;
        }
        if i + 1 < |list| {
          DetachGoesOn(list, id, i + 1);
          list := list[..i + 1] + list[i + 2..];
        } else {
          assert list[..i + 1] + [] == list;
        }
      }
    }

    /** search_finish. */
    method SearchFinish(id: nat)
      requires Inv(State())
      modifies this`list, this`searches, this`strayed
      ensures State() == Finish(old(State()), id) && Inv(State())
    {
      FinishKeeps(State(), id);
      if id !in list {
        return;
      }
      InListKnown(State(), id);
      var r := searches[id].(state := Over);
      DetachSearch(id);
      if r.notifier {
        r := r.(notifier := false, notified := r.notified + 1);
      }
      Update(id, r.(given := r.given + 1));
    }

    /** mdns_priv_query_action. */
    method QueryAction()
      requires Inv(State())
      modifies this
      ensures State() == Take(old(State())) && Inv(State())
    {
      hide Finish, Inv;
      TakeKeeps(State());
      if fifo == [] {
        return;
      }
      var a := fifo[0];
      if a.End? {
        ghost var was := State();
        var left := fifo[1..];
        SearchFinish(a.id);
        FinishLeavesFifo(was, a.id, left);
        fifo := left;
      } else {
        fifo := fifo[1..];
        if a.Add? {
          strayed := strayed || a.id !in alive;
          list := [a.id] + list;
        }
      }
    }

    /** One search of the loop of mdns_priv_query_start_stop. */
    method StartStopOne(id: nat, accept: bool)
      requires id in searches
      modifies this`searches, this`strayed, this`fifo
      ensures State() == StartStop1(old(State()), id, accept)
    {
      var s := searches[id];
      if !s.state.Over? {
        if now > s.startedAt + s.timeout {
          s := s.(state := Over);
          if accept {
            fifo := fifo + [End(id)];
          } else {
            s := s.(state := Active);
          }
        } else if s.state.Waiting? || now - s.sentAt > 1000 {
          s := s.(state := Active, sentAt := now);
          if accept {
            fifo := fifo + [Send(id)];
          } else {
            s := s.(sentAt := s.sentAt - 1000);
          }
        }
      }
      Update(id, s);
    }

    /** mdns_priv_query_start_stop. */
    method QueryStartStop(accept: nat -> bool)
      requires Inv(State())
      modifies this`searches, this`strayed, this`fifo
      ensures State() == StartStop(old(State()), old(list), accept) && Inv(State())
    {
      hide Inv, StartStop, StartStop1;
      var i := 0;
      StartStopKeeps(State(), list, accept);
      ghost var end := StartStop(State(), list, accept);
      assert list[0..] == list;
      while i < |list|
        invariant i <= |list| && list == old(list) && Inv(State())
        invariant StartStop(State(), list[i..], accept) == end
      {
        InListKnown(State(), list[i]);
        StartStop1Keeps(State(), list[i], accept(list[i]));
        StartStopGoesOn(State(), list, i, accept);
        StartStopOne(list[i], accept(list[i]));
        i := i + 1;
      }
      StartStopEnds(State(), accept);
      assert list[i..] == [];
    }

    /** mdns_priv_query_done. */
    method Done()
      requires Inv(State())
      modifies this`list, this`searches, this`strayed
      ensures State() == QueryDone(old(State()), old(list)) && Inv(State())
    {
      hide Inv, QueryDone, Finish, Adds;
      ListIsSet(State());
      QueryDoneKeeps(State(), list);
      var i := 0;
      ghost var left, end := list, QueryDone(State(), list);
      assert list[0..] == list;
      while i < |list|
        invariant 0 <= i <= |list| && list[i..] == left && Inv(State())
        invariant QueryDone(State(), left) == end
        decreases |left|
      {
        var id := list[i];
        assert id == left[0];
        InListKnown(State(), id);
        ListIsSet(State());
        DoneGoesOn(State(), left);
        if searches[id].max != 0 && searches[id].num >= searches[id].max {
          DetachAt(list, i);
          FinishKeeps(State(), id);
          SearchFinish(id);
        } else {
          i := i + 1;
        }
        left := left[1..];
      }
      DoneEnds(State());
    }

    /** mdns_query_async_delete. */
    method AsyncDelete(id: nat) returns (ok: bool)
      requires Inv(State()) && id in alive
      modifies this`list, this`alive, this`strayed
      ensures State() == Delete(old(State()), id) && Inv(State())
      ensures ok == searches[id].state.Over?
    {
      DeleteKeeps(State(), id);
      if !searches[id].state.Over? {
        return false;
      }
      DetachSearch(id);
      strayed := strayed || id !in alive;
      alive := alive - {id};
      return true;
    }

    // ---------- Records ----------

    /** mdns_priv_query_result_add_ptr. */
    method ResultAddPtr(id: nat, at: Where, instance: CString, ttl: nat)
      requires id in searches
      modifies this`searches, this`strayed
      ensures State() == old(State()).With(id, AddPtr(old(searches)[id], at, instance, ttl))
    {
      hide First;
      var s := searches[id];
      var i := FindResult(s.results, at, Instance(instance));
      if i < |s.results| {
        s := s.(results := s.results[i := s.results[i].(ttl := Least(s.results[i].ttl, ttl))]);
      } else if s.max == 0 || s.num < s.max {
        s := Prepend(s, Result(at, Some(instance), None, 0, None, [], ttl));
      }
      Update(id, s);
    }

    /** mdns_priv_query_result_add_srv. */
    method ResultAddSrv(id: nat, at: Where, host: CString, port: nat, ttl: nat)
      requires id in searches
      modifies this`searches, this`strayed
      ensures State() == old(State()).With(id, AddSrv(old(searches)[id], at, host, port, ttl))
    {
      hide First;
      var s := searches[id];
      var i := FindResult(s.results, at, Host(host));
      if i < |s.results| {
        s := s.(results := s.results[i := s.results[i].(ttl := Least(s.results[i].ttl, ttl))]);
      } else if s.max == 0 || s.num < s.max {
        s := Prepend(s, Result(at, None, Some(host), port, None, [], ttl));
      }
      Update(id, s);
    }

    /** mdns_priv_query_result_add_txt. */
    method ResultAddTxt(id: nat, at: Where, txt: nat, ttl: nat)
      requires id in searches
      modifies this`searches, this`strayed
      ensures State() == old(State()).With(id, AddTxt(old(searches)[id], at, txt, ttl))
    {
      hide First;
      var s := searches[id];
      var i := FindResult(s.results, at, Place);
      if i < |s.results| {
        var r := s.results[i];
        if r.txt.None? {
          s := s.(results := s.results[i := r.(txt := Some(txt))]);
          s := s.(results := s.results[i := s.results[i].(ttl := Least(s.results[i].ttl, ttl))]);
        }
      } else if s.max == 0 || s.num < s.max {
        s := Prepend(s, Result(at, None, None, 0, Some(txt), [], ttl));
      }
      Update(id, s);
    }

    /** mdns_priv_query_result_add_ip. */
    method ResultAddIp(id: nat, at: Where, host: CString, ip: Addr, ttl: nat)
      requires id in searches
      modifies this`searches, this`strayed
      ensures State() == old(State()).With(id, AddIp(old(searches)[id], at, host, ip, ttl))
    {
      hide First;
      var s := searches[id];
      if (s.kind.OfA? && ip.V4?) || (s.kind.OfAaaa? && ip.V6?) || s.kind.OfAny? {
        var i := FindResult(s.results, at, Place);
        if i < |s.results| {
          s := s.(results := s.results[i := AddAddr(s.results[i], ip)]);
          s := s.(results := s.results[i := s.results[i].(ttl := Least(s.results[i].ttl, ttl))]);
        } else if s.max == 0 || s.num < s.max {
          s := Prepend(s, Result(at, None, Some(host), 0, None, [ip], ttl));
        }
      } else if s.kind.OfPtr? || s.kind.OfSrv? {
        var i := FindResult(s.results, at, Host(host));
        if i < |s.results| {
          s := s.(results := s.results[i := AddAddr(s.results[i], ip)]);
          s := s.(results := s.results[i := s.results[i].(ttl := Least(s.results[i].ttl, ttl))]);
        }
      }
      Update(id, s);
    }
  }

  // ---------- Steps of the loops ----------

  lemma InListKnown(s: Sys, id: nat)
    requires Inv(s) && id in s.list
    ensures id in s.searches && id in s.alive
  {
    assert id in s.list + Adds(s.fifo);
  }

  lemma ListIsSet(s: Sys)
    requires Inv(s)
    ensures NoRepeats(s.list)
  {
    NoRepeatsParts(s.list, Adds(s.fifo));
  }

  lemma FinishLeavesFifo(s: Sys, id: nat, left: seq<Act>)
    ensures Finish(s, id).(fifo := left) == Finish(s.(fifo := left), id)
  {}

  lemma StartStopGoesOn(s: Sys, list: seq<nat>, i: nat, accept: nat -> bool)
    requires i < |list|
    ensures StartStop(s, list[i..], accept) == StartStop(StartStop1(s, list[i], accept(list[i])), list[i + 1..], accept)
  {
    hide StartStop1;
    assert list[i..][0] == list[i] && list[i..][1..] == list[i + 1..];
  }

  lemma StartStopEnds(s: Sys, accept: nat -> bool)
    ensures StartStop(s, [], accept) == s
  {}

  lemma DoneGoesOn(s: Sys, left: seq<nat>)
    requires left != [] && left[0] in s.alive
    ensures QueryDone(s, left) == QueryDone(if Full(s, left[0]) then Finish(s, left[0]) else s, left[1..])
  {
    hide Finish;
    assert s.(strayed := s.strayed || left[0] !in s.alive) == s;
  }

  lemma DoneEnds(s: Sys)
    ensures QueryDone(s, []) == s
  {}

  lemma NoRepeatsTail(list: seq<nat>)
    requires list != [] && NoRepeats(list)
    ensures NoRepeats(list[1..]) && list[0] !in list[1..]
  {
    assert forall j :: 0 <= j < |list[1..]| ==> list[1..][j] == list[j + 1];
  }

  lemma {:induction false} DetachWhere(list: seq<nat>, i: nat)
    requires i < |list| && NoRepeats(list)
    ensures Detach(list, list[i]) == list[..i] + list[i + 1..]
    decreases i
  {
    hide NoRepeats, Detach;
    DetachStep(list, list[i]);
    if i > 0 {
      var rest := list[1..];
      NoRepeatsTail(list);
      assert rest[i - 1] == list[i];
      DetachWhere(rest, i - 1);
      assert [list[0]] + rest[..i - 1] == list[..i] && rest[i..] == list[i + 1..];
    }
  }

  lemma DetachStep(list: seq<nat>, id: nat)
    requires list != []
    ensures Detach(list, id) == if list[0] == id then list[1..] else [list[0]] + Detach(list[1..], id)
  {}

  lemma DetachAt(list: seq<nat>, i: nat)
    requires i < |list| && NoRepeats(list)
    ensures |Detach(list, list[i])| == |list| - 1 && Detach(list, list[i])[i..] == list[i..][1..]
  {
    hide Detach;
    DetachWhere(list, i);
  }
}
