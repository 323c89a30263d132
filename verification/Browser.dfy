/** The browse cache as the program has it: loops over lists changed in place (mdns_browser.c). */
module Browser {
  import opened Bytes
  import opened Browse

  lemma FindGoesOn(entries: seq<Entry>, at: Where, instance: CString, i: nat)
    requires i < |entries|
    ensures Find(entries[i..], at, instance) ==
              if IsInstance(entries[i], at, instance) then 0 else 1 + Find(entries[i + 1..], at, instance)
  {
    hide EqNoCase;
    assert entries[i..][0] == entries[i] && entries[i..][1..] == entries[i + 1..];
  }

  lemma LackingGoesOn(entries: seq<Entry>, at: Where, host: CString, ip: Addr, i: nat)
    requires i < |entries|
    ensures var e := entries[i];
            FindLacking(entries[i..], at, host, ip) ==
              if e.at == at && SameHost(Some(host), e.hostname) && ip !in e.addrs then 0
              else 1 + FindLacking(entries[i + 1..], at, host, ip)
  {
    hide SameHost;
    assert entries[i..][0] == entries[i] && entries[i..][1..] == entries[i + 1..];
  }

  lemma CopiedGoesOn(entries: seq<Entry>, e: Entry, i: nat)
    requires i < |entries| && e.addrs == []
    ensures var x := entries[i];
            CopiedAddrs(entries[i..], e) ==
              if SameHost(x.hostname, e.hostname) && x.at.v6 == e.at.v6 && x.addrs != [] then x.addrs
              else CopiedAddrs(entries[i + 1..], e)
  {
    hide SameHost;
    assert entries[i..][0] == entries[i] && entries[i..][1..] == entries[i + 1..];
  }

  lemma KnownGoesOn(item: TxtItem, txt: seq<TxtItem>, i: nat)
    requires i < |txt|
    ensures TxtKnown(item, txt[i..]) ==
              if item.key == txt[i].key then item.value == txt[i].value else TxtKnown(item, txt[i + 1..])
  {
    assert txt[i..][0] == txt[i] && txt[i..][1..] == txt[i + 1..];
  }

  /** is_txt_item_in_list. */
  method IsTxtItemInList(item: TxtItem, txt: seq<TxtItem>) returns (known: bool)
    ensures known == TxtKnown(item, txt)
  {
    var i := 0;
    assert txt[0..] == txt;
    while i < |txt|
      invariant 0 <= i <= |txt| && TxtKnown(item, txt[i..]) == TxtKnown(item, txt)
    {
      KnownGoesOn(item, txt, i);
      if item.key == txt[i].key {
        return item.value == txt[i].value;
      }
      i := i + 1;
    }
    return false;
  }

  /** mdns_utils_copy_address_list. */
  method CopyAddressList(list: seq<Addr>) returns (copy: seq<Addr>)
    ensures copy == list
  {
    copy := [];
    var i := 0;
    while i < |list|
      invariant 0 <= i <= |list| && copy == list[..i]
    {
      copy := copy + [list[i]];
      i := i + 1;
    }
  }

  class Results {
    var entries: seq<Entry>
    var changed: seq<nat>
    var nextId: nat
    var staged: seq<Staged>

    ghost function State(): Work
      reads this
    {
      Work(entries, changed, nextId)
    }

    constructor ()
      ensures State() == Work([], [], 0) && staged == []
    {
      entries, changed, nextId, staged := [], [], 0, [];
    }

    /** add_browse_result. */
    method AddBrowseResult(id: nat)
      modifies this`changed
      ensures changed == Changed(old(changed), id)
    {
      var i := 0;
      while i < |changed| && changed[i] != id
        invariant i <= |changed| && id !in changed[..i]
        modifies {}
      {
        assert changed[..i + 1] == changed[..i] + [changed[i]];
        i := i + 1;
      }
      if i == |changed| {
        assert changed[..i] == changed;
        changed := [id] + changed;
      }
    }

    /** The search for the entry of an instance. */
    method FindInstance(at: Where, instance: CString) returns (i: nat)
      ensures i == Find(entries, at, instance)
    {
      hide Find, EqNoCase;
      i := 0;
      assert entries[0..] == entries;
      while i < |entries| && !(entries[i].at == at && entries[i].instance != []
        && EqNoCase(instance, entries[i].instance))
        invariant i <= |entries| && i + Find(entries[i..], at, instance) == Find(entries, at, instance)
      {
        FindGoesOn(entries, at, instance, i);
        i := i + 1;
      }
      if i < |entries| {
        FindGoesOn(entries, at, instance, i);
      }
    }

    /** A new entry, at the head. */
    method NewEntry(e: Entry)
      modifies this`entries, this`changed, this`nextId
      ensures State() == Added(old(State()), e)
    {
      var id := nextId;
      nextId := nextId + 1;
      entries := [e.(id := id)] + entries;
      AddBrowseResult(id);
    }

    /** mdns_priv_browse_result_add_ptr. */
    method ResultAddPtr(at: Where, instance: CString, ttl: nat)
      modifies this`entries, this`changed, this`nextId
      ensures State() == AddPtr(old(State()), at, instance, ttl)
    {
      hide Find;
      if instance == [] {
        return;
      }
      var i := FindInstance(at, instance);
      if i < |entries| {
        var e := entries[i];
        entries := entries[i := e.(ttl := NewTtl(e.ttl, ttl))];
        if NewTtl(e.ttl, ttl) != e.ttl {
          AddBrowseResult(e.id);
        }
      } else {
        NewEntry(Entry(0, at, instance, None, 0, [], [], ttl));
      }
    }

    /** copy_address_in_previous_result. */
    method CopyAddressInPreviousResult(e: Entry) returns (addrs: seq<Addr>)
      ensures addrs == CopiedAddrs(entries, e)
    {
      hide SameHost;
      addrs := e.addrs;
      if e.addrs != [] {
        return;
      }
      var i := 0;
      assert entries[0..] == entries;
      while i < |entries|
        invariant 0 <= i <= |entries| && addrs == [] && CopiedAddrs(entries[i..], e) == CopiedAddrs(entries, e)
      {
        CopiedGoesOn(entries, e, i);
        if SameHost(entries[i].hostname, e.hostname) && entries[i].at.v6 == e.at.v6 && entries[i].addrs != [] {
          addrs := CopyAddressList(entries[i].addrs);
          return;
        }
        i := i + 1;
      }
    }

    /** mdns_priv_browse_result_add_srv. */
    method ResultAddSrv(at: Where, instance: CString, host: CString, port: nat, ttl: nat)
      modifies this`entries, this`changed, this`nextId
      ensures State() == AddSrv(old(State()), at, instance, host, port, ttl)
    {
      hide Find, EqNoCase, CopiedAddrs;
      if instance == [] {
        return;
      }
      var i := FindInstance(at, instance);
      if i == |entries| {
        NewEntry(Entry(0, at, instance, Some(host), port, [], [], ttl));
        return;
      }
      ghost var was := entries;
      var e := entries[i];
      if !SameHost(Some(host), e.hostname) {
        e := e.(hostname := Some(host), port := port);
        entries := entries[i := e];
        var addrs := CopyAddressInPreviousResult(e);
        e := e.(addrs := addrs);
        entries := entries[i := e];
        AddBrowseResult(e.id);
      }
      var previous := e.ttl;
      entries := entries[i := e.(ttl := NewTtl(e.ttl, ttl))];
      if NewTtl(e.ttl, ttl) != previous {
        AddBrowseResult(e.id);
      }
      assert entries == was[i := e.(ttl := NewTtl(e.ttl, ttl))];
    }

    /** mdns_priv_browse_result_add_txt. */
    method ResultAddTxt(at: Where, instance: CString, txt: seq<TxtItem>, ttl: nat)
      modifies this`entries, this`changed, this`nextId
      ensures State() == AddTxt(old(State()), at, instance, txt, ttl)
    {
      hide Find;
      if instance == [] {
        return;
      }
      var i := FindInstance(at, instance);
      if i == |entries| {
        NewEntry(Entry(0, at, instance, None, 0, txt, [], ttl));
        return;
      }
      var e := entries[i];
      var shouldUpdate := false;
      if e.txt != [] {
        if |txt| != |e.txt| {
          shouldUpdate := true;
        } else {
          var k := 0;
          while k < |txt|
            invariant 0 <= k <= |txt| && !shouldUpdate && forall j :: 0 <= j < k ==> TxtKnown(txt[j], e.txt)
            modifies {}
          {
            var known := IsTxtItemInList(txt[k], e.txt);
            if !known {
              shouldUpdate := true;
              assert txt[k] in txt;
              break;
            }
            k := k + 1;
          }
        }
      }
      assert shouldUpdate == TxtChanged(txt, e.txt);
      if NewTtl(e.ttl, ttl) != e.ttl {
        shouldUpdate := true;
      }
      entries := entries[i := e.(txt := txt, ttl := NewTtl(e.ttl, ttl))];
      if shouldUpdate {
        AddBrowseResult(e.id);
      }
    }

    /** mdns_priv_browse_result_add_ip: past an entry that has the address, on to the next of the host. */
    method ResultAddIp(x: Staged)
      modifies this`entries, this`changed
      ensures State() == AddIp(old(State()), x)
    {
      hide SameHost, FindLacking;
      var i := 0;
      assert entries[0..] == entries;
      while i < |entries|
        invariant 0 <= i <= |entries|
        invariant i + FindLacking(entries[i..], x.at, x.host, x.ip) == FindLacking(entries, x.at, x.host, x.ip)
        modifies {}
      {
        LackingGoesOn(entries, x.at, x.host, x.ip, i);
        var e := entries[i];
        if e.at == x.at && SameHost(Some(x.host), e.hostname) {
          if x.ip !in e.addrs {
            break;
          }
        }
        i := i + 1;
      }
      if i < |entries| {
        var e := entries[i];
        entries := entries[i := e.(addrs := [x.ip] + e.addrs, ttl := NewTtl(e.ttl, x.ttl))];
        AddBrowseResult(e.id);
      }
    }

    /** mdns_priv_browse_stage_ip. */
    method StageIp(x: Staged)
      modifies this`staged
      ensures staged == [x] + old(staged)
    {
      staged := [x] + staged;
    }

    /** mdns_priv_browse_apply_staged_ips. */
    method ApplyStagedIps()
      modifies this`entries, this`changed, this`staged
      ensures State() == Apply(old(State()), old(staged)) && staged == []
    {
      hide AddIp;
      while staged != []
        invariant Apply(State(), staged) == Apply(old(State()), old(staged))
        modifies this`entries, this`changed, this`staged
        decreases |staged|
      {
        ResultAddIp(staged[0]);
        staged := staged[1..];
      }
    }
  }
}
