/** The remote's connection to a television (src/GoogleIP_Remote.cpp): attempts, pairing, one socket, and
 * messages framed by a length byte.  The network's answers are parameters. */
module Remote {
  import opened Bytes

  datatype Mode = Disconnected | Startup | InitWol | ConnectedToTv | ConnectedToPairing

  /** How an attempt to connect ends; in all but the first case a socket was opened. */
  datatype Outcome = NoSocket | TcpFails | NoSession | HandshakeFails | Connected

  /** What a pairing message holds, as far as the loop looks. */
  datatype Message = RequestAck | OptionMsg | ConfigurationAck | SecretAck | StatusOk | Unknown

  /** One call's answers from the network: connecting, the bytes read (none on error), what a message decodes
   * to, and what the send of a message of `size` bytes returns. */
  datatype Env = Env(remote: Outcome, pairing: Outcome, read: seq<byte>, decoded: Option<Message>, sent: int, size: nat)

  /** `open` counts open sockets, `attempts` the remote connection attempts since the counter was reset, and
   * `received` the complete messages. */
  datatype Sys = Sys(mode: Mode, retries: nat, sock: bool, ssl: bool, ctx: bool, chunks: seq<byte>, paired: bool,
                     hasIp: bool, open: nat, attempts: nat, received: seq<seq<byte>>)

  // ---------- The program's steps ----------

  function Closed(s: Sys): Sys {
    s.(ssl := false, ctx := false, sock := false, open := if s.sock && s.open > 0 then s.open - 1 else s.open)
  }

  /** makeSSLConnectBase. */
  function ConnectBase(s: Sys, o: Outcome): (Sys, bool) {
    if !s.hasIp || s.sock then (s, false)
    else
      var opened' := if o.NoSocket? then s.(ctx := true) else s.(ctx := true, sock := true, open := s.open + 1);
      if o.Connected? then (opened'.(ssl := true), true) else (Closed(opened'), false)
  }

  function Reset(s: Sys): Sys {
    s.(retries := 0, attempts := 0)
  }

  /** `wolfSSL_send(...) < buffer.size()`, where a negative result turns into a large number. */
  predicate SendFailed(sent: int, size: nat) {
    0 <= sent < size
  }

  /** A complete message is taken out of the bytes read so far. */
  predicate Complete(chunks: seq<byte>) {
    |chunks| > 0 && chunks[0] == |chunks| - 1
  }

  function Feed(chunks: seq<byte>, read: seq<byte>): (r: (seq<byte>, Option<seq<byte>>)) {
    var all := chunks + read;
    if Complete(all) then ([], Some(all[1..])) else (all, None)
  }

  /** A complete pairing message. */
  function HandlePairing(s: Sys, e: Env): Sys {
    match e.decoded
    case Some(SecretAck) => Reset(s.(paired := true, mode := Startup))
    case Some(StatusOk) => if SendFailed(e.sent, e.size) then Reset(Closed(s).(mode := Startup)) else s
    case _ => s
  }

  /** The STARTUP branch of loopRemoteConnection. */
  function Try(s: Sys, e: Env): Sys {
    var d := Closed(s).(retries := s.retries + 1);
    if d.retries > 3 then d.(mode := Disconnected)
    else ConnectBase(d.(attempts := d.attempts + 1), e.remote).0.(mode := ConnectedToTv)
  }

  /** Its read failed. */
  function ReadFailed(s: Sys, e: Env): Sys {
    if s.mode.ConnectedToPairing? then Reset(Closed(s).(mode := Startup))
    else
      var (c, ok) := ConnectBase(Closed(s), e.pairing);
      if !ok then Closed(c).(mode := InitWol)
      else if SendFailed(e.sent, e.size) then Closed(c).(mode := Startup)
      else Reset(c.(mode := ConnectedToPairing))
  }

  /** It read something. */
  function DataRead(s: Sys, e: Env): Sys {
    var (chunks, message) := Feed(s.chunks, e.read);
    var t := s.(chunks := chunks);
    match message
    case None => t
    case Some(m) =>
      var u := t.(received := s.received + [m]);
      if s.mode.ConnectedToPairing? then HandlePairing(u, e) else u
  }

  /** loopRemoteConnection. */
  function Step(s: Sys, e: Env): Sys {
    match s.mode
    case Disconnected => Reset(Closed(s))
    case Startup => Try(s, e)
    case InitWol => s.(mode := Startup)
    case _ => if e.read == [] then ReadFailed(s, e) else DataRead(s, e)
  }

  /** connectToTV. */
  function Begin(s: Sys, hasIp: bool): Sys {
    Reset(s.(mode := Startup, hasIp := hasIp))
  }

  datatype Event = Loop(env: Env) | ConnectTo(hasIp: bool)

  function Do(s: Sys, e: Event): Sys {
    match e
    case Loop(env) => Step(s, env)
    case ConnectTo(hasIp) => Begin(s, hasIp)
  }

  function Run(s: Sys, events: seq<Event>): Sys
    decreases |events|
  {
    if events == [] then s else Run(Do(s, events[0]), events[1..])
  }

  const START := Sys(Disconnected, 0, false, false, false, [], false, false, 0, 0, [])

  // ---------- Every run ----------

  predicate Inv(s: Sys) {
    && s.open == (if s.sock then 1 else 0)
    && (s.ssl ==> s.sock)
    && s.attempts <= 3
    && (s.mode.Disconnected? || s.attempts == s.retries)
  }

  lemma ClosedKeeps(s: Sys)
    requires Inv(s)
    ensures Inv(Closed(s)) && !Closed(s).sock && Closed(s) == s.(ssl := false, ctx := false, sock := false, open := 0)
  {}

  lemma ConnectKeeps(s: Sys, o: Outcome)
    requires Inv(s) && !s.sock
    ensures var (t, ok) := ConnectBase(s, o);
            && Inv(t) && t == s.(sock := t.sock, ssl := t.ssl, ctx := t.ctx, open := t.open)
            && ok == (s.hasIp && o.Connected?)
  {}

  lemma TryKeeps(s: Sys, e: Env)
    requires Inv(s) && s.mode.Startup?
    ensures Inv(Try(s, e))
  {
    hide Closed, ConnectBase;
    ClosedKeeps(s);
    var d := Closed(s).(retries := s.retries + 1);
    if d.retries <= 3 {
      ConnectKeeps(d.(attempts := d.attempts + 1), e.remote);
    }
  }

  lemma ReadFailedKeeps(s: Sys, e: Env)
    requires Inv(s) && !s.mode.Disconnected?
    ensures Inv(ReadFailed(s, e))
  {
    hide Closed, ConnectBase;
    ClosedKeeps(s);
    ConnectKeeps(Closed(s), e.pairing);
    ClosedKeeps(ConnectBase(Closed(s), e.pairing).0);
  }

  lemma DataReadKeeps(s: Sys, e: Env)
    requires Inv(s) && !s.mode.Disconnected?
    ensures Inv(DataRead(s, e))
  {
    hide Closed, Feed;
    ClosedKeeps(s);
    var t := s.(chunks := Feed(s.chunks, e.read).0);
    ClosedKeeps(t);
    if Feed(s.chunks, e.read).1.Some? {
      ClosedKeeps(t.(received := s.received + [Feed(s.chunks, e.read).1.value]));
    }
  }

  lemma StepKeeps(s: Sys, e: Event)
    requires Inv(s)
    ensures Inv(Do(s, e))
  {
    hide Closed, Try, ReadFailed, DataRead;
    ClosedKeeps(s);
    if e.Loop? {
      match s.mode {
        case Startup => TryKeeps(s, e.env);
        case ConnectedToTv =>
          ReadFailedKeeps(s, e.env);
          DataReadKeeps(s, e.env);
        case ConnectedToPairing =>
          ReadFailedKeeps(s, e.env);
          DataReadKeeps(s, e.env);
        case _ =>
      }
    }
  }

  /** In every run at most one socket is open, it is the one the program knows, and at most three attempts to
   * connect to the remote service are made between resets of the counter. */
  lemma {:induction false} EveryRun(s: Sys, events: seq<Event>)
    requires Inv(s)
    ensures var t := Run(s, events); t.open <= 1 && (t.open == 1 <==> t.sock) && t.attempts <= 3 && Inv(t)
    decreases |events|
  {
    if events != [] {
      StepKeeps(s, events[0]);
      EveryRun(Do(s, events[0]), events[1..]);
    }
  }

  /** Nothing can be read, and the pairing port cannot be reached. */
  predicate Unreachable(e: Event) {
    e.Loop? && e.env.read == [] && !e.env.pairing.Connected?
  }

  lemma OneTry(s: Sys, a: Event, b: Event, c: Event)
    requires Inv(s) && s.mode.Startup? && s.retries < 3 && Unreachable(a) && Unreachable(b) && Unreachable(c)
    ensures var t := Do(Do(Do(s, a), b), c);
            t.mode.Startup? && t.retries == s.retries + 1 && Inv(t) && t.received == s.received
  {
    hide Complete, Feed;
    StepKeeps(s, a);
    StepKeeps(Do(s, a), b);
    StepKeeps(Do(Do(s, a), b), c);
  }

  lemma RunThree(s: Sys, events: seq<Event>)
    requires |events| >= 3
    ensures Run(s, events) == Run(Do(Do(Do(s, events[0]), events[1]), events[2]), events[3..])
  {
    hide Do;
    var r1 := events[1..];
    var r2 := r1[1..];
    assert r2[1..] == events[3..];
    assert Run(s, events) == Run(Do(s, events[0]), r1);
    assert Run(Do(s, events[0]), r1) == Run(Do(Do(s, events[0]), r1[0]), r2);
  }

  /** With a television that cannot be reached, the tenth call at the latest stops in DISCONNECTED, after exactly
   * three attempts. */
  lemma {:induction false} StopsAfterThree(s: Sys, events: seq<Event>)
    requires Inv(s) && s.mode.Startup? && s.retries <= 3 && |events| == 10 - 3 * s.retries
    requires forall e :: e in events ==> Unreachable(e)
    ensures Run(s, events).mode.Disconnected? && Run(s, events).attempts == 3 && !Run(s, events).sock
    decreases |events|
  {
    hide Unreachable;
    if s.retries == 3 {
      assert Run(Do(s, events[0]), []) == Do(s, events[0]);
      assert events[1..] == [];
      LastTry(s, events[0]);
    } else {
      assert events[0] in events && events[1] in events && events[2] in events;
      OneTry(s, events[0], events[1], events[2]);
      RunThree(s, events);
      var t := Do(Do(Do(s, events[0]), events[1]), events[2]);
      assert forall e :: e in events[3..] ==> e in events;
      StopsAfterThree(t, events[3..]);
    }
  }

  lemma LastTry(s: Sys, e: Event)
    requires Inv(s) && s.mode.Startup? && s.retries == 3 && e in [e] && Unreachable(e)
    ensures Do(s, e).mode.Disconnected? && Do(s, e).attempts == 3 && !Do(s, e).sock
  {}

  /** Whatever happened before, connecting again starts from nothing: with a television that cannot be reached, ten
   * calls lead through exactly three attempts. */
  lemma StartsAfresh(s: Sys, hasIp: bool, events: seq<Event>)
    requires Inv(s) && |events| == 10 && forall e :: e in events ==> Unreachable(e)
    ensures var t := Do(s, ConnectTo(hasIp));
            && t.mode == Startup && t.hasIp == hasIp && t.sock == s.sock && t.chunks == s.chunks
            && var r := Run(t, events); r.mode == Disconnected && r.attempts == 3 && !r.sock
  {
    hide Unreachable, Run;
    StepKeeps(s, ConnectTo(hasIp));
    StopsAfterThree(Do(s, ConnectTo(hasIp)), events);
  }

  // ---------- One call, in full ----------

  /** The bytes read so far are one whole message, behind its length. */
  predicate WholeMessage(s: Sys, e: Env) {
    var all := s.chunks + e.read;
    e.read != [] && all[0] == |all| - 1
  }

  /** A whole message on the pairing connection, of one kind. */
  predicate PairingSays(s: Sys, e: Env, m: Message) {
    s.mode == ConnectedToPairing && WholeMessage(s, e) && e.decoded == Some(m)
  }

  /** The television's secret acknowledgement, and nothing else, pairs the remote, which then starts again at once. */
  lemma PairedIff(s: Sys, e: Event)
    ensures Do(s, e).paired <==> s.paired || (e.Loop? && PairingSays(s, e.env, SecretAck))
    ensures e.Loop? && PairingSays(s, e.env, SecretAck) ==>
              Do(s, e).mode == Startup && Do(s, e).retries == 0 && Do(s, e).chunks == []
  {
    hide Try, ReadFailed, DataRead, Closed;
    if e.Loop? {
      PairingIsKept(s, e.env);
      if e.env.read != [] {
        DataPairs(s, e.env);
      }
    }
  }

  lemma PairingIsKept(s: Sys, e: Env)
    ensures Closed(s).paired == s.paired && Try(s, e).paired == s.paired && ReadFailed(s, e).paired == s.paired
  {}

  lemma DataPairs(s: Sys, e: Env)
    requires e.read != []
    ensures var t := DataRead(s, e);
            && (t.paired <==> s.paired || PairingSays(s, e, SecretAck))
            && (PairingSays(s, e, SecretAck) ==> t.mode == Startup && t.retries == 0 && t.chunks == [])
  {}

  /** The send comes back short; a negative result does not. */
  predicate SendsShort(e: Env) {
    e.sent >= 0 && e.sent < e.size
  }

  /** The pairing port is reached after the remote service was lost. */
  predicate ReachesPairing(s: Sys, e: Env) {
    s.mode == ConnectedToTv && e.read == [] && s.hasIp && e.pairing == Connected
  }

  /** The pairing connection comes to its end: it breaks, the television accepts, or its status cannot be answered. */
  predicate LeavesPairing(s: Sys, e: Env) {
    s.mode == ConnectedToPairing
    && (e.read == [] || PairingSays(s, e, SecretAck) || (PairingSays(s, e, StatusOk) && SendsShort(e)))
  }

  /** Where one call of the loop leads, and when. */
  lemma ModeAfter(s: Sys, e: Env)
    ensures var t := Do(s, Loop(e)).mode;
            && (t == Disconnected <==> s.mode == Disconnected || (s.mode == Startup && s.retries >= 3))
            && (t == ConnectedToTv <==>
                  (s.mode == Startup && s.retries < 3) || (s.mode == ConnectedToTv && e.read != []))
            && (t == InitWol <==> s.mode == ConnectedToTv && e.read == [] && !ReachesPairing(s, e))
            && (t == ConnectedToPairing <==>
                  (ReachesPairing(s, e) && !SendsShort(e)) || (s.mode == ConnectedToPairing && !LeavesPairing(s, e)))
            && (t == Startup <==>
                  s.mode == InitWol || (ReachesPairing(s, e) && SendsShort(e)) || LeavesPairing(s, e))
  {
    hide Try, ReadFailed, DataRead, Closed;
    AfterTrying(s, e);
    AfterFailing(s, e);
    if s.mode == ConnectedToTv || s.mode == ConnectedToPairing {
      AfterReading(s, e);
    }
    ClosedMode(s);
  }

  lemma ClosedMode(s: Sys)
    ensures Closed(s).mode == s.mode
  {}

  lemma AfterReading(s: Sys, e: Env)
    requires s.mode == ConnectedToTv || s.mode == ConnectedToPairing
    ensures e.read != [] ==> DataRead(s, e).mode == if LeavesPairing(s, e) then Startup else s.mode
  {}

  lemma AfterTrying(s: Sys, e: Env)
    ensures Try(s, e).mode == if s.retries >= 3 then Disconnected else ConnectedToTv
  {
    hide ConnectBase;
  }

  lemma AfterFailing(s: Sys, e: Env)
    ensures ReadFailed(s, e).mode ==
            if s.mode == ConnectedToPairing then Startup
            else if !(s.hasIp && e.pairing == Connected) then InitWol
            else if SendsShort(e) then Startup else ConnectedToPairing
  {}

  /** How the count of attempts and the socket stand after one call: the count goes up with each attempt and back to
   * zero when the remote gives up, pairing begins or ends; and a socket is open just when the attempt made it or the
   * connection goes on. */
  lemma CountAndSocket(s: Sys, e: Env)
    requires Inv(s)
    ensures var t := Do(s, Loop(e));
            && t.retries == (match s.mode
                             case Disconnected => 0
                             case Startup => s.retries + 1
                             case InitWol => s.retries
                             case ConnectedToTv => if ReachesPairing(s, e) && !SendsShort(e) then 0 else s.retries
                             case ConnectedToPairing => if LeavesPairing(s, e) then 0 else s.retries)
            && t.sock == (match s.mode
                          case Disconnected => false
                          case Startup => s.retries < 3 && s.hasIp && e.remote == Connected
                          case InitWol => s.sock
                          case ConnectedToTv => if e.read == [] then ReachesPairing(s, e) && !SendsShort(e) else s.sock
                          case ConnectedToPairing =>
                            s.sock && (!LeavesPairing(s, e) || PairingSays(s, e, SecretAck)))
            && t.hasIp == s.hasIp
  {
    hide Try, ReadFailed, DataRead, Closed;
    ClosedKeeps(s);
    CountTrying(s, e);
    if e.read != [] {
      CountReading(s, e);
    } else if s.mode == ConnectedToTv || s.mode == ConnectedToPairing {
      CountFailing(s, e);
    }
  }

  lemma CountTrying(s: Sys, e: Env)
    requires Inv(s)
    ensures var t := Try(s, e);
            && t.retries == s.retries + 1 && t.hasIp == s.hasIp
            && t.sock == (s.retries < 3 && s.hasIp && e.remote == Connected)
  {
    hide Closed, ConnectBase;
    ClosedKeeps(s);
    var d := Closed(s).(retries := s.retries + 1, attempts := s.attempts);
    AttemptIs(d.(attempts := d.attempts + 1), e.remote);
  }

  lemma AttemptIs(s: Sys, o: Outcome)
    requires !s.sock && s.open == 0
    ensures var (t, ok) := ConnectBase(s, o);
            && ok == (s.hasIp && o == Connected) && t.sock == ok
            && t.retries == s.retries && t.hasIp == s.hasIp && t.mode == s.mode
  {}

  lemma CountFailing(s: Sys, e: Env)
    requires Inv(s) && (s.mode == ConnectedToTv || s.mode == ConnectedToPairing) && e.read == []
    ensures var t := ReadFailed(s, e);
            && t.hasIp == s.hasIp
            && t.retries == (if s.mode == ConnectedToPairing || (ReachesPairing(s, e) && !SendsShort(e)) then 0
                 else s.retries)
            && t.sock == (s.mode == ConnectedToTv && ReachesPairing(s, e) && !SendsShort(e))
  {
    hide ConnectBase;
    ClosedKeeps(s);
    AttemptIs(Closed(s), e.pairing);
  }

  lemma CountReading(s: Sys, e: Env)
    requires Inv(s) && e.read != []
    ensures var t := DataRead(s, e);
            && t.hasIp == s.hasIp
            && (s.mode == ConnectedToTv ==> t.retries == s.retries && t.sock == s.sock)
            && (s.mode == ConnectedToPairing ==>
                  && t.retries == (if LeavesPairing(s, e) then 0 else s.retries)
                  && t.sock == (s.sock && (!LeavesPairing(s, e) || PairingSays(s, e, SecretAck))))
  {}

  // ---------- Framing ----------

  /** encodeMessegToSend: the length byte keeps the length modulo 256. */
  function Encoded(payload: seq<byte>): seq<byte> {
    [|payload| % 256] + payload
  }

  function Stream(payloads: seq<seq<byte>>): seq<byte> {
    if payloads == [] then [] else Encoded(payloads[0]) + Stream(payloads[1..])
  }

  function Joined(chunks: seq<seq<byte>>): seq<byte> {
    if chunks == [] then [] else chunks[0] + Joined(chunks[1..])
  }

  /** The messages that come out of chunks read one after the other, and what is left over. */
  function FeedAll(have: seq<byte>, chunks: seq<seq<byte>>): (seq<seq<byte>>, seq<byte>)
    decreases |chunks|
  {
    if chunks == [] then ([], have)
    else
      var (left, message) := Feed(have, chunks[0]);
      var (more, end) := FeedAll(left, chunks[1..]);
      ((if message.Some? then [message.value] else []) + more, end)
  }

  /** Sizes alone: chunks cut the stream at the end of every message.  `have` bytes of the first message have
   * been read. */
  predicate NeverCross(chunks: seq<seq<byte>>, payloads: seq<seq<byte>>, have: nat)
    decreases |chunks|
  {
    if chunks == [] then payloads == [] && have == 0
    else
      && payloads != []
      && have + |chunks[0]| <= |payloads[0]| + 1
      && (if have + |chunks[0]| == |payloads[0]| + 1 then NeverCross(chunks[1..], payloads[1..], 0)
          else NeverCross(chunks[1..], payloads, have + |chunks[0]|))
  }

  predicate Short(payloads: seq<seq<byte>>) {
    forall i :: 0 <= i < |payloads| ==> |payloads[i]| < 256
  }

  predicate Chunky(chunks: seq<seq<byte>>) {
    forall i :: 0 <= i < |chunks| ==> chunks[i] != []
  }

  /** Once the bytes read go past the first message, nothing more is ever recognised. */
  lemma {:induction false} PastTheEnd(have: seq<byte>, chunks: seq<seq<byte>>)
    requires |have| > 0 && have[0] < |have| - 1
    ensures FeedAll(have, chunks).0 == []
    decreases |chunks|
  {
    if chunks != [] {
      var all := have + chunks[0];
      assert all[0] == have[0];
      PastTheEnd(all, chunks[1..]);
    }
  }

  /** Messages of at most 255 bytes, sent one after the other and read in non-empty chunks, come out exactly
   * once and in order, with nothing left over, if and only if no chunk crosses the end of a message. */
  lemma {:induction false} FramesComeOut(have: seq<byte>, chunks: seq<seq<byte>>, payloads: seq<seq<byte>>)
    requires Short(payloads) && Chunky(chunks)
    requires have + Joined(chunks) == Stream(payloads)
    requires payloads == [] || |have| <= |payloads[0]|
    ensures FeedAll(have, chunks) == (payloads, []) <==> NeverCross(chunks, payloads, |have|)
    decreases |chunks|
  {
    hide Complete;
    assert have + [] == have;
    assert chunks != [] ==> |have + Joined(chunks)| >= |chunks[0]|;
    if chunks != [] && payloads != [] {
      var all := have + chunks[0];
      var p := payloads[0];
      var rest := chunks[1..];
      assert all + Joined(rest) == Stream(payloads) by {
        assert have + (chunks[0] + Joined(rest)) == have + chunks[0] + Joined(rest);
      }
      assert Chunky(rest);
      FirstByte(all, Joined(rest), payloads);
      if |all| < |p| + 1 {
        NotYet(all, p);
        FramesComeOut(all, rest, payloads);
        assert [] + FeedAll(all, rest).0 == FeedAll(all, rest).0;
      } else if |all| == |p| + 1 {
        Exactly(all, p);
        assert Short(payloads[1..]);
        assert [] + Joined(rest) == Joined(rest);
        FramesComeOut([], rest, payloads[1..]);
        assert payloads == [p] + payloads[1..];
        assert ([p] + FeedAll([], rest).0)[1..] == FeedAll([], rest).0;
      } else {
        TooFar(all, p);
        PastTheEnd(all, rest);
        assert FeedAll(have, chunks).0 == [] + [];
      }
    }
  }

  /** The stream begins with the first message. */
  lemma FirstByte(all: seq<byte>, more: seq<byte>, payloads: seq<seq<byte>>)
    requires payloads != [] && Short(payloads) && all != [] && all + more == Stream(payloads)
    ensures all[0] == |payloads[0]|
    ensures |all| == |payloads[0]| + 1 ==> all == Encoded(payloads[0]) && more == Stream(payloads[1..])
  {
    var e := Encoded(payloads[0]);
    assert (all + more)[0] == all[0] && (e + Stream(payloads[1..]))[0] == e[0];
    if |all| == |e| {
      assert (all + more)[..|all|] == all && (e + Stream(payloads[1..]))[..|e|] == e;
      assert (all + more)[|all|..] == more && (e + Stream(payloads[1..]))[|e|..] == Stream(payloads[1..]);
    }
  }

  lemma NotYet(all: seq<byte>, p: seq<byte>)
    requires all != [] && all[0] == |p| && |all| < |p| + 1
    ensures !Complete(all)
  {}

  lemma Exactly(all: seq<byte>, p: seq<byte>)
    requires |p| < 256 && all == Encoded(p)
    ensures Complete(all) && all[1..] == p
  {}

  lemma TooFar(all: seq<byte>, p: seq<byte>)
    requires all != [] && all[0] == |p| && |all| > |p| + 1
    ensures !Complete(all) && all[0] < |all| - 1
  {}

  lemma TakesData(s: Sys, e: Event)
    requires s.mode.ConnectedToTv? && e.Loop? && e.env.read != []
    ensures var (left, message) := Feed(s.chunks, e.env.read);
            Do(s, e) == s.(chunks := left, received := s.received + if message.Some? then [message.value] else [])
  {
    assert s.received + [] == s.received;
  }

  lemma FeedFirst(have: seq<byte>, chunks: seq<seq<byte>>)
    requires chunks != []
    ensures var (left, message) := Feed(have, chunks[0]); var (more, end) := FeedAll(left, chunks[1..]);
            FeedAll(have, chunks) == ((if message.Some? then [message.value] else []) + more, end)
  {}

  /** What the loop takes from a connected television is what comes out of the chunks. */
  lemma {:induction false} LoopFeeds(s: Sys, events: seq<Event>)
    requires s.mode.ConnectedToTv? && forall e :: e in events ==> e.Loop? && e.env.read != []
    ensures var (messages, left) := FeedAll(s.chunks, Reads(events)); var t := Run(s, events);
            t.received == s.received + messages && t.chunks == left && t.mode.ConnectedToTv?
    decreases |events|
  {
    hide Feed, Do, FeedAll;
    var got := Reads(events);
    if events == [] {
      NothingFed(s.chunks);
    } else {
      var e := events[0];
      assert e in events && forall x :: x in events[1..] ==> x in events;
      TakesData(s, e);
      FeedFirst(s.chunks, got);
      assert got[1..] == Reads(events[1..]);
      LoopFeeds(Do(s, e), events[1..]);
      var message := Feed(s.chunks, e.env.read).1;
      var first := if message.Some? then [message.value] else [];
      var more := FeedAll(Do(s, e).chunks, Reads(events[1..])).0;
      assert s.received + (first + more) == s.received + first + more;
    }
  }

  lemma NothingFed(have: seq<byte>)
    ensures FeedAll(have, []) == ([], have)
  {}

  function Reads(events: seq<Event>): (r: seq<seq<byte>>)
    ensures |r| == |events|
  {
    if events == [] then []
    else [if events[0].Loop? then events[0].env.read else []] + Reads(events[1..])
  }

  lemma {:induction false} StreamAppend(a: seq<seq<byte>>, b: seq<seq<byte>>)
    ensures Stream(a + b) == Stream(a) + Stream(b)
    decreases |a|
  {
    if a == [] {
      assert a + b == b;
    } else {
      assert (a + b)[0] == a[0] && (a + b)[1..] == a[1..] + b;
      StreamAppend(a[1..], b);
      assert Encoded(a[0]) + (Stream(a[1..]) + Stream(b)) == Encoded(a[0]) + Stream(a[1..]) + Stream(b);
    }
  }

  /** No byte is lost or made up: those read are in the messages, behind their length bytes, or left over. */
  lemma {:induction false} BytesAreKept(have: seq<byte>, chunks: seq<seq<byte>>)
    ensures var (messages, left) := FeedAll(have, chunks); Stream(messages) + left == have + Joined(chunks)
    decreases |chunks|
  {
    hide Joined, Stream;
    if chunks == [] {
      NoStream();
      assert [] + have == have + [];
    } else {
      var all := have + chunks[0];
      var (left, message) := Feed(have, chunks[0]);
      var (more, end) := FeedAll(left, chunks[1..]);
      BytesAreKept(left, chunks[1..]);
      FirstChunk(chunks);
      assert all + Joined(chunks[1..]) == have + Joined(chunks);
      if message.Some? {
        assert all == [all[0]] + all[1..] == Encoded(message.value);
        StreamAppend([message.value], more);
        OneStream(message.value);
        assert Encoded(message.value) + Stream(more) + end == all + (left + Joined(chunks[1..]));
      } else {
        assert [] + more == more;
      }
    }
  }

  lemma NoStream()
    ensures Stream([]) == [] && Joined([]) == []
  {}

  lemma FirstChunk(chunks: seq<seq<byte>>)
    requires chunks != []
    ensures Joined(chunks) == chunks[0] + Joined(chunks[1..])
  {}

  lemma OneStream(payload: seq<byte>)
    ensures Stream([payload]) == Encoded(payload)
  {
    assert [payload][1..] == [];
    assert Encoded(payload) + [] == Encoded(payload);
  }

  /** Messages sent on one connection reach the program exactly once and in order, with nothing left over, if and
   * only if nothing was left of an earlier connection and no read crosses the end of a message. */
  lemma MessagesArrive(s: Sys, events: seq<Event>, payloads: seq<seq<byte>>)
    requires s.mode.ConnectedToTv? && forall e :: e in events ==> e.Loop? && e.env.read != []
    requires Short(payloads) && Joined(Reads(events)) == Stream(payloads)
    ensures var t := Run(s, events);
            t.received == s.received + payloads && t.chunks == [] <==>
              s.chunks == [] && NeverCross(Reads(events), payloads, 0)
  {
    hide Feed, Do, FeedAll, NeverCross, Joined, Stream, Run;
    LoopFeeds(s, events);
    ReadsAreChunky(events);
    var messages := FeedAll(s.chunks, Reads(events)).0;
    assert (s.received + messages)[|s.received|..] == messages;
    assert (s.received + payloads)[|s.received|..] == payloads;
    if s.chunks == [] {
      assert [] + Joined(Reads(events)) == Joined(Reads(events));
      FramesComeOut([], Reads(events), payloads);
    } else {
      BytesAreKept(s.chunks, Reads(events));
      assert |s.chunks + Joined(Reads(events))| > |Stream(payloads)|;
      assert Stream(payloads) + [] == Stream(payloads);
    }
  }

  // ---------- From one connection to the next ----------

  /** A step that reads nothing, whatever becomes of the connection, keeps the bytes read before. */
  lemma NothingRead(s: Sys, e: Event)
    requires e.Loop? ==> e.env.read == []
    ensures Do(s, e).chunks == s.chunks && Do(s, e).received == s.received
  {
    hide Try, ReadFailed, DataRead;
    if e.Loop? {
      TryingReadsNothing(s, e.env);
      FailingReadsNothing(s, e.env);
    }
  }

  lemma TryingReadsNothing(s: Sys, e: Env)
    ensures Try(s, e).chunks == s.chunks && Try(s, e).received == s.received
  {
    hide ConnectBase;
    var d := Closed(s).(retries := s.retries + 1);
    ConnectingReadsNothing(d.(attempts := d.attempts + 1), e.remote);
  }

  lemma FailingReadsNothing(s: Sys, e: Env)
    ensures ReadFailed(s, e).chunks == s.chunks && ReadFailed(s, e).received == s.received
  {
    hide ConnectBase;
    ConnectingReadsNothing(Closed(s), e.pairing);
  }

  lemma ConnectingReadsNothing(s: Sys, o: Outcome)
    ensures ConnectBase(s, o).0.chunks == s.chunks && ConnectBase(s, o).0.received == s.received
  {}

  lemma {:induction false} NothingReadFor(s: Sys, events: seq<Event>)
    requires forall e :: e in events && e.Loop? ==> e.env.read == []
    ensures Run(s, events).chunks == s.chunks && Run(s, events).received == s.received
    decreases |events|
  {
    hide Do;
    if events != [] {
      assert events[0] in events && forall e :: e in events[1..] ==> e in events;
      NothingRead(s, events[0]);
      NothingReadFor(Do(s, events[0]), events[1..]);
    }
  }

  lemma {:induction false} RunAppend(s: Sys, a: seq<Event>, b: seq<Event>)
    ensures Run(s, a + b) == Run(Run(s, a), b)
    decreases |a|
  {
    hide Do;
    if a == [] {
      assert a + b == b;
    } else {
      assert (a + b)[0] == a[0] && (a + b)[1..] == a[1..] + b;
      RunAppend(Do(s, a[0]), a[1..], b);
    }
  }

  /** Whatever happens between one connection and the next, the messages of the next arrive exactly if and only if no
   * message of the first was left unfinished and no read crosses the end of a message. */
  lemma NextConnection(s: Sys, between: seq<Event>, events: seq<Event>, payloads: seq<seq<byte>>)
    requires (forall e :: e in between && e.Loop? ==> e.env.read == []) && Run(s, between).mode.ConnectedToTv?
    requires forall e :: e in events ==> e.Loop? && e.env.read != []
    requires Short(payloads) && Joined(Reads(events)) == Stream(payloads)
    ensures var t := Run(s, between + events);
            t.received == s.received + payloads && t.chunks == [] <==>
              s.chunks == [] && NeverCross(Reads(events), payloads, 0)
  {
    hide Run, NeverCross, Joined, Stream, Do;
    NothingReadFor(s, between);
    RunAppend(s, between, events);
    MessagesArrive(Run(s, between), events, payloads);
  }

  /** It does happen: an unfinished message, a failed read, a failed attempt to pair, and a new connection. */
  lemma UnfinishedStays(s: Sys, e: Env, again: Env)
    requires s.mode.ConnectedToTv? && e.read == [] && again.read == [] && !e.pairing.Connected? && s.retries < 3
    ensures var t := Run(s, [Loop(e), Loop(again), Loop(again)]); t.mode.ConnectedToTv? && t.chunks == s.chunks
  {
    hide Try, ReadFailed, DataRead, Closed;
    var s1 := Step(s, e);
    var s2 := Step(s1, again);
    FailsToPair(s, e);
    assert s1.mode.InitWol? && s2.mode.Startup? && s2.retries < 3;
    TriesAgain(s2, again);
    assert [Loop(e), Loop(again), Loop(again)][1..] == [Loop(again), Loop(again)];
    assert [Loop(again), Loop(again)][1..] == [Loop(again)] && [Loop(again)][1..] == [];
    assert Run(s2, [Loop(again)]) == Step(s2, again);
    assert Run(s1, [Loop(again), Loop(again)]) == Run(s2, [Loop(again)]);
  }

  lemma FailsToPair(s: Sys, e: Env)
    requires s.mode.ConnectedToTv? && !e.pairing.Connected?
    ensures var t := ReadFailed(s, e); t.mode.InitWol? && t.chunks == s.chunks && t.retries == s.retries
  {}

  lemma TriesAgain(s: Sys, e: Env)
    requires s.retries < 3
    ensures Try(s, e).mode.ConnectedToTv? && Try(s, e).chunks == s.chunks
  {}

  lemma {:induction false} ReadsAreChunky(events: seq<Event>)
    requires forall e :: e in events ==> e.Loop? && e.env.read != []
    ensures Chunky(Reads(events))
    decreases |events|
  {
    if events != [] {
      assert events[0] in events && forall x :: x in events[1..] ==> x in events;
      ReadsAreChunky(events[1..]);
    }
  }

  // ---------- The program ----------

  class GoogleTvRemote {
    var mode: Mode
    var connectRetries: nat
    var sock: bool
    var ssl: bool
    var ctx: bool
    var readDataChunks: seq<byte>
    var isPaired: bool
    var hasIp: bool
    ghost var open: nat
    ghost var attempts: nat
    ghost var received: seq<seq<byte>>

    ghost function State(): Sys
      reads this
    {
      Sys(mode, connectRetries, sock, ssl, ctx, readDataChunks, isPaired, hasIp, open, attempts, received)
    }

    constructor ()
      ensures State() == START
    {
      mode, connectRetries, sock, ssl, ctx := Disconnected, 0, false, false, false;
      readDataChunks, isPaired, hasIp := [], false, false;
      open, attempts, received := 0, 0, [];
    }

    method ResetRetries()
      modifies this`connectRetries, this`attempts
      ensures State() == Reset(old(State()))
    {
      connectRetries := 0;
      attempts := 0;
    }

    method Disconnect()
      modifies this`ssl, this`ctx, this`sock, this`open
      ensures State() == Closed(old(State()))
    {
      if ssl {
        ssl := false;
      }
      if ctx {
        ctx := false;
      }
      if sock {
        open := if open > 0 then open - 1 else 0;
        sock := false;
      }
    }

    method MakeSslConnectBase(o: Outcome) returns (ok: bool)
      modifies this`ssl, this`ctx, this`sock, this`open
      ensures (State(), ok) == ConnectBase(old(State()), o)
    {
      if !hasIp {
        return false;
      }
      if sock {
        return false;
      }
      ctx := true;
      if !o.NoSocket? {
        sock := true;
        open := open + 1;
      }
      if !o.Connected? {
        Disconnect();
        return false;
      }
      ssl := true;
      return true;
    }

    method ConnectToTv(ip: bool)
      modifies this
      ensures State() == Begin(old(State()), ip)
    {
      hasIp := ip;
      mode := Startup;
      ResetRetries();
    }

    method LoopRemoteConnection(e: Env)
      modifies this
      ensures State() == Step(old(State()), e)
    {
      hide ReadFailed, DataRead, Closed, ConnectBase;
      if mode.Disconnected? {
        Disconnect();
        ResetRetries();
        return;
      } else if mode.Startup? {
        Disconnect();
        connectRetries := connectRetries + 1;
        if connectRetries > 3 {
          mode := Disconnected;
          return;
        }
        attempts := attempts + 1;
        var ok := MakeSslConnectBase(e.remote);
        mode := ConnectedToTv;
        return;
      } else if mode.InitWol? {
        mode := Startup;
        return;
      }
      if e.read == [] {
        OnReadFailed(e);
      } else {
        OnData(e);
      }
    }

    /** The read failed. */
    method OnReadFailed(e: Env)
      modifies this
      ensures State() == ReadFailed(old(State()), e)
    {
      Disconnect();
      if mode.ConnectedToPairing? {
        mode := Startup;
        ResetRetries();
        return;
      }
      var ok := MakeSslConnectBase(e.pairing);
      if !ok {
        Disconnect();
        mode := InitWol;
        return;
      }
      if SendFailed(e.sent, e.size) {
        Disconnect();
        mode := Startup;
        return;
      }
      mode := ConnectedToPairing;
      ResetRetries();
    }

    /** Something was read. */
    method OnData(e: Env)
      modifies this
      ensures State() == DataRead(old(State()), e)
    {
      readDataChunks := readDataChunks + e.read;
      if |readDataChunks| > 0 && readDataChunks[0] == |readDataChunks| - 1 {
        received := received + [readDataChunks[1..]];
        if mode.ConnectedToPairing? && e.decoded.Some? {
          if e.decoded.value.SecretAck? {
            isPaired := true;
            mode := Startup;
            ResetRetries();
          } else if e.decoded.value.StatusOk? {
            if SendFailed(e.sent, e.size) {
              Disconnect();
              mode := Startup;
              ResetRetries();
            }
          }
        }
        readDataChunks := [];
      }
    }
  }

  /** encodeMessegToSend, in place: the vector is resized, shifted and cut back. */
  method EncodeMessageToSend(data: seq<byte>) returns (buffer: seq<byte>)
    ensures buffer == Encoded(data)
  {
    var size := |data|;
    buffer := data + [0];
    buffer := [size % 256] + buffer;
    buffer := buffer[..size + 1];
  }
}
