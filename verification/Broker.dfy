/** The control protocol between a plugin and the connection broker: the frames on the socket, and every
    interleaving of concurrent connects, the broker and the plugin's control reader. */
module Broker {
  import opened Bytes

  // ----- Frames -----

  datatype Message = ConnectOpen(id: nat)
    | ConnectOpenOk(id: nat) | ConnectOpenErr(id: nat, retryable: bool, text: seq<byte>)
                   | ListenIncoming(id: nat)

  const CONTROL_MAGIC: nat := 0x4252_4B52
  const MAX_TEXT: nat := 256
  const FRAME_SIZE: nat := 280

  function KindCode(m: Message): nat {
    match m
    case ConnectOpen(_) => 1
    case ConnectOpenOk(_) => 2
    case ConnectOpenErr(_, _, _) => 3
    case ListenIncoming(_) => 4
  }

  function Text(m: Message): seq<byte> { if m.ConnectOpenErr? then m.text else [] }

  function Head(m: Message): (b: seq<byte>)
    ensures |b| == 24
  {
    LE(CONTROL_MAGIC, 4) + LE(KindCode(m), 4) + LE(m.id, 8) + LE(if m.ConnectOpenErr? && m.retryable then 1 else 0, 4)
      + LE(|Text(m)|, 4)
  }

  /** A frame of fixed size; a text of more than 256 bytes is refused. */
  function Encode(m: Message): Option<seq<byte>> {
    if |Text(m)| > MAX_TEXT then None
    else Some(Head(m) + Text(m) + Zeros(MAX_TEXT - |Text(m)|))
  }

  function Decode(b: seq<byte>): Option<Message> {
    if |b| != FRAME_SIZE || Field(b, 0, 4) != CONTROL_MAGIC || Field(b, 20, 4) > MAX_TEXT then None
    else
      var id := Field(b, 8, 8);
      match Field(b, 4, 4)
      case 1 => Some(ConnectOpen(id))
      case 2 => Some(ConnectOpenOk(id))
      case 3 => Some(ConnectOpenErr(id, Field(b, 16, 4) != 0, b[24..24 + Field(b, 20, 4)]))
      case 4 => Some(ListenIncoming(id))
      case _ => None
  }

  lemma HeadParts(m: Message)
    ensures var h := Head(m);
            && h[0..4] == LE(CONTROL_MAGIC, 4) && h[4..8] == LE(KindCode(m), 4) && h[8..16] == LE(m.id, 8)
            && h[16..20] == LE(if m.ConnectOpenErr? && m.retryable then 1 else 0, 4) && h[20..24] == LE(|Text(m)|, 4)
  {
    hide LE;
    var d := LE(CONTROL_MAGIC, 4) + LE(KindCode(m), 4) + LE(m.id, 8)
      + LE(if m.ConnectOpenErr? && m.retryable then 1 else 0, 4);
    var e := LE(|Text(m)|, 4);
    assert Head(m) == d + e && |d| == 20;
    assert (d + e)[20..24] == e;
  }

  /** Every message that can be sent arrives as it was sent. */
  lemma FrameRoundTrip(m: Message)
    requires m.id < 0x1_0000_0000_0000_0000
    ensures Encode(m).Some? <==> |Text(m)| <= MAX_TEXT
    ensures Encode(m).Some? ==> |Encode(m).value| == FRAME_SIZE && Decode(Encode(m).value) == Some(m)
  {
    hide Head, LE, Field;
    if |Text(m)| <= MAX_TEXT {
      var b, h := Encode(m).value, Head(m);
      HeadParts(m);
      FrameParts(m);
      SliceVia(b, 0, 24, h, 0, 4, LE(CONTROL_MAGIC, 4));
      SliceVia(b, 0, 24, h, 4, 8, LE(KindCode(m), 4));
      SliceVia(b, 0, 24, h, 8, 16, LE(m.id, 8));
      SliceVia(b, 0, 24, h, 16, 20, LE(if m.ConnectOpenErr? && m.retryable then 1 else 0, 4));
      SliceVia(b, 0, 24, h, 20, 24, LE(|Text(m)|, 4));
      FieldRead(b, 0, 4, CONTROL_MAGIC);
      FieldRead(b, 4, 4, KindCode(m));
      FieldRead(b, 8, 8, m.id);
      FieldRead(b, 16, 4, if m.ConnectOpenErr? && m.retryable then 1 else 0);
      FieldRead(b, 20, 4, |Text(m)|);
    }
  }

  lemma FrameParts(m: Message)
    requires |Text(m)| <= MAX_TEXT
    ensures var b := Encode(m).value; |b| == FRAME_SIZE && b[0..24] == Head(m) && b[24..24 + |Text(m)|] == Text(m)
  {
    hide Head;
  }

  // ----- The state of plugin, socket and broker -----

  /** How far a connect call has come: it has its request id, it waits in the table, its request is sent. */
  datatype Phase = Numbered | Waiting | Asked

  datatype Reply = Stream(fd: nat) | Failed

  datatype Packet = Packet(message: Message, fd: Option<nat>)

  /** `requests` and `replies` are the two directions of the socket; `openedFor` says for which request the
      broker opened a stream. `arrived` and `times` are a history: the packets that the reader has taken, and
      how often each call was handed a result. */
  datatype System = System(next: nat, phase: map<nat, Phase>, pending: set<nat>, requests: seq<Message>,
                           replies: seq<Packet>,
                           results: map<nat, Reply>, openedFor: map<nat, nat>, readerUp: bool, brokerUp: bool,
                           arrived: set<Packet>, times: map<nat, nat>)

  const START: System := System(1, map[], {}, [], [], map[], map[], true, true, {}, map[])

  /** The reader hands a result to whoever waits for it, if anybody does. */
  function Complete(s: System, id: nat, r: Reply): System {
    if id in s.pending then s.(pending := s.pending - {id}, results := s.results[id := r],
                               times := s.times[id := Times(s, id) + 1]) else s
  }

  /** How often a result was handed to the call. */
  function Times(s: System, id: nat): nat { if id in s.times then s.times[id] else 0 }

  /** What the control reader does with a packet. */
  function Handle(s: System, p: Packet): System {
    match p.message
    case ConnectOpenOk(id) => Complete(s, id, if p.fd.Some? then Stream(p.fd.value) else Failed)
    case ConnectOpenErr(id, _, _) => Complete(s, id, Failed)
    case ConnectOpen(id) => Complete(s, id, Failed)
    case ListenIncoming(_) => s
  }

  /** The broker quits when a reply cannot be sent, for one when its text is too long for a frame. Any packet
      may be forged: one that answers nobody, answers again, or lies. */
  datatype Step = TakeNumber | Register(id: nat) | Send(id: nat) | SendFails(id: nat)
                | BrokerOpens(fd: nat) | BrokerRefuses(retryable: bool, text: seq<byte>) | BrokerQuits | Receive
                  | ReaderFails
                | Forge(packet: Packet)

  predicate Enabled(s: System, a: Step) {
    match a
    case TakeNumber => true
    case Register(id) => id in s.phase && s.phase[id] == Numbered
    case Send(id) => id in s.phase && s.phase[id] == Waiting
    case SendFails(id) => id in s.phase && s.phase[id] == Waiting
    case BrokerOpens(fd) => s.brokerUp && s.requests != [] && s.requests[0].ConnectOpen? && fd !in s.openedFor
    case BrokerRefuses(_, text) => s.brokerUp && s.requests != [] && s.requests[0].ConnectOpen? && |text| <= MAX_TEXT
    case BrokerQuits => s.brokerUp
    case Receive => s.readerUp && s.replies != []
    case ReaderFails => s.readerUp
    case Forge(_) => true
  }

  function Next(s: System, a: Step): System
    requires Enabled(s, a)
  {
    match a
    case TakeNumber => s.(next := s.next + 1, phase := s.phase[s.next := Numbered])
    case Register(id) => s.(pending := s.pending + {id}, phase := s.phase[id := Waiting])
    case Send(id) => s.(requests := s.requests + [ConnectOpen(id)], phase := s.phase[id := Asked])
    case SendFails(id) => s.(pending := s.pending - {id}, phase := s.phase - {id})
    case BrokerOpens(fd) =>
      s.(requests := s.requests[1..], replies := s.replies + [Packet(ConnectOpenOk(s.requests[0].id), Some(fd))],
         openedFor := s.openedFor[fd := s.requests[0].id])
    case BrokerRefuses(retryable, text) =>
      s.(requests := s.requests[1..],
         replies := s.replies + [Packet(ConnectOpenErr(s.requests[0].id, retryable, text), None)])
    case BrokerQuits => s.(brokerUp := false)
    case Receive => Handle(s.(replies := s.replies[1..], arrived := s.arrived + {s.replies[0]}), s.replies[0])
    case ReaderFails =>
      s.(pending := {}, results := map id | id in s.results.Keys + s.pending ::
         if id in s.pending then Failed else s.results[id], readerUp := false,
         times := map id | id in s.times.Keys + s.pending :: if id in s.pending then Times(s, id) + 1 else s.times[id])
    case Forge(p) => s.(replies := s.replies + [p])
  }

  // ----- What always holds -----

  /** The request ids on the way, in either direction. */
  function Flying(s: System): seq<nat> {
    seq(|s.requests|, i requires 0 <= i < |s.requests| => s.requests[i].id)
      + seq(|s.replies|, i requires 0 <= i < |s.replies| => s.replies[i].message.id)
  }

  /** The table holds only requests that were issued and not answered. */
  ghost predicate TableSane(s: System) {
    && (forall id :: id in s.phase ==> id < s.next)
    && (forall id :: id in s.pending ==> id in s.phase && s.phase[id] != Numbered && id !in s.results)
    && (forall id :: id in s.results ==> id < s.next && (id in s.phase ==> s.phase[id] != Numbered))
  }

  /** On the socket there are only requests, and replies to requests, no id twice; each id belongs to a call
      that has asked. */
  ghost predicate SocketSane(s: System) {
    && (forall i :: 0 <= i < |s.requests| ==> s.requests[i].ConnectOpen?)
    && (forall i :: 0 <= i < |s.replies| ==> ReplySane(s, s.replies[i]))
    && (forall i, j :: 0 <= i < j < |Flying(s)| ==> Flying(s)[i] != Flying(s)[j])
    && (forall i :: 0 <= i < |Flying(s)| ==> Flying(s)[i] in s.phase && s.phase[Flying(s)[i]] == Asked)
  }

  /** A stream travels with the id of the request it was opened for. */
  ghost predicate ReplySane(s: System, p: Packet) {
    || (p.message.ConnectOpenOk? && p.fd.Some? && p.fd.value in s.openedFor && s.openedFor[p.fd.value] == p.message.id)
    || (p.message.ConnectOpenErr? && p.fd == None)
  }

  ghost predicate StreamsRight(s: System) {
    forall id :: id in s.results && s.results[id].Stream? ==>
      s.results[id].fd in s.openedFor && s.openedFor[s.results[id].fd] == id
  }

  /** While the reader runs, a call that has asked waits exactly as long as its request or reply is on the
      way: no waiter is forgotten. */
  ghost predicate NobodyForgotten(s: System) {
    s.readerUp ==>
      && (forall id :: id in s.phase && s.phase[id] == Asked ==> (id in s.pending <==> id in Flying(s)))
      && (forall id :: id in s.phase && s.phase[id] == Asked && id !in s.pending ==> id in s.results)
      && (forall id :: id in s.phase && s.phase[id] == Waiting ==> id in s.pending)
  }

  ghost predicate Inv(s: System) {
    TableSane(s) && SocketSane(s) && StreamsRight(s) && NobodyForgotten(s)
  }

  lemma StartInv()
    ensures Inv(START)
  {
  }

  // ----- Every step keeps it -----

  lemma FlyingSame(s: System, t: System)
    requires s.requests == t.requests && s.replies == t.replies
    ensures Flying(s) == Flying(t)
  {
  }

  lemma FlyingCounts(s: System)
    ensures |Flying(s)| == |s.requests| + |s.replies|
  {
  }

  lemma FlyingSends(s: System, id: nat)
    ensures Flying(s.(requests := s.requests + [ConnectOpen(id)])) ==
            Flying(s)[..|s.requests|] + [id] + Flying(s)[|s.requests|..]
  {
  }

  lemma FlyingTurns(s: System, p: Packet)
    requires s.requests != [] && p.message.id == s.requests[0].id
    ensures Flying(s.(requests := s.requests[1..], replies := s.replies + [p])) == Flying(s)[1..] + [Flying(s)[0]]
  {
  }

  lemma FlyingLands(s: System)
    requires s.replies != []
    ensures Flying(s.(replies := s.replies[1..])) == Flying(s)[..|s.requests|] + Flying(s)[|s.requests| + 1..]
    ensures Flying(s)[|s.requests|] == s.replies[0].message.id
  {
  }

  /** Sending: the new request joins those on the way. */
  lemma SendKeeps(s: System, id: nat)
    requires Inv(s) && Enabled(s, Send(id))
    ensures Inv(Next(s, Send(id)))
  {
    hide ReplySane, Flying;
    var t := Next(s, Send(id));
    FlyingSends(s, id);
    FlyingSame(s.(requests := s.requests + [ConnectOpen(id)]), t);
    FlyingCounts(s);
    var f, n := Flying(s), |s.requests|;
    assert Flying(t) == f[..n] + [id] + f[n..];
    assert id !in f;
    forall i | 0 <= i < |t.replies| ensures ReplySane(t, t.replies[i]) { SameReply(s, t, s.replies[i]); }
  }

  lemma SameReply(s: System, t: System, p: Packet)
    requires ReplySane(s, p) && forall f :: f in s.openedFor ==> f in t.openedFor && t.openedFor[f] == s.openedFor[f]
    ensures ReplySane(t, p)
  {
  }

  /** Answering: the id of the request turns round and travels back. */
  lemma AnswerKeeps(s: System, a: Step)
    requires Inv(s) && Enabled(s, a) && (a.BrokerOpens? || a.BrokerRefuses?)
    ensures Inv(Next(s, a))
  {
    hide ReplySane, Flying;
    var t := Next(s, a);
    var p := t.replies[|s.replies|];
    FlyingTurns(s, p);
    FlyingSame(s.(requests := s.requests[1..], replies := s.replies + [p]), t);
    FlyingCounts(s);
    var f := Flying(s);
    assert Flying(t) == f[1..] + [f[0]];
    forall id ensures id in Flying(t) <==> id in f {
      assert f == [f[0]] + f[1..];
    }
    NewReply(s, t, a);
    forall i | 0 <= i < |t.replies| ensures ReplySane(t, t.replies[i]) {
      if i < |s.replies| { SameReply(s, t, s.replies[i]); }
    }
  }

  lemma NewReply(s: System, t: System, a: Step)
    requires Inv(s) && Enabled(s, a) && (a.BrokerOpens? || a.BrokerRefuses?) && t == Next(s, a)
    ensures ReplySane(t, t.replies[|s.replies|])
  {
  }

  /** What a received packet answers with. */
  function AnswerOf(p: Packet): Reply {
    if p.message.ConnectOpenOk? && p.fd.Some? then Stream(p.fd.value) else Failed
  }

  /** The packet off the socket. */
  function Taken(s: System): System
    requires s.replies != []
  {
    s.(replies := s.replies[1..], arrived := s.arrived + {s.replies[0]})
  }

  lemma ReceiveIs(s: System)
    requires Enabled(s, Receive)
    ensures var p := s.replies[0];
            Next(s, Receive) == if p.message.ListenIncoming? then Taken(s)
              else Complete(Taken(s), p.message.id, AnswerOf(p))
  {
  }

  lemma ReceiveFrame(s: System)
    requires Enabled(s, Receive)
    ensures var t := Next(s, Receive);
            && t.requests == s.requests && t.replies == s.replies[1..] && t.phase == s.phase
            && t.openedFor == s.openedFor && t.next == s.next
            && t.readerUp == s.readerUp && t.brokerUp == s.brokerUp
  {
    hide Next;
    ReceiveIs(s);
  }

  lemma ReceiveFlies(s: System)
    requires SocketSane(s) && Enabled(s, Receive)
    ensures SocketSane(Next(s, Receive))
    ensures forall id :: id in Flying(Next(s, Receive)) <==> id in Flying(s) && id != s.replies[0].message.id
    ensures s.replies[0].message.id in Flying(s)
  {
    hide ReplySane, Flying, Next;
    var t, p := Next(s, Receive), s.replies[0];
    ReceiveFrame(s);
    FlyingLands(s);
    FlyingSame(s.(replies := s.replies[1..]), t);
    FlyingCounts(s);
    var f, n := Flying(s), |s.requests|;
    assert f[n] == p.message.id;
    assert Flying(t) == f[..n] + f[n + 1..];
    forall id ensures id in Flying(t) <==> id in f && id != p.message.id {
      assert f == f[..n] + [f[n]] + f[n + 1..];
    }
    forall i | 0 <= i < |t.replies| ensures ReplySane(t, t.replies[i]) { SameReply(s, t, s.replies[i + 1]); }
  }

  /** Receiving: a waiter, if there is one for that id, gets its answer. */
  lemma ReceiveKeeps(s: System)
    requires Inv(s) && Enabled(s, Receive)
    ensures Inv(Next(s, Receive))
  {
    hide Flying, Next, SocketSane;
    ReceiveFlies(s);
    ReceiveIs(s);
    ReceiveFrame(s);
    SaneReply(s);
    var p, t := s.replies[0], Next(s, Receive);
    assert t.pending == s.pending - {p.message.id};
    if p.message.id in s.pending { assert t.results == s.results[p.message.id := AnswerOf(p)]; }
  }

  lemma SaneReply(s: System)
    requires SocketSane(s) && s.replies != [] && s.replies[0].message.id in Flying(s)
    ensures ReplySane(s, s.replies[0]) && s.replies[0].message.id in s.phase
    ensures s.phase[s.replies[0].message.id] == Asked
  {
    hide Flying, ReplySane;
  }

  /** Every step of plugin, socket and broker keeps the invariant, and no result once handed out changes. */
  lemma StepKeeps(s: System, a: Step)
    requires Inv(s) && Enabled(s, a) && !a.Forge?
    ensures Inv(Next(s, a))
    ensures forall id :: id in s.results ==> id in Next(s, a).results && Next(s, a).results[id] == s.results[id]
  {
    hide Inv, TableSane, SocketSane, StreamsRight, NobodyForgotten, Flying;
    ResultsStay(s, a);
    match a {
      case Send(id) => SendKeeps(s, id);
      case BrokerOpens(_) => AnswerKeeps(s, a);
      case BrokerRefuses(_, _) => AnswerKeeps(s, a);
      case Receive => ReceiveKeeps(s);
      case _ => TableStepKeeps(s, a);
    }
  }

  lemma ResultsStay(s: System, a: Step)
    requires Inv(s) && Enabled(s, a)
    ensures forall id :: id in s.results ==> id in Next(s, a).results && Next(s, a).results[id] == s.results[id]
  {
    hide SocketSane, StreamsRight, NobodyForgotten, Flying;
  }

  /** Steps that leave the socket alone. */
  lemma TableStepKeeps(s: System, a: Step)
    requires Inv(s) && Enabled(s, a)
    requires (a.TakeNumber? || a.Register? || a.SendFails? || a.BrokerQuits? || a.ReaderFails?)
    ensures Inv(Next(s, a))
  {
    hide ReplySane, Flying, SocketSane;
    FlyingSame(s, Next(s, a));
    TableStepSocket(s, a);
  }

  lemma TableStepSocket(s: System, a: Step)
    requires Inv(s) && Enabled(s, a)
    requires (a.TakeNumber? || a.Register? || a.SendFails? || a.BrokerQuits? || a.ReaderFails?)
    ensures SocketSane(Next(s, a))
  {
    hide ReplySane, Flying, StreamsRight, NobodyForgotten;
    var t := Next(s, a);
    FlyingSame(s, t);
    forall i | 0 <= i < |t.replies| ensures ReplySane(t, t.replies[i]) { SameReply(s, t, s.replies[i]); }
  }

  // ----- Whole runs -----

  ghost predicate Possible(s: System, steps: seq<Step>)
    decreases |steps|
  {
    steps != [] ==> Enabled(s, steps[0]) && Possible(Next(s, steps[0]), steps[1..])
  }

  function Run(s: System, steps: seq<Step>): System
    requires Possible(s, steps)
    decreases |steps|
  {
    if steps == [] then s else Run(Next(s, steps[0]), steps[1..])
  }

  ghost predicate Honest(steps: seq<Step>) { forall i :: 0 <= i < |steps| ==> !steps[i].Forge? }

  lemma {:induction false} RunKeeps(s: System, steps: seq<Step>)
    requires Inv(s) && Possible(s, steps) && Honest(steps)
    ensures Inv(Run(s, steps))
    ensures forall id :: id in s.results ==> id in Run(s, steps).results && Run(s, steps).results[id] == s.results[id]
    decreases |steps|
  {
    hide Inv, Enabled, Next;
    if steps != [] {
      StepKeeps(s, steps[0]);
      RunKeeps(Next(s, steps[0]), steps[1..]);
    }
  }

  /** In every state of every run with an honest peer: a call that got a stream got the one opened for its own
      request, no two calls got the same stream, and who still waits has had no answer. */
  lemma {:induction false} RunIsSafe(steps: seq<Step>, a: nat, b: nat)
    requires Possible(START, steps) && Honest(steps)
    ensures var s := Run(START, steps);
            && (a in s.results && s.results[a].Stream? ==>
                s.results[a].fd in s.openedFor && s.openedFor[s.results[a].fd] == a)
            && (a in s.results && b in s.results && s.results[a].Stream? && s.results[a] == s.results[b] ==> a == b)
            && (a in s.pending ==> a < s.next && a !in s.results)
  {
    hide Run, Possible;
    StartInv();
    RunKeeps(START, steps);
  }

  // ----- Who waits can be answered, as long as the reader runs -----

  /** Steps in which nothing breaks. */
  ghost predicate Orderly(steps: seq<Step>) {
    forall i :: 0 <= i < |steps| ==>
      !steps[i].SendFails? && !steps[i].BrokerQuits? && !steps[i].ReaderFails? && !steps[i].Forge?
  }

  lemma {:induction false} OneMore(s: System, a: Step, rest: seq<Step>)
    requires Enabled(s, a) && Possible(Next(s, a), rest)
    ensures Possible(s, [a] + rest) && Run(s, [a] + rest) == Run(Next(s, a), rest)
  {
    hide Enabled, Next;
    assert ([a] + rest)[1..] == rest;
  }

  /** In whatever state, a waiting call gets its answer in some run in which nothing breaks. */
  lemma {:induction false} GetsAnswered(s: System, id: nat) returns (steps: seq<Step>)
    requires Inv(s) && s.readerUp && s.brokerUp && id in s.pending
    ensures Possible(s, steps) && Orderly(steps) && id in Run(s, steps).results
    decreases s.phase[id] == Waiting, 2 * |s.requests| + |s.replies|
  {
    hide Flying, Run, Possible;
    var a := NextTowards(s, id);
    StepKeeps(s, a);
    var t := Next(s, a);
    var rest := [];
    if id in t.pending {
      rest := GetsAnswered(t, id);
    } else {
      Nothing(t);
    }
    OneMore(s, a, rest);
    steps := [a] + rest;
  }

  lemma {:induction false} Nothing(s: System)
    ensures Possible(s, []) && Run(s, []) == s
  {
  }

  lemma NextTowards(s: System, id: nat) returns (a: Step)
    requires Inv(s) && s.readerUp && s.brokerUp && id in s.pending
    ensures Enabled(s, a) && Orderly([a]) && !a.Forge? && Next(s, a).readerUp && Next(s, a).brokerUp
    ensures id in Next(s, a).pending || id in Next(s, a).results
    ensures id in Next(s, a).pending ==>
            || (s.phase[id] == Waiting && Next(s, a).phase[id] == Asked)
            || (Next(s, a).phase == s.phase &&
                2 * |Next(s, a).requests| + |Next(s, a).replies| < 2 * |s.requests| + |s.replies|)
  {
    hide Flying;
    FlyingCounts(s);
    if s.phase[id] == Waiting {
      a := Send(id);
    } else if s.replies != [] {
      a := Receive;
    } else {
      assert id in Flying(s);
      a := BrokerRefuses(true, []);
    }
  }

  /** Once the reader has stopped nothing is ever answered again. */
  lemma {:induction false} NothingAnswered(s: System, steps: seq<Step>)
    requires Possible(s, steps) && !s.readerUp
    ensures !Run(s, steps).readerUp && Run(s, steps).results == s.results
    decreases |steps|
  {
    if steps != [] { NothingAnswered(Next(s, steps[0]), steps[1..]); }
  }

  ghost predicate CanBeAnswered(s: System, id: nat) {
    exists steps :: Possible(s, steps) && id in Run(s, steps).results
  }

  /** A waiting call can be answered if and only if the control reader still runs. */
  lemma AnswerableIff(s: System, id: nat)
    requires Inv(s) && id in s.pending
    ensures CanBeAnswered(s, id) <==> s.readerUp
  {
    hide Run, Possible;
    if s.readerUp && !s.brokerUp {
      Nothing(Next(s, ReaderFails));
      OneMore(s, ReaderFails, []);
      assert CanBeAnswered(s, id);
    } else if s.readerUp {
      var steps := GetsAnswered(s, id);
      assert CanBeAnswered(s, id);
    } else if CanBeAnswered(s, id) {
      var steps :| Possible(s, steps) && id in Run(s, steps).results;
      NothingAnswered(s, steps);
      assert false;
    }
  }

  /** A call that registers after the reader has stopped on a malformed frame, say, and whose request goes
      out, waits for good. */
  lemma Stranded() returns (steps: seq<Step>, s: System)
    ensures Possible(START, steps) && s == Run(START, steps)
    ensures 1 in s.pending && 1 in s.phase && s.phase[1] == Asked && !CanBeAnswered(s, 1)
  {
    var a := Next(START, ReaderFails);
    var b := Next(a, TakeNumber);
    var c := Next(b, Register(1));
    s := Next(c, Send(1));
    Nothing(s);
    OneMore(c, Send(1), []);
    OneMore(b, Register(1), [Send(1)]);
    OneMore(a, TakeNumber, [Register(1)] + [Send(1)]);
    steps := [ReaderFails] + ([TakeNumber] + ([Register(1)] + [Send(1)]));
    OneMore(START, ReaderFails, [TakeNumber] + ([Register(1)] + [Send(1)]));
    StartInv();
    RunKeeps(START, steps);
    AnswerableIff(s, 1);
  }

  // ----- Whatever arrives -----

  /** What holds over all runs, with any packets at all: the table is sane, every call was handed at most one
      result, and a stream only because a reply with the call's own number brought it. */
  ghost predicate Core(s: System) {
    && TableSane(s)
    && (forall i :: 0 <= i < |s.requests| ==> s.requests[i].ConnectOpen?)
    && (forall id :: Times(s, id) == if id in s.results then 1 else 0)
    && (forall id :: id in s.results && s.results[id].Stream? ==>
        Packet(ConnectOpenOk(id), Some(s.results[id].fd)) in s.arrived)
  }

  lemma CoreStep(s: System, a: Step)
    requires Core(s) && Enabled(s, a)
    ensures Core(Next(s, a))
    ensures forall id :: id in s.results ==> id in Next(s, a).results && Next(s, a).results[id] == s.results[id]
    ensures a.Receive? && s.replies[0].message.id !in s.pending ==> Next(s, a) == Taken(s)
  {
    if a.Receive? {
      CoreReceive(s);
      ReceivedOnce(s);
    } else {
      CoreOther(s, a);
    }
  }

  lemma ReceivedOnce(s: System)
    requires Core(s) && Enabled(s, Receive)
    ensures forall id :: id in s.results ==>
            id in Next(s, Receive).results && Next(s, Receive).results[id] == s.results[id]
    ensures s.replies[0].message.id !in s.pending ==> Next(s, Receive) == Taken(s)
  {
    hide Next;
    ReceiveIs(s);
  }

  lemma CoreOther(s: System, a: Step)
    requires Core(s) && Enabled(s, a) && !a.Receive?
    ensures Core(Next(s, a))
    ensures forall id :: id in s.results ==> id in Next(s, a).results && Next(s, a).results[id] == s.results[id]
  {
  }

  lemma CoreReceive(s: System)
    requires Core(s) && Enabled(s, Receive)
    ensures Core(Next(s, Receive))
  {
    hide Next, Core;
    ReceiveIs(s);
    CoreTaken(s);
    var p := s.replies[0];
    if !p.message.ListenIncoming? && p.message.id in s.pending { CoreComplete(Taken(s), p); }
  }

  lemma CoreTaken(s: System)
    requires Core(s) && s.replies != []
    ensures Core(Taken(s))
  {
    hide TableSane;
    assert forall id :: Times(Taken(s), id) == Times(s, id);
    SameTable(s, Taken(s));
  }

  lemma SameTable(s: System, t: System)
    requires TableSane(s) && s.phase == t.phase && s.pending == t.pending && s.results == t.results && s.next == t.next
    ensures TableSane(t)
  {
  }

  lemma CoreComplete(s: System, p: Packet)
    requires Core(s) && p in s.arrived && !p.message.ListenIncoming? && p.message.id in s.pending
    ensures Core(Complete(s, p.message.id, AnswerOf(p)))
  {
    var id, t := p.message.id, Complete(s, p.message.id, AnswerOf(p));
    assert forall x :: Times(t, x) == if x == id then Times(s, id) + 1 else Times(s, x);
    if AnswerOf(p).Stream? { assert p == Packet(ConnectOpenOk(id), Some(p.fd.value)); }
  }

  /** Over all runs, with forged, repeated and unknown replies: nobody is handed a second result, a result
      once given never changes, and a stream comes with the call's own number. */
  lemma {:induction false} RunCore(s: System, steps: seq<Step>)
    requires Core(s) && Possible(s, steps)
    ensures Core(Run(s, steps))
    ensures forall id :: id in s.results ==> id in Run(s, steps).results && Run(s, steps).results[id] == s.results[id]
    decreases |steps|
  {
    hide Core, Enabled, Next;
    if steps != [] {
      CoreStep(s, steps[0]);
      RunCore(Next(s, steps[0]), steps[1..]);
    }
  }

  lemma {:induction false} AnsweredOnce(steps: seq<Step>, id: nat)
    requires Possible(START, steps)
    ensures var s := Run(START, steps);
            && Times(s, id) <= 1 && (Times(s, id) == 1 <==> id in s.results)
            && (id in s.results && s.results[id].Stream? ==>
                Packet(ConnectOpenOk(id), Some(s.results[id].fd)) in s.arrived)
  {
    hide Run, Possible;
    RunCore(START, steps);
  }

  // ----- What needs an honest peer -----

  /** The packet does not pass a stream off as that of another request. */
  ghost predicate Truthful(s: System, p: Packet) {
    p.message.ConnectOpenOk? && p.fd.Some? ==> p.fd.value in s.openedFor && s.openedFor[p.fd.value] == p.message.id
  }

  /** Receiving a packet keeps every call with its own stream if and only if the packet is truthful or nobody
      waits for it. */
  lemma ReceiveRightIff(s: System)
    requires StreamsRight(s) && Enabled(s, Receive)
    ensures StreamsRight(Next(s, Receive)) <==> Truthful(s, s.replies[0]) || s.replies[0].message.id !in s.pending
  {
    hide Next;
    ReceiveIs(s);
    var p, t := s.replies[0], Next(s, Receive);
    if !Truthful(s, p) && p.message.id in s.pending { assert t.results[p.message.id] == Stream(p.fd.value); }
  }

  ghost predicate AllTruthful(s: System) {
    StreamsRight(s) && forall i :: 0 <= i < |s.replies| ==> Truthful(s, s.replies[i])
  }

  /** Every packet that is forged, repeated replies among them, is truthful when it is sent. */
  ghost predicate TruthfulRun(s: System, steps: seq<Step>)
    requires Possible(s, steps)
    decreases |steps|
  {
    steps != [] ==> (steps[0].Forge? ==> Truthful(s, steps[0].packet)) && TruthfulRun(Next(s, steps[0]), steps[1..])
  }

  lemma TruthfulStep(s: System, a: Step)
    requires Core(s) && AllTruthful(s) && Enabled(s, a) && (a.Forge? ==> Truthful(s, a.packet))
    ensures AllTruthful(Next(s, a))
  {
    var t := Next(s, a);
    if a.Receive? {
      TruthfulReceive(s);
    } else {
      hide TableSane, Times;
      forall i | 0 <= i < |t.replies| ensures Truthful(t, t.replies[i]) {
        if i < |s.replies| { assert Truthful(s, s.replies[i]); }
      }
    }
  }

  lemma TruthfulReceive(s: System)
    requires AllTruthful(s) && Enabled(s, Receive)
    ensures AllTruthful(Next(s, Receive))
  {
    hide Next, StreamsRight;
    ReceiveFrame(s);
    ReceiveRightIff(s);
    var t := Next(s, Receive);
    forall i | 0 <= i < |t.replies| ensures Truthful(t, t.replies[i]) { assert Truthful(s, s.replies[i + 1]); }
  }

  /** With a truthful peer, however often it repeats itself, every call has its own stream. */
  lemma {:induction false} TruthfulRunRight(s: System, steps: seq<Step>)
    requires Core(s) && AllTruthful(s) && Possible(s, steps) && TruthfulRun(s, steps)
    ensures AllTruthful(Run(s, steps))
    decreases |steps|
  {
    hide Core, Enabled, Next, AllTruthful, Truthful;
    if steps != [] {
      CoreStep(s, steps[0]);
      TruthfulStep(s, steps[0]);
      TruthfulRunRight(Next(s, steps[0]), steps[1..]);
    }
  }

  /** One lie: a call is handed a stream that was opened for nobody. */
  lemma LieHappens() returns (steps: seq<Step>)
    ensures Possible(START, steps) && !StreamsRight(Run(START, steps))
  {
    var lie := Forge(Packet(ConnectOpenOk(1), Some(7)));
    var a := Next(START, TakeNumber);
    var b := Next(a, Register(1));
    var c := Next(b, lie);
    var d := Next(c, Receive);
    assert d.results[1] == Stream(7);
    Nothing(d);
    OneMore(c, Receive, []);
    OneMore(b, lie, [Receive]);
    OneMore(a, Register(1), [lie] + [Receive]);
    OneMore(START, TakeNumber, [Register(1)] + ([lie] + [Receive]));
    steps := [TakeNumber] + ([Register(1)] + ([lie] + [Receive]));
  }
}
