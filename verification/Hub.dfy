/**
 The WebSocket hub. A client stands for one connection, identified by a number that is never used again;
 its channel is the bounded queue between the hub and the connection's writer. One step is one turn of the
 hub's select loop, or one message taken off a channel by its writer.
 */
module Hub {

  type ClientId = nat
  datatype Message = Metrics(n: int) | History
  /** `closes` counts calls to close on the channel; `delivered` is what the writer has taken off it. */
  datatype Channel = Channel(queue: seq<Message>, closes: nat, delivered: seq<Message>)
  datatype State = State(clients: set<ClientId>, channels: map<ClientId, Channel>)

  const CAPACITY := 256
  const OPEN := Channel([], 0, [])

  function Empty(): State {
    State({}, map[])
  }

  // ---- One step, channel by channel ----------------------------------------------------------------------

  function Sent(c: Channel, msg: Message): Channel {
    c.(queue := c.queue + [msg])
  }

  function Closed(c: Channel): Channel {
    c.(closes := c.closes + 1)
  }

  predicate HasRoom(c: Channel) {
    |c.queue| < CAPACITY
  }

  function Served(c: Channel, msg: Message): Channel {
    if HasRoom(c) then Sent(c, msg) else Closed(c)
  }

  /** Every registered client is served on its own: a full queue costs that client its connection. */
  function Broadcast(s: State, msg: Message): State {
    State(set c | c in s.clients && c in s.channels && HasRoom(s.channels[c]),
          map c | c in s.channels ::
            if c in s.clients then Served(s.channels[c], msg) else s.channels[c])
  }

  function Register(s: State, c: ClientId): State {
    State(s.clients + {c}, s.channels[c := OPEN])
  }

  function Unregister(s: State, c: ClientId): State {
    if c in s.clients && c in s.channels then
      State(s.clients - {c}, s.channels[c := Closed(s.channels[c])])
    else s
  }

  function Drain(s: State, c: ClientId): State {
    if c in s.channels && s.channels[c].queue != [] then
      var ch := s.channels[c];
      s.(channels := s.channels[c := ch.(queue := ch.queue[1..], delivered := ch.delivered + [ch.queue[0]])])
    else s
  }

  /** The history message; a full queue drops it silently, and a closed channel takes nothing any more. */
  function Greet(s: State, c: ClientId): State {
    if c in s.clients && c in s.channels && HasRoom(s.channels[c]) then
      s.(channels := s.channels[c := Sent(s.channels[c], History)])
    else s
  }

  /** Registered clients are exactly the ones whose channel is open, and no queue is over its capacity. */
  ghost predicate Inv(s: State) {
    && s.clients <= s.channels.Keys
    && (forall c :: c in s.channels ==>
          s.channels[c].closes == (if c in s.clients then 0 else 1) && |s.channels[c].queue| <= CAPACITY)
  }

  lemma BroadcastIsServing(s: State, s': State, msg: Message)
    requires Inv(s) && s'.channels.Keys == s.channels.Keys
    requires forall c :: c in s'.clients <==> c in s.clients && HasRoom(s.channels[c])
    requires forall c :: c in s'.channels ==>
      s'.channels[c] == if c in s.clients then Served(s.channels[c], msg) else s.channels[c]
    ensures s' == Broadcast(s, msg) && Inv(s')
  {
  }

  // ---- The hub ---------------------------------------------------------------------------------------------

  class Hub {
    var clients: set<ClientId>
    var channels: map<ClientId, Channel>

    ghost function View(): State
      reads this
    {
      State(clients, channels)
    }

    ghost predicate Valid()
      reads this
    {
      Inv(View())
    }

    constructor ()
      ensures Valid() && View() == Empty()
    {
      clients, channels := {}, map[];
    }

    /** Sending on, or closing, a closed channel panics: both are ruled out here. */
    method Send(c: ClientId, msg: Message)
      requires c in channels && channels[c].closes == 0 && HasRoom(channels[c])
      modifies this`channels
      ensures channels == old(channels)[c := Sent(old(channels)[c], msg)]
    {
      channels := channels[c := Sent(channels[c], msg)];
    }

    method Close(c: ClientId)
      requires c in channels && channels[c].closes == 0
      modifies this`channels
      ensures channels == old(channels)[c := Closed(old(channels)[c])]
    {
      channels := channels[c := Closed(channels[c])];
    }

    method HandleRegister(c: ClientId)
      requires Valid() && c !in channels
      modifies this
      ensures Valid() && View() == Register(old(View()), c)
    {
      channels := channels[c := OPEN];
      clients := clients + {c};
    }

    method HandleUnregister(c: ClientId)
      requires Valid()
      modifies this
      ensures Valid() && View() == Unregister(old(View()), c)
    {
      if c in clients {
        clients := clients - {c};
        Close(c);
      }
    }

    /** The clients are visited in an arbitrary order; the outcome does not depend on it. */
    method HandleBroadcast(msg: Message)
      requires Valid()
      modifies this
      ensures Valid() && View() == Broadcast(old(View()), msg)
    {
      ghost var before := View();
      var todo := clients;
      while todo != {}
        invariant todo <= clients && channels.Keys == before.channels.Keys
        invariant forall c :: c in clients <==> c in before.clients && (c in todo || HasRoom(before.channels[c]))
        invariant forall c :: c in channels ==>
          channels[c] == if c in before.clients && c !in todo then Served(before.channels[c], msg)
            else before.channels[c]
        decreases todo
      {
        var c :| c in todo;
        todo := todo - {c};
        if |channels[c].queue| < CAPACITY {
          Send(c, msg);
        } else {
          Close(c);
          clients := clients - {c};
        }
      }
      BroadcastIsServing(before, View(), msg);
    }

    /** One turn of the writer that finds a message. */
    method WritePump(c: ClientId) returns (msg: Message)
      requires Valid() && c in channels && channels[c].queue != []
      modifies this`channels
      ensures Valid() && View() == Drain(old(View()), c) && msg == old(channels)[c].queue[0]
    {
      var ch := channels[c];
      msg := ch.queue[0];
      channels := channels[c := ch.(queue := ch.queue[1..], delivered := ch.delivered + [msg])];
    }

    /** The goroutine started by a registration; it may come to send after the hub has closed the channel. */
    method SendHistory(c: ClientId) returns (panics: bool)
      requires Valid() && c in channels
      modifies this`channels
      ensures Valid() && View() == Greet(old(View()), c)
      ensures panics <==> c !in clients
    {
      if channels[c].closes > 0 {
        return true;
      }
      if |channels[c].queue| < CAPACITY {
        Send(c, History);
      }
      return false;
    }
  }

  // ---- Runs --------------------------------------------------------------------------------------------------

  datatype Op =
    | DoRegister(c: ClientId)
    | DoUnregister(c: ClientId)
    | DoBroadcast(n: int)
    | DoDrain(c: ClientId)
    | DoGreet(c: ClientId)

  function Step(s: State, op: Op): State {
    match op
    case DoRegister(c) => Register(s, c)
    case DoUnregister(c) => Unregister(s, c)
    case DoBroadcast(n) => Broadcast(s, Metrics(n))
    case DoDrain(c) => Drain(s, c)
    case DoGreet(c) => Greet(s, c)
  }

  function Run(s: State, ops: seq<Op>): State {
    if ops == [] then s else Step(Run(s, ops[..|ops| - 1]), ops[|ops| - 1])
  }

  /** Every connection is a new client. */
  ghost predicate FreshClients(ops: seq<Op>) {
    forall i, j :: 0 <= i < j < |ops| && ops[i].DoRegister? && ops[j].DoRegister? ==> ops[i].c != ops[j].c
  }

  /** The broadcast log of a run. */
  function Log(ops: seq<Op>): seq<int> {
    if ops == [] then []
    else Log(ops[..|ops| - 1]) + (if ops[|ops| - 1].DoBroadcast? then [ops[|ops| - 1].n] else [])
  }

  /** The broadcasts among a channel's messages. */
  function Broadcasts(msgs: seq<Message>): seq<int> {
    if msgs == [] then []
    else Broadcasts(msgs[..|msgs| - 1]) + (if msgs[|msgs| - 1].Metrics? then [msgs[|msgs| - 1].n] else [])
  }

  lemma BroadcastsSnoc(msgs: seq<Message>, m: Message)
    ensures Broadcasts(msgs + [m]) == Broadcasts(msgs) + (if m.Metrics? then [m.n] else [])
  {
    assert (msgs + [m])[..|msgs|] == msgs;
  }

  /** Everything the client's connection has been given so far: written out, then still queued. */
  function Stream(ch: Channel): seq<Message> {
    ch.delivered + ch.queue
  }

  function Registrations(ops: seq<Op>): set<ClientId> {
    set op | op in ops && op.DoRegister? :: op.c
  }

  lemma RegistrationsSnoc(ops: seq<Op>, op: Op)
    ensures Registrations(ops + [op]) == Registrations(ops) + (if op.DoRegister? then {op.c} else {})
  {
  }

  lemma {:induction false} ChannelsAfter(s: State, ops: seq<Op>)
    ensures Run(s, ops).channels.Keys == s.channels.Keys + Registrations(ops)
  {
    if ops != [] {
      var init, op := ops[..|ops| - 1], ops[|ops| - 1];
      ChannelsAfter(s, init);
      RegistrationsSnoc(init, op);
      assert ops == init + [op];
      assert Step(Run(s, init), op).channels.Keys == Run(s, init).channels.Keys
        + (if op.DoRegister? then {op.c} else {});
    }
  }

  lemma LastIsNew(init: seq<Op>, op: Op)
    requires FreshClients(init + [op]) && op.DoRegister?
    ensures op.c !in Registrations(init)
  {
    var ops := init + [op];
    forall earlier | earlier in init && earlier.DoRegister? ensures earlier.c != op.c {
      var i :| 0 <= i < |init| && init[i] == earlier;
      assert ops[i] == earlier && ops[|init|] == op;
    }
  }

  lemma StepKeepsInv(s: State, op: Op)
    requires Inv(s) && (op.DoRegister? ==> op.c !in s.channels)
    ensures Inv(Step(s, op))
  {
  }

  /** Only registration creates a channel, and every step keeps the invariant. */
  lemma {:induction false} InvHolds(ops: seq<Op>)
    requires FreshClients(ops)
    ensures Inv(Run(Empty(), ops))
    ensures Run(Empty(), ops).channels.Keys == Registrations(ops)
  {
    ChannelsAfter(Empty(), ops);
    if ops != [] {
      var init, op := ops[..|ops| - 1], ops[|ops| - 1];
      InvHolds(init);
      assert ops == init + [op];
      if op.DoRegister? {
        LastIsNew(init, op);
      }
      StepKeepsInv(Run(Empty(), init), op);
    }
  }

  lemma DrainKeepsStream(s: State, d: ClientId, c: ClientId)
    requires c in s.channels
    ensures c in Drain(s, d).channels && Stream(Drain(s, d).channels[c]) == Stream(s.channels[c])
  {
    var ch := s.channels[c];
    if d == c && ch.queue != [] {
      assert ch.delivered + ch.queue == (ch.delivered + [ch.queue[0]]) + ch.queue[1..];
    }
  }

  lemma SentStream(ch: Channel, m: Message)
    ensures Broadcasts(Stream(Sent(ch, m))) == Broadcasts(Stream(ch)) + (if m.Metrics? then [m.n] else [])
  {
    assert Stream(Sent(ch, m)) == Stream(ch) + [m];
    BroadcastsSnoc(Stream(ch), m);
  }

  /** The client's share of the log: an initial slice of what was broadcast since it registered. */
  ghost predicate GapFree(s: State, c: ClientId, since: seq<int>) {
    && c in s.channels
    && Broadcasts(Stream(s.channels[c])) <= since
    && (c in s.clients ==> Broadcasts(Stream(s.channels[c])) == since)
  }

  lemma StepGapFree(s: State, op: Op, c: ClientId, since: seq<int>)
    requires Inv(s) && GapFree(s, c, since) && op != DoRegister(c)
    ensures GapFree(Step(s, op), c, since + (if op.DoBroadcast? then [op.n] else []))
  {
    var ch := s.channels[c];
    match op
    case DoBroadcast(n) => SentStream(ch, Metrics(n));
    case DoGreet(d) => SentStream(ch, History);
    case DoDrain(d) => DrainKeepsStream(s, d, c);
    case _ =>
  }

  lemma JustRegistered(before: seq<Op>, c: ClientId)
    ensures GapFree(Run(Empty(), before + [DoRegister(c)]), c, [])
  {
    assert (before + [DoRegister(c)])[..|before|] == before;
  }

  lemma WithoutLast(front: seq<Op>, after: seq<Op>)
    requires after != []
    ensures (front + after)[..|front + after| - 1] == front + after[..|after| - 1]
    ensures (front + after)[|front + after| - 1] == after[|after| - 1]
  {
  }

  lemma RegisteredOnce(front: seq<Op>, after: seq<Op>)
    requires after != [] && front != [] && FreshClients(front + after)
    ensures FreshClients((front + after)[..|front + after| - 1])
    ensures front[|front| - 1].DoRegister? ==> after[|after| - 1] != front[|front| - 1]
  {
    var ops := front + after;
    assert ops[|front| - 1] == front[|front| - 1] && ops[|ops| - 1] == after[|after| - 1];
  }

  /** The last step of what follows a registration. */
  lemma LastOfStory(front: seq<Op>, after: seq<Op>)
    requires after != [] && front != [] && FreshClients(front + after)
    ensures FreshClients(front + after[..|after| - 1])
    ensures front[|front| - 1].DoRegister? ==> after[|after| - 1] != front[|front| - 1]
    ensures Run(Empty(), front + after) == Step(Run(Empty(), front + after[..|after| - 1]), after[|after| - 1])
  {
    hide Step, FreshClients;
    WithoutLast(front, after);
    RegisteredOnce(front, after);
  }

  lemma GapFreeIsKnown(s: State, c: ClientId, since: seq<int>)
    requires GapFree(s, c, since)
    ensures c in s.channels
  {
  }

  lemma OpenIffRegistered(s: State, c: ClientId)
    requires Inv(s) && c in s.channels
    ensures s.channels[c].closes == (if c in s.clients then 0 else 1) && |s.channels[c].queue| <= CAPACITY
  {
  }

  /**
   Main result: whatever happens around and after a registration, the client has been given a prefix of the
   broadcasts made since then, all of them while it stays registered; nothing is missing in between, repeated
   or reordered. Its channel is closed once it has left the hub, by unregistration or overflow, and never twice.
   */
  lemma {:induction false} StreamIsGapFree(before: seq<Op>, c: ClientId, after: seq<Op>)
    requires FreshClients(before + [DoRegister(c)] + after)
    ensures GapFree(Run(Empty(), before + [DoRegister(c)] + after), c, Log(after))
    ensures var s := Run(Empty(), before + [DoRegister(c)] + after);
            s.channels[c].closes == (if c in s.clients then 0 else 1) && |s.channels[c].queue| <= CAPACITY
    decreases |after|
  {
    hide Step, Inv, Run, FreshClients, GapFree;
    var front := before + [DoRegister(c)];
    if after == [] {
      assert front + after == front;
      JustRegistered(before, c);
    } else {
      LastOfStory(front, after);
      StreamIsGapFree(before, c, after[..|after| - 1]);
      InvHolds(front + after[..|after| - 1]);
      StepGapFree(Run(Empty(), front + after[..|after| - 1]), after[|after| - 1], c, Log(after[..|after| - 1]));
    }
    InvHolds(front + after);
    GapFreeIsKnown(Run(Empty(), front + after), c, Log(after));
    OpenIffRegistered(Run(Empty(), front + after), c);
  }

  /** Once out, a client is never served again: its stream is final, whatever the hub does next. */
  lemma StepAfterClose(s: State, op: Op, c: ClientId)
    requires Inv(s) && c in s.channels && c !in s.clients && op != DoRegister(c)
    ensures var s' := Step(s, op);
            c in s'.channels && c !in s'.clients && Stream(s'.channels[c]) == Stream(s.channels[c])
  {
    match op
    case DoDrain(d) => DrainKeepsStream(s, d, c);
    case _ =>
  }

  lemma {:induction false} ClosedStreamIsFinal(s: State, ops: seq<Op>, c: ClientId)
    requires Inv(s) && c in s.channels && c !in s.clients
    requires FreshClients(ops) && Registrations(ops) !! s.channels.Keys
    ensures Inv(Run(s, ops)) && c in Run(s, ops).channels
    ensures c !in Run(s, ops).clients && Stream(Run(s, ops).channels[c]) == Stream(s.channels[c])
  {
    if ops != [] {
      var init, op := ops[..|ops| - 1], ops[|ops| - 1];
      assert ops == init + [op];
      RegistrationsSnoc(init, op);
      ClosedStreamIsFinal(s, init, c);
      ChannelsAfter(s, init);
      if op.DoRegister? {
        LastIsNew(init, op);
      }
      StepKeepsInv(Run(s, init), op);
      StepAfterClose(Run(s, init), op, c);
    }
  }

  // ---- The history message and a closed channel --------------------------------------------------------------------

  /** Sending the history now would be a send on a closed channel. */
  predicate HistoryPanics(s: State, c: ClientId) {
    c in s.channels && s.channels[c].closes > 0
  }

  /** What takes a client out of the hub: leaving, or a broadcast that finds its queue full. */
  predicate Ousts(s: State, op: Op, c: ClientId) {
    || op == DoUnregister(c)
    || (op.DoBroadcast? && c in s.channels && !HasRoom(s.channels[c]))
  }

  /** Step `k` of what follows the registration ousts the client. */
  ghost predicate OustedAt(before: seq<Op>, c: ClientId, after: seq<Op>, k: nat) {
    k < |after| && Ousts(Run(Empty(), before + [DoRegister(c)] + after[..k]), after[k], c)
  }

  /** The history message of a client panics iff the client was ousted between its registration and the send. */
  lemma {:induction false} HistoryPanicsIff(before: seq<Op>, c: ClientId, after: seq<Op>)
    requires FreshClients(before + [DoRegister(c)] + after)
    ensures HistoryPanics(Run(Empty(), before + [DoRegister(c)] + after), c)
            <==> exists k: nat :: OustedAt(before, c, after, k)
    decreases |after|
  {
    var ops := before + [DoRegister(c)] + after;
    StreamIsGapFree(before, c, after);
    if after == [] {
      assert ops[..|ops| - 1] == before && ops[|ops| - 1] == DoRegister(c);
    } else {
      var init, op := after[..|after| - 1], after[|after| - 1];
      var ops' := before + [DoRegister(c)] + init;
      assert ops[..|ops| - 1] == ops' && ops[|ops| - 1] == op && ops[|before|] == DoRegister(c);
      HistoryPanicsIff(before, c, init);
      StreamIsGapFree(before, c, init);
      OneMoreMayOust(before, c, init, op);
      assert after == init + [op];
    }
  }

  lemma OneMoreMayOust(before: seq<Op>, c: ClientId, init: seq<Op>, op: Op)
    ensures (exists k: nat :: OustedAt(before, c, init + [op], k))
            <==> (exists k: nat :: OustedAt(before, c, init, k))
                 || Ousts(Run(Empty(), before + [DoRegister(c)] + init), op, c)
  {
    var after := init + [op];
    assert after[..|init|] == init;
    forall k: nat | k < |init| ensures OustedAt(before, c, after, k) <==> OustedAt(before, c, init, k) {
      assert after[..k] == init[..k];
    }
    if exists k: nat :: OustedAt(before, c, init, k) {
      var k: nat :| OustedAt(before, c, init, k);
      assert OustedAt(before, c, after, k);
    }
    if Ousts(Run(Empty(), before + [DoRegister(c)] + init), op, c) {
      assert OustedAt(before, c, after, |init|);
    }
  }

  /** A client that leaves before its history is sent. */
  lemma HistoryPanicsInstance()
    ensures HistoryPanics(Run(Empty(), [DoRegister(0), DoUnregister(0)]), 0)
  {
    var ops := [DoRegister(0), DoUnregister(0)];
    assert ops[..1] == [DoRegister(0)] && ops[..1][..0] == [];
  }

  // ---- What a client can rely on -----------------------------------------------------------------------------------

  /** A broadcast reaches a registered client, at the end of its queue, unless 256 messages are waiting there. */
  lemma BroadcastReaches(s: State, msg: Message, c: ClientId)
    requires Inv(s) && c in s.clients
    ensures var s' := Broadcast(s, msg);
            if |s.channels[c].queue| < 256
            then c in s'.clients && s'.channels[c] == s.channels[c].(queue := s.channels[c].queue + [msg])
            else c !in s'.clients && s'.channels[c] == s.channels[c].(closes := 1)
  {
  }

  /** The history is queued for a registered client with room, and nothing else changes for anybody. */
  lemma HistoryIsQueued(s: State, c: ClientId)
    requires Inv(s) && c in s.clients
    ensures var s' := Greet(s, c);
            && s'.clients == s.clients && s'.channels.Keys == s.channels.Keys
            && (forall d :: d in s.channels && d != c ==> s'.channels[d] == s.channels[d])
            && s'.channels[c].queue == s.channels[c].queue + (if |s.channels[c].queue| < 256 then [History] else [])
  {
  }

  lemma DrainsOne(s: State, c: ClientId)
    requires c in s.channels && s.channels[c].queue != []
    ensures var ch, ch' := s.channels[c], Drain(s, c).channels[c];
            ch'.delivered == ch.delivered + [ch.queue[0]] && ch'.queue == ch.queue[1..]
  {
  }

  /** Main result: a writer that goes on writes out everything that was queued, in that order, and empties the queue. */
  lemma {:induction false} DrainingDelivers(s: State, c: ClientId, n: nat)
    requires c in s.channels && n <= |s.channels[c].queue|
    ensures c in Run(s, seq(n, _ => DoDrain(c))).channels
    ensures var ch, ch' := s.channels[c], Run(s, seq(n, _ => DoDrain(c))).channels[c];
            ch'.delivered == ch.delivered + ch.queue[..n] && ch'.queue == ch.queue[n..]
  {
    var ops := seq(n, _ => DoDrain(c));
    if n > 0 {
      DrainingDelivers(s, c, n - 1);
      assert ops[..n - 1] == seq(n - 1, _ => DoDrain(c)) && ops[n - 1] == DoDrain(c);
      DrainsOne(Run(s, ops[..n - 1]), c);
    }
  }
}
