/**
 Server, update topic and one client as a single state machine.

 Assumptions on the transport: the update topic delivers in order and loses nothing while a
 subscription lasts, and callbacks are atomic. A reply may arrive at any time; whether it is older
 than the client's last reset matters for what is shown.
 */
module Replication {
  import opened Wrappers
  import opened Markers
  import S = MarkerServer
  import C = MarkerClient

  /** A request and the number of updates published when it was sent. */
  datatype Request = Request(period: nat, sentAt: nat)

  datatype Reply = Reply(period: nat, s: Snapshot)

  /** log holds everything published; received counts the part the client's subscription has
      passed on; floor is received at the client's last reset. */
  datatype System = System(server: S.State, log: seq<Update>, client: C.State, received: nat, floor: nat,
                           requests: set<Request>, replies: set<Reply>)

  datatype Action =
    | AtServer(op: S.Op)
    | Answer(request: Request, s: Snapshot)
    | TakeReply(reply: Reply)
    | TakeUpdate
    | AtClient(call: C.Op)
    | Subscribe(created: bool, position: nat)

  ghost const START := System(S.START, [], C.START, 0, 0, {}, {})

  ghost function Resets(t: seq<C.Event>): nat
  {
    if t == [] then 0 else Resets(t[..|t| - 1]) + if t[|t| - 1].WasReset? then 1 else 0
  }

  /** The number of the last update discarded since the last reset; 0 if there was none. */
  ghost function LastDiscarded(t: seq<C.Event>): nat
  {
    if t == [] then 0
    else
      var n := |t| - 1;
      match t[n]
      case WasReset => 0
      case Discarded(u) => u.number
      case _ => LastDiscarded(t[..n])
  }

  /** Since the last reset an update was discarded that the snapshot does not contain, or any update
      after the first delivery. */
  ghost predicate Harmed(t: seq<C.Event>)
  {
    if t == [] then false
    else
      var n := |t| - 1;
      match t[n]
      case WasReset => false
      case Initialized(s) => Harmed(t[..n]) || LastDiscarded(t[..n]) > s.number
      case Discarded(u) =>
        || Harmed(t[..n]) || FirstDelivered(t[..n]).Some?
        || (Base(t[..n]).Some? && u.number > Base(t[..n]).value.number)
      case _ => Harmed(t[..n])
  }

  /** The snapshot the current period started from. */
  ghost function Base(t: seq<C.Event>): Option<Snapshot>
  {
    if t == [] then None
    else
      var n := |t| - 1;
      match t[n]
      case WasReset => None
      case Initialized(s) => Some(s)
      case _ => Base(t[..n])
  }

  /** The number of the first update handed out since the last reset. */
  ghost function FirstDelivered(t: seq<C.Event>): Option<nat>
  {
    if t == [] then None
    else
      var n := |t| - 1;
      match t[n]
      case WasReset => None
      case Delivered(u) => if FirstDelivered(t[..n]).Some? then FirstDelivered(t[..n]) else Some(u.number)
      case _ => FirstDelivered(t[..n])
  }

  /** The markers the client's owner shows: the last snapshot with every later delivery applied. */
  ghost function Shown(t: seq<C.Event>): Replica
  {
    if t == [] then map[]
    else
      var n := |t| - 1;
      match t[n]
      case WasReset => map[]
      case Initialized(s) => FromSnapshot(s)
      case Delivered(u) => Apply(Shown(t[..n]), u)
      case _ => Shown(t[..n])
  }

  // ---------- the steps ----------

  ghost function AfterClient(y: System, c: C.State, received: nat): System
  {
    y.(client := c, received := received,
       floor := if Resets(c.trace) > Resets(y.client.trace) then received else y.floor)
  }

  ghost predicate Step(y: System, a: Action, y': System)
  {
    match a
    case AtServer(op) =>
      && S.Allowed(y.server, op)
      && y' == y.(server := S.Next(y.server, op),
                  log := if op.DoApply? && y.server.pending != map[] then y.log + [op.u] else y.log)
    case Answer(request, s) =>
      request in y.requests && S.Replies(y.server, s)
      && y' == y.(replies := y.replies + {Reply(request.period, s)})
    case TakeReply(reply) =>
      && reply in y.replies
      && y' == y.(client := C.Next(y.client, C.DoSnapshot(reply.s)))
    case TakeUpdate =>
      && y.client.connected && y.received < |y.log|
      && y' == AfterClient(y, C.Next(y.client, C.DoMessage(C.Numbered(y.log[y.received]))), y.received + 1)
    case AtClient(call) =>
      && (call.DoUpdate? || call.DoSetTargetFrame? || call.DoDisconnect? || call == C.DoMessage(C.KeepAlive)
          || (call.DoConnect? && !call.named))
      && var c' := C.Next(y.client, call);
         var y1 := AfterClient(y, c', y.received);
         var sent := |c'.trace| > |y.client.trace| && c'.trace[|c'.trace| - 1].Requested?;
         y' == if sent then y1.(requests := y.requests + {Request(Resets(c'.trace), |y.log|)}) else y1
    case Subscribe(created, position) =>
      && position <= |y.log|
      && y' == AfterClient(y, C.Next(y.client, C.DoConnect(true, created)), position)
  }

  ghost predicate IsRun(run: seq<System>, actions: seq<Action>)
  {
    && |run| == |actions| + 1
    && run[0] == START
    && forall i :: 0 <= i < |actions| ==> Step(run[i], actions[i], run[i + 1])
  }

  // ---------- the invariant ----------

  ghost predicate ServerSide(server: S.State, log: seq<Update>)
  {
    && S.Valid(server)
    && server.number == |log|
    && (forall i :: 0 <= i < |log| ==> log[i].number == i + 1)
    && ApplyAll(map[], log) == S.View(server.contexts)
  }

  /** s shows the markers after some number of updates of the log, not before the last reset. */
  ghost predicate Truthful(log: seq<Update>, floor: nat, s: Snapshot)
  {
    floor <= s.number <= |log| && FromSnapshot(s) == ApplyAll(map[], log[..s.number])
  }

  /** Requests and replies in flight; period counts the client's resets. */
  ghost predicate Channels(log: seq<Update>, requests: set<Request>, replies: set<Reply>, period: nat, floor: nat)
  {
    && (forall q :: q in requests ==>
          q.sentAt <= |log| && q.period <= period && (q.period == period ==> floor <= q.sentAt))
    && (forall r :: r in replies ==>
          r.period <= period && Truthful(log, if r.period == period then floor else 0, r.s))
  }

  /** How far into the log the client has handed out updates, or pruned them. */
  ghost function Handed(c: C.State, received: nat): int
  {
    received - |c.queue|
  }

  ghost predicate QueueIsTail(log: seq<Update>, c: C.State, received: nat, floor: nat)
  {
    && floor <= received <= |log|
    && (if c.first then received == floor else c.last == received > floor)
    && floor <= Handed(c, received)
    && c.queue == log[Handed(c, received)..received]
    && (!C.Started(c.trace) ==>
          Handed(c, received) == if LastDiscarded(c.trace) == 0 then floor else LastDiscarded(c.trace))
    && (c.snapshot.Some? ==> Truthful(log, 0, c.snapshot.value))
  }

  /** Since the initialize callback the updates lo .. handed have been applied to the snapshot. */
  ghost predicate Fits(log: seq<Update>, t: seq<C.Event>, handed: int, lo: nat)
  {
    && Base(t).Some?
    && Truthful(log, lo, Base(t).value)
    && lo <= handed <= |log|
    && Shown(t) == ApplyAll(FromSnapshot(Base(t).value), log[lo..handed])
    && (if FirstDelivered(t).None? then lo == handed else FirstDelivered(t).value == lo + 1 <= handed)
  }

  ghost predicate Replayed(log: seq<Update>, t: seq<C.Event>, handed: int, floor: nat)
  {
    C.Started(t) && Base(t).Some? && !Harmed(t) && floor <= Base(t).value.number ==>
      exists lo: nat :: Fits(log, t, handed, lo)
  }

  ghost predicate Inv(y: System)
  {
    && ServerSide(y.server, y.log)
    && C.Valid(y.client)
    && Channels(y.log, y.requests, y.replies, Resets(y.client.trace), y.floor)
    && QueueIsTail(y.log, y.client, y.received, y.floor)
    && Replayed(y.log, y.client.trace, Handed(y.client, y.received), y.floor)
  }

  // ---------- every step keeps it ----------

  lemma Appended(t: seq<C.Event>, e: C.Event)
    ensures Resets(t + [e]) == Resets(t) + if e.WasReset? then 1 else 0
    ensures LastDiscarded(t + [e]) == if e.WasReset? then 0 else if e.Discarded? then e.u.number else LastDiscarded(t)
    ensures Harmed(t + [e]) ==
            if e.WasReset? then false
            else if e.Initialized? then Harmed(t) || LastDiscarded(t) > e.s.number
            else if e.Discarded? then
              Harmed(t) || FirstDelivered(t).Some? || (Base(t).Some? && e.u.number > Base(t).value.number)
            else Harmed(t)
    ensures C.Started(t + [e]) == (e.Initialized? || (!e.WasReset? && C.Started(t)))
    ensures Base(t + [e]) ==
            if e.WasReset? then None else if e.Initialized? then Some(e.s) else Base(t)
    ensures Shown(t + [e]) ==
            if e.WasReset? then map[] else if e.Initialized? then FromSnapshot(e.s)
            else if e.Delivered? then Apply(Shown(t), e.u) else Shown(t)
    ensures C.LastDelivered(t + [e]) ==
            if e.WasReset? then None else if e.Delivered? then Some(e.u.number) else C.LastDelivered(t)
    ensures FirstDelivered(t + [e]) ==
            if e.WasReset? then None
            else if e.Delivered? && FirstDelivered(t).None? then Some(e.u.number)
            else FirstDelivered(t)
  {
    assert (t + [e])[..|t + [e]| - 1] == t;
  }

  lemma {:induction false} FirstIfLast(t: seq<C.Event>)
    ensures FirstDelivered(t).Some? <==> C.LastDelivered(t).Some?
  {
    if t != [] {
      FirstIfLast(t[..|t| - 1]);
    }
  }

  lemma TruthfulGrows(log: seq<Update>, log': seq<Update>, floor: nat, s: Snapshot)
    requires log <= log' && Truthful(log, floor, s)
    ensures Truthful(log', floor, s)
  {
    assert log'[..s.number] == log[..s.number];
  }

  lemma ChannelsGrow(log: seq<Update>, log': seq<Update>, requests: set<Request>, replies: set<Reply>, period: nat,
                     floor: nat)
    requires log <= log' && Channels(log, requests, replies, period, floor)
    ensures Channels(log', requests, replies, period, floor)
  {
    hide Resets, Harmed, LastDiscarded, Base, Shown, FirstDelivered, C.Started, C.LastDelivered, C.Skipped, C.Orderly;
    forall r | r in replies ensures Truthful(log', if r.period == period then floor else 0, r.s) {
      TruthfulGrows(log, log', if r.period == period then floor else 0, r.s);
    }
  }

  lemma TailGrows(log: seq<Update>, log': seq<Update>, c: C.State, received: nat, floor: nat)
    requires log <= log' && QueueIsTail(log, c, received, floor)
    ensures QueueIsTail(log', c, received, floor)
  {
    hide Resets, Harmed, LastDiscarded, Base, Shown, FirstDelivered, C.Started, C.LastDelivered, C.Skipped, C.Orderly;
    var n := Handed(c, received);
    assert log'[n..received] == log[n..received];
    if c.snapshot.Some? {
      TruthfulGrows(log, log', 0, c.snapshot.value);
    }
  }

  lemma ReplayedGrows(log: seq<Update>, log': seq<Update>, t: seq<C.Event>, handed: int, floor: nat)
    requires log <= log' && Replayed(log, t, handed, floor)
    ensures Replayed(log', t, handed, floor)
  {
    hide Resets, Harmed, LastDiscarded, Base, Shown, FirstDelivered, C.Started, C.LastDelivered, C.Skipped, C.Orderly;
    if C.Started(t) && Base(t).Some? && !Harmed(t) && floor <= Base(t).value.number {
      var lo: nat :| Fits(log, t, handed, lo);
      TruthfulGrows(log, log', lo, Base(t).value);
      assert log'[lo..handed] == log[lo..handed];
      assert Fits(log', t, handed, lo);
    }
  }

  lemma ServerStep(y: System, op: S.Op, y': System)
    requires Inv(y) && Step(y, AtServer(op), y')
    ensures Inv(y')
  {
    hide ServerSide, Channels, QueueIsTail, Replayed, C.Valid, Resets;
    ServerSideStep(y.server, y.log, op, y'.log);
    ChannelsGrow(y.log, y'.log, y.requests, y.replies, Resets(y.client.trace), y.floor);
    TailGrows(y.log, y'.log, y.client, y.received, y.floor);
    ReplayedGrows(y.log, y'.log, y.client.trace, Handed(y.client, y.received), y.floor);
  }

  lemma ServerSideStep(server: S.State, log: seq<Update>, op: S.Op, log': seq<Update>)
    requires ServerSide(server, log) && S.Allowed(server, op)
    requires log' == if op.DoApply? && server.pending != map[] then log + [op.u] else log
    ensures ServerSide(S.Next(server, op), log') && log <= log'
  {
    hide Resets, Harmed, LastDiscarded, Base, Shown, FirstDelivered, C.Started, C.LastDelivered, C.Skipped, C.Orderly;
    S.NextKeepsValid(server, op);
    if op.DoApply? && server.pending != map[] {
      S.PublishedUpdateReproducesServer(server, op.u);
      assert log'[..|log'| - 1] == log;
    } else {
      assert S.View(S.Next(server, op).contexts) == S.View(server.contexts);
    }
  }

  lemma AnswerStep(y: System, request: Request, s: Snapshot, y': System)
    requires Inv(y) && Step(y, Answer(request, s), y')
    ensures Inv(y')
  {
    hide Resets, Harmed, LastDiscarded, Base, Shown, FirstDelivered, C.Started, C.LastDelivered, C.Skipped, C.Orderly;
    S.ReplyShowsServer(y.server, s);
    assert y.log[..|y.log|] == y.log;
  }

  lemma TakeReplyStep(y: System, reply: Reply, y': System)
    requires Inv(y) && Step(y, TakeReply(reply), y')
    ensures Inv(y')
  {
    hide ServerSide, Replayed, Resets, Harmed, LastDiscarded, C.Started, C.LastDelivered, C.Skipped, C.Orderly;
    hide FromSnapshot, ApplyAll;
  }

  /** After a reset nothing of the previous period is left. */
  lemma AfterReset(y: System, c: C.State, received: nat, y': System)
    requires ServerSide(y.server, y.log) && received <= |y.log|
    requires Channels(y.log, y.requests, y.replies, Resets(y.client.trace), y.floor)
    requires y' == AfterClient(y, c, received)
    requires C.Valid(c) && Resets(c.trace) > Resets(y.client.trace)
    requires c.first && c.snapshot.None? && c.queue == [] && !C.Started(c.trace) && LastDiscarded(c.trace) == 0
    ensures Inv(y')
  {
    hide Resets, Harmed, LastDiscarded, Base, Shown, FirstDelivered, C.Started, C.LastDelivered, C.Skipped, C.Orderly;
    assert y.log[received..received] == [];
  }

  lemma ResetFacts(c: C.State)
    ensures var r := C.Reset(c);
            && Resets(r.trace) == Resets(c.trace) + 1 && !C.Started(r.trace)
            && Base(r.trace).None? && r.trace[|r.trace| - 1].WasReset?
            && LastDiscarded(r.trace) == 0 && r.first && r.snapshot.None? && r.queue == []
  {
    hide Resets, Harmed, LastDiscarded, Base, Shown, FirstDelivered, C.Started, C.LastDelivered, C.Skipped, C.Orderly;
    Appended(c.trace, C.WasReset);
  }

  lemma UpdateStep(y: System, y': System)
    requires Inv(y) && Step(y, TakeUpdate, y')
    ensures Inv(y')
  {
    hide Channels, QueueIsTail, Replayed, C.Valid, Resets, C.Enqueue, ApplyAll, S.Valid, S.View;
    var c, u := y.client, y.log[y.received];
    NextIsAccepted(y.log, c, y.received, y.floor);
    C.EnqueueKeepsValid(c, u);
    TailTakes(y.log, c, y.received, y.floor);
    ReplayedTakes(y.log, c, u, y.received, y.floor);
    assert y' == y.(client := C.Enqueue(c, u), received := y.received + 1);
  }

  /** On a lossless topic no update is ever out of order. */
  lemma NextIsAccepted(log: seq<Update>, c: C.State, received: nat, floor: nat)
    requires QueueIsTail(log, c, received, floor) && received < |log| && log[received].number == received + 1
    ensures C.Next(c, C.DoMessage(C.Numbered(log[received]))) == C.Enqueue(c, log[received])
    ensures c.first || log[received].number == c.last + 1
  {
    hide Resets, Harmed, LastDiscarded, Base, Shown, FirstDelivered, C.Started, C.LastDelivered, C.Skipped, C.Orderly;
  }

  lemma ReplayedTakes(log: seq<Update>, c: C.State, u: Update, received: nat, floor: nat)
    requires QueueIsTail(log, c, received, floor) && received < |log|
    requires forall i :: 0 <= i < |log| ==> log[i].number == i + 1
    requires Replayed(log, c.trace, Handed(c, received), floor)
    ensures var c' := C.Enqueue(c, u);
            && Replayed(log, c'.trace, Handed(c', received + 1), floor)
            && Resets(c'.trace) == Resets(c.trace)
  {
    hide Resets, Harmed, LastDiscarded, Base, Shown, FirstDelivered, C.Started, C.LastDelivered, C.Skipped, C.Orderly;
    if |c.queue| > C.MAX_UPDATE_QUEUE_SIZE {
      var n := Handed(c, received);
      Appended(c.trace, C.Discarded(c.queue[0]));
      assert c.queue[0] == log[n];
      ReplayDiscards(log, c.trace, n, floor);
    }
  }

  /** A discard before the first delivery, of an update the snapshot contains, does no harm. */
  lemma ReplayDiscards(log: seq<Update>, t: seq<C.Event>, handed: nat, floor: nat)
    requires Replayed(log, t, handed, floor) && handed < |log| && log[handed].number == handed + 1
    ensures Replayed(log, t + [C.Discarded(log[handed])], handed + 1, floor)
  {
    hide Resets, Harmed, LastDiscarded, Base, Shown, FirstDelivered, C.Started, C.LastDelivered, C.Skipped, C.Orderly;
    var t' := t + [C.Discarded(log[handed])];
    Appended(t, C.Discarded(log[handed]));
    if C.Started(t) && Base(t).Some? && !Harmed(t') && floor <= Base(t).value.number {
      var lo: nat :| Fits(log, t, handed, lo);
      assert log[lo..handed] == log[handed + 1..handed + 1];
      assert Fits(log, t', handed + 1, handed + 1);
    }
  }

  lemma TailTakes(log: seq<Update>, c: C.State, received: nat, floor: nat)
    requires QueueIsTail(log, c, received, floor) && received < |log|
    requires forall i :: 0 <= i < |log| ==> log[i].number == i + 1
    ensures QueueIsTail(log, C.Enqueue(c, log[received]), received + 1, floor)
  {
    hide Resets, Harmed, LastDiscarded, Base, Shown, FirstDelivered, C.Started, C.LastDelivered, C.Skipped, C.Orderly;
    var n := Handed(c, received);
    var c' := C.Enqueue(c, log[received]);
    assert c.queue + [log[received]] == log[n..received + 1];
    if |c.queue| > C.MAX_UPDATE_QUEUE_SIZE {
      Appended(c.trace, C.Discarded(c.queue[0]));
      assert c.queue[0] == log[n];
      assert c'.queue == (c.queue + [log[received]])[1..];
    }
  }

  lemma FinishStep(y: System, y': System)
    requires Inv(y) && y.client.mode == C.INITIALIZE && y.client.snapshot.Some?
    requires y' == AfterClient(y, C.FinishInitialize(y.client, y.client.snapshot.value), y.received)
    ensures Inv(y')
  {
    hide Channels, Replayed, C.LastDelivered, C.Orderly, Resets, Harmed, LastDiscarded, Base, Shown, FirstDelivered;
    hide C.Prune, ApplyAll, S.Valid, S.View;
    var c, s := y.client, y.client.snapshot.value;
    Appended(c.trace, C.Initialized(s));
    assert y.server == y'.server && y.log == y'.log && y.requests == y'.requests && y.replies == y'.replies;
    C.FinishKeepsValid(c, s);
    NothingDelivered(c);
    TailPruned(y.log, c, s, y.received, y.floor);
  }

  lemma TailPruned(log: seq<Update>, c: C.State, s: Snapshot, received: nat, floor: nat)
    requires QueueIsTail(log, c, received, floor) && c.snapshot == Some(s) && C.Contiguous(c.queue)
    requires forall i :: 0 <= i < |log| ==> log[i].number == i + 1
    requires !C.Started(c.trace) && C.LastDelivered(c.trace).None?
    ensures var c' := C.FinishInitialize(c, s);
            && QueueIsTail(log, c', received, floor)
            && Replayed(log, c'.trace, Handed(c', received), floor)
  {
    hide Resets, Harmed, LastDiscarded, Base, Shown, FirstDelivered, C.Started, C.LastDelivered, C.Skipped, C.Orderly;
    hide ApplyAll, FromSnapshot, C.Prune;
    var c' := C.FinishInitialize(c, s);
    C.PruneIsSuffix(c.queue, s.number);
    Appended(c.trace, C.Initialized(s));
    FirstIfLast(c.trace);
    var n, lo := Handed(c, received), Handed(c', received);
    assert log[n..received][lo - n..] == log[lo..received];
    if lo > n {
      assert c.queue[lo - n - 1] == log[lo - 1];
    }
    assert QueueIsTail(log, c', received, floor);
    assert !Harmed(c'.trace) && floor <= s.number ==> Truthful(log, lo, s);
    hide QueueIsTail, C.Contiguous, C.FinishInitialize;
    if !Harmed(c'.trace) && floor <= s.number {
      ReplayStarts(log, c, s, lo);
    }
  }

  lemma ReplayStarts(log: seq<Update>, c: C.State, s: Snapshot, lo: nat)
    requires Truthful(log, lo, s) && FirstDelivered(c.trace).None?
    ensures Fits(log, c.trace + [C.Initialized(s)], lo, lo)
  {
    hide Resets, Harmed, LastDiscarded, Base, Shown, FirstDelivered, C.Started, C.LastDelivered, C.Skipped, ApplyAll;
    hide FromSnapshot;
    Appended(c.trace, C.Initialized(s));
    assert log[lo..lo] == [];
    ApplyNone(FromSnapshot(s));
  }

  lemma NothingDelivered(c: C.State)
    requires C.Valid(c) && c.mode != C.RUNNING
    ensures C.LastDelivered(c.trace).None?
  {
  }

  lemma DeliverKeepsValid(c: C.State)
    requires C.Valid(c) && c.mode == C.RUNNING && c.queue != []
    ensures C.Valid(C.Record(c, C.Delivered(c.queue[0])).(queue := c.queue[1..]))
  {
    hide Resets, Harmed, LastDiscarded, Base, Shown, FirstDelivered, C.Started, C.LastDelivered, C.Skipped, C.Orderly;
    C.Recorded(c, C.Delivered(c.queue[0]));
    assert forall i :: 0 <= i < |c.queue[1..]| ==> c.queue[1..][i] == c.queue[i + 1];
  }

  lemma PushOne(y: System, y': System)
    requires Inv(y) && y.client.mode == C.RUNNING && y.client.queue != []
    requires var c := y.client;
             y' == y.(client := C.Record(c, C.Delivered(c.queue[0])).(queue := c.queue[1..]))
    ensures Inv(y')
  {
    hide Resets, Harmed, LastDiscarded, Base, Shown, FirstDelivered, C.Started, C.LastDelivered, C.Skipped, C.Orderly;
    var c := y.client;
    DeliverKeepsValid(c);
    Appended(c.trace, C.Delivered(c.queue[0]));
    assert y.log[Handed(c, y.received)..y.received][1..] == y.log[Handed(y'.client, y.received)..y.received];
    assert c.queue[0] == y.log[Handed(c, y.received)];
    ReplayOne(y.log, c.trace, Handed(c, y.received), y.floor);
  }

  lemma ReplayOne(log: seq<Update>, t: seq<C.Event>, handed: nat, floor: nat)
    requires Replayed(log, t, handed, floor) && handed < |log| && log[handed].number == handed + 1
    ensures Replayed(log, t + [C.Delivered(log[handed])], handed + 1, floor)
  {
    hide Resets, Harmed, LastDiscarded, Base, Shown, FirstDelivered, C.Started, C.LastDelivered, C.Skipped, C.Orderly;
    var t' := t + [C.Delivered(log[handed])];
    Appended(t, C.Delivered(log[handed]));
    if C.Started(t) && Base(t).Some? && !Harmed(t) && floor <= Base(t).value.number {
      var lo: nat :| Fits(log, t, handed, lo);
      assert log[lo..handed + 1][..handed - lo] == log[lo..handed];
      assert Fits(log, t', handed + 1, lo);
    }
  }

  lemma {:induction false} PushStep(y: System, ready: set<nat>, y': System)
    requires Inv(y) && y.client.mode == C.RUNNING
    requires y' == y.(client := C.Push(y.client, ready))
    ensures Inv(y') && Resets(y'.client.trace) == Resets(y.client.trace)
    ensures var t := y'.client.trace;
            |t| >= |y.client.trace| && (t == y.client.trace || t[|t| - 1].Delivered?)
    decreases |y.client.queue|
  {
    hide Resets, Harmed, LastDiscarded, Base, Shown, FirstDelivered, C.Started, C.LastDelivered, C.Skipped, C.Orderly;
    var c := y.client;
    if c.queue != [] && c.queue[0].number in ready {
      Appended(c.trace, C.Delivered(c.queue[0]));
      var y1 := y.(client := C.Record(c, C.Delivered(c.queue[0])).(queue := c.queue[1..]));
      PushOne(y, y1);
      PushStep(y1, ready, y');
    }
  }

  /** A step of the client that sends a request, or none, and otherwise only changes its mode. */
  lemma RequestStep(y: System, serviceReady: bool, mode: C.Mode, y': System)
    requires Inv(y)
    requires var c' := C.Request(y.client, serviceReady).(mode := mode);
             && C.Valid(c')
             && var y1 := AfterClient(y, c', y.received);
                y' == y1 || y' == y1.(requests := y.requests + {Request(Resets(c'.trace), |y.log|)})
    ensures Inv(y')
  {
    hide ServerSide, QueueIsTail, Replayed, C.Valid, Resets, Truthful;
    Appended(y.client.trace, C.Requested);
    TailRequests(y.log, y.client, serviceReady, mode, y.received, y.floor);
    RequestBounds(y.log, y.client, y.received, y.floor);
  }

  lemma RequestBounds(log: seq<Update>, c: C.State, received: nat, floor: nat)
    requires QueueIsTail(log, c, received, floor)
    ensures floor <= received <= |log|
  {
  }

  lemma TailRequests(log: seq<Update>, c: C.State, serviceReady: bool, mode: C.Mode, received: nat, floor: nat)
    requires QueueIsTail(log, c, received, floor) && Replayed(log, c.trace, Handed(c, received), floor)
    ensures var c' := C.Request(c, serviceReady).(mode := mode);
            && QueueIsTail(log, c', received, floor)
            && Replayed(log, c'.trace, Handed(c', received), floor)
  {
    hide Resets, Harmed, LastDiscarded, Base, Shown, FirstDelivered, C.Started, C.LastDelivered, C.Skipped, C.Orderly;
    hide Truthful;
    Appended(c.trace, C.Requested);
    if C.Started(c.trace) && Base(c.trace).Some? && !Harmed(c.trace) && floor <= Base(c.trace).value.number {
      var lo: nat :| Fits(log, c.trace, Handed(c, received), lo);
      assert Fits(log, C.Request(c, serviceReady).trace, Handed(c, received), lo);
    }
  }

  lemma ResetStep(y: System, c: C.State, y': System)
    requires Inv(y) && y' == AfterClient(y, C.Reset(c), y.received)
    requires c.trace == y.client.trace
    ensures Inv(y')
  {
    hide Resets, Harmed, LastDiscarded, Base, Shown, FirstDelivered, C.Started, C.LastDelivered, C.Skipped, C.Orderly;
    ResetFacts(c);
    C.ResetKeepsValid(c);
    AfterReset(y, C.Reset(c), y.received, y');
  }

  lemma IdleTick(y: System, t: C.Tick, y': System)
    requires Inv(y) && Step(y, AtClient(C.DoUpdate(t)), y')
    requires !y.client.connected || y.client.mode == C.IDLE
    ensures Inv(y')
  {
    hide Resets, Harmed, LastDiscarded, Base, Shown, FirstDelivered, C.Started, C.LastDelivered, C.Skipped, C.Orderly;
    C.NextKeepsValid(y.client, C.DoUpdate(t));
    var c' := C.Turn(y.client, t);
    RequestStep(y, y.client.connected && t.serverReady && t.serviceReady, c'.mode, y');
  }

  lemma InitializeTick(y: System, t: C.Tick, y': System)
    requires Inv(y) && Step(y, AtClient(C.DoUpdate(t)), y')
    requires y.client.connected && y.client.mode == C.INITIALIZE
    ensures Inv(y')
  {
    hide Resets, Harmed, LastDiscarded, Base, Shown, FirstDelivered, C.Started, C.LastDelivered, C.Skipped, C.Orderly;
    var c := y.client;
    C.NextKeepsValid(c, C.DoUpdate(t));
    if !t.serverReady || (c.snapshot.Some? && t.transformFails) {
      C.Recorded(c, C.WasReset);
      ResetStep(y, c, y');
    } else if c.snapshot.None? {
      RequestStep(y, t.timedOut && t.serviceReady, c.mode, y');
    } else if t.snapshotReady {
      C.Recorded(c.(queue := C.Prune(c.queue, c.snapshot.value.number), mode := C.RUNNING),
          C.Initialized(c.snapshot.value));
      FinishStep(y, y');
    } else {
      RequestStep(y, false, c.mode, y');
    }
  }

  lemma RunningTick(y: System, t: C.Tick, y': System)
    requires Inv(y) && Step(y, AtClient(C.DoUpdate(t)), y')
    requires y.client.connected && y.client.mode == C.RUNNING
    ensures Inv(y')
  {
    hide Resets, Harmed, LastDiscarded, Base, Shown, FirstDelivered, C.Started, C.LastDelivered, C.Skipped, C.Orderly;
    var c := y.client;
    if !t.serverReady || (c.queue != [] && t.transformFails) {
      C.Recorded(c, C.WasReset);
      ResetStep(y, c, y');
    } else {
      PushStep(y, t.ready, y.(client := C.Push(c, t.ready)));
    }
  }

  lemma ClientStep(y: System, call: C.Op, y': System)
    requires Inv(y) && Step(y, AtClient(call), y')
    ensures Inv(y')
  {
    hide ServerSide, Channels, QueueIsTail, Replayed, C.Valid, Resets;
    var c := y.client;
    match call {
      case DoUpdate(t) =>
        if !c.connected || c.mode == C.IDLE {
          IdleTick(y, t, y');
        } else if c.mode == C.INITIALIZE {
          InitializeTick(y, t, y');
        } else {
          RunningTick(y, t, y');
        }
      case DoDisconnect =>
        C.Recorded(c.(connected := false), C.WasReset);
        ResetStep(y, c.(connected := false), y');
      case DoSetTargetFrame(changed) =>
        C.Recorded(c, C.WasReset);
        if changed && c.mode != C.IDLE {
          ResetStep(y, c, y');
        } else {
          RequestStep(y, false, c.mode, y');
        }
      case DoMessage(_) =>
        RequestStep(y, false, c.mode, y');
      case DoConnect(_, created) =>
        RequestBounds(y.log, c, y.received, y.floor);
        ConnectStep(y, false, created, y.received, y');
      case _ =>
    }
  }

  /** Connecting, with or without a namespace, starts from a reset. */
  lemma ConnectStep(y: System, named: bool, created: bool, received: nat, y': System)
    requires Inv(y) && received <= |y.log|
    requires y' == AfterClient(y, C.Next(y.client, C.DoConnect(named, created)), received)
    ensures Inv(y') && Resets(y'.client.trace) > Resets(y.client.trace)
    ensures y'.client.snapshot.None? && Base(y'.client.trace).None?
    ensures var t := y'.client.trace; t != [] && t[|t| - 1].WasReset?
  {
    hide Resets, Harmed, LastDiscarded, Base, Shown, FirstDelivered, C.Started, C.LastDelivered, C.Skipped, C.Orderly;
    var c0 := C.GoIdle(y.client).(connected := false);
    C.NextKeepsValid(y.client, C.DoConnect(named, created));
    ResetFacts(y.client);
    ResetFacts(c0);
    ResetFacts(C.Reset(c0).(connected := false));
    AfterReset(y, y'.client, received, y');
  }

  lemma StepKeepsInv(y: System, a: Action, y': System)
    requires Inv(y) && Step(y, a, y')
    ensures Inv(y')
  {
    hide ServerSide, Channels, QueueIsTail, Replayed, C.Valid, Resets;
    match a {
      case AtServer(op) => ServerStep(y, op, y');
      case Answer(request, s) => AnswerStep(y, request, s, y');
      case TakeReply(reply) => TakeReplyStep(y, reply, y');
      case TakeUpdate => UpdateStep(y, y');
      case AtClient(call) => ClientStep(y, call, y');
      case Subscribe(created, position) => ConnectStep(y, true, created, position, y');
    }
  }

  lemma {:induction false} RunKeepsInv(run: seq<System>, actions: seq<Action>, i: nat)
    requires IsRun(run, actions) && i < |run|
    ensures Inv(run[i])
  {
    if i > 0 {
      RunKeepsInv(run, actions, i - 1);
      assert Step(run[i - 1], actions[i - 1], run[i - 1 + 1]);
      StepKeepsInv(run[i - 1], actions[i - 1], run[i]);
    }
  }

  lemma {:induction false} LogOnlyGrows(run: seq<System>, actions: seq<Action>, i: nat, j: nat)
    requires IsRun(run, actions) && i <= j < |run|
    ensures run[i].log <= run[j].log
    decreases j
  {
    if i < j {
      LogOnlyGrows(run, actions, i, j - 1);
      assert Step(run[j - 1], actions[j - 1], run[j - 1 + 1]);
    }
  }

  // ---------- convergence ----------

  /** The number of the last update the shown markers contain: the last one handed out, or the
      snapshot's own number if there was none. */
  ghost function ShownUpTo(t: seq<C.Event>): nat
    requires Base(t).Some?
  {
    match C.LastDelivered(t)
    case None => Base(t).value.number
    case Some(d) => d
  }

  lemma {:induction false} StartedHasBase(t: seq<C.Event>)
    ensures C.Started(t) <==> Base(t).Some?
  {
    if t != [] {
      StartedHasBase(t[..|t| - 1]);
    }
  }

  /** The snapshot the client started from is not older than its last reset. */
  ghost predicate SnapshotIsCurrent(y: System)
  {
    Base(y.client.trace).Some? ==> y.floor <= Base(y.client.trace).value.number
  }

  lemma Convergence(y: System)
    requires Inv(y) && y.client.mode == C.RUNNING && !Harmed(y.client.trace) && SnapshotIsCurrent(y)
    ensures Base(y.client.trace).Some?
    ensures var t := ShownUpTo(y.client.trace);
            t >= Base(y.client.trace).value.number ==>
              t <= |y.log| && Shown(y.client.trace) == ApplyAll(map[], y.log[..t])
  {
    var c := y.client;
    StartedHasBase(c.trace);
    FirstIfLast(c.trace);
    var s := Base(c.trace).value;
    var n := Handed(c, y.received);
    var lo: nat :| Fits(y.log, c.trace, n, lo);
    if C.LastDelivered(c.trace).None? {
      assert y.log[lo..lo] == [];
    } else if ShownUpTo(c.trace) >= s.number {
      SkippedMeansHarmed(c.trace);
      assert c.queue != [] ==> c.queue[0] == y.log[n];
      assert ShownUpTo(c.trace) == n;
      LateUpdatesConverge(y.log, lo, s.number, n);
    }
  }

  /** Before that, while updates the snapshot contains are applied again: what is shown is the
      snapshot with those from the first delivery on applied to it. A name that one of them puts or
      erases is as it was after update t, before the snapshot was taken; a name they do not touch is
      as in the snapshot; a marker they only move is the snapshot's with the pose of the time. */
  lemma CatchingUp(y: System, k: string)
    requires Inv(y) && y.client.mode == C.RUNNING && !Harmed(y.client.trace) && SnapshotIsCurrent(y)
    requires Base(y.client.trace).Some? && ShownUpTo(y.client.trace) < Base(y.client.trace).value.number
    ensures FirstDelivered(y.client.trace).Some?
    ensures 1 <= FirstDelivered(y.client.trace).value <= ShownUpTo(y.client.trace) < |y.log|
    ensures var s, t := Base(y.client.trace).value, ShownUpTo(y.client.trace);
            var replayed := y.log[FirstDelivered(y.client.trace).value - 1..t];
            && s.number <= |y.log| && FromSnapshot(s) == ApplyAll(map[], y.log[..s.number])
            && Shown(y.client.trace) == ApplyAll(FromSnapshot(s), replayed)
            && At(Shown(y.client.trace), k) ==
               if EffectOfAll(replayed, k).Become? then At(ApplyAll(map[], y.log[..t]), k)
               else EffectOfAll(replayed, k).Act(At(FromSnapshot(s), k))
  {
    var c := y.client;
    var n, t, s := Handed(c, y.received), ShownUpTo(c.trace), Base(c.trace).value;
    LastIsHanded(y);
    StartedHasBase(c.trace);
    hide C.Valid, ServerSide, Channels, QueueIsTail, Shown, Base, FirstDelivered, Apply, FromSnapshot, EffectOfAll;
    hide Harmed, C.LastDelivered;
    var lo: nat :| Fits(y.log, c.trace, n, lo);
    var start: Replica := map[];
    Segment(start, y.log, 0, lo, t);
    assert y.log[0..t] == y.log[..t];
    ReplayOfName(FromSnapshot(s), ApplyAll(start, y.log[0..lo]), y.log[lo..t], k);
  }

  /** Unless nothing was handed out yet, the last delivery is the last update handed out. */
  lemma LastIsHanded(y: System)
    requires Inv(y) && y.client.mode == C.RUNNING && !Harmed(y.client.trace) && SnapshotIsCurrent(y)
    requires Base(y.client.trace).Some?
    requires ShownUpTo(y.client.trace) != Base(y.client.trace).value.number
    ensures FirstDelivered(y.client.trace).Some? && ShownUpTo(y.client.trace) == Handed(y.client, y.received)
  {
    FirstIfLast(y.client.trace);
    SkippedMeansHarmed(y.client.trace);
    assert y.client.queue != [] ==> y.client.queue[0] == y.log[Handed(y.client, y.received)];
  }

  lemma {:induction false} SkippedMeansHarmed(t: seq<C.Event>)
    ensures C.Skipped(t) && C.LastDelivered(t).Some? ==> Harmed(t)
  {
    if t != [] {
      SkippedMeansHarmed(t[..|t| - 1]);
      FirstIfLast(t[..|t| - 1]);
    }
  }

  /** Without any discard since the last reset there is no harm. */
  lemma {:induction false} NoDiscardNoHarm(t: seq<C.Event>, i: nat)
    requires i <= |t| && (i == 0 || t[i - 1].WasReset?)
    requires forall j :: i <= j < |t| ==> !t[j].Discarded?
    ensures !Harmed(t) && LastDiscarded(t) == 0
  {
    if i < |t| {
      NoDiscardNoHarm(t[..|t| - 1], i);
    }
  }

  /** Replica convergence. Take any run, a state j in which the client is RUNNING, its snapshot is not
      older than its last reset, and no discarded update has done harm since, and a state i at which
      the server had published as many updates as the client shows, its snapshot included. Then the
      client shows exactly the server's markers of state i - even if updates the snapshot already
      contained were applied again on top of it. */
  lemma ReplicasConverge(run: seq<System>, actions: seq<Action>, i: nat, j: nat)
    requires IsRun(run, actions) && i < |run| && j < |run|
    requires run[j].client.mode == C.RUNNING && !Harmed(run[j].client.trace) && SnapshotIsCurrent(run[j])
    ensures var t := run[j].client.trace;
            && Base(t).Some?
            && (|run[i].log| == ShownUpTo(t) >= Base(t).value.number ==>
                  Shown(t) == S.View(run[i].server.contexts))
  {
    RunKeepsInv(run, actions, i);
    RunKeepsInv(run, actions, j);
    Convergence(run[j]);
    var t := ShownUpTo(run[j].client.trace);
    if |run[i].log| == t >= Base(run[j].client.trace).value.number {
      if i <= j {
        LogOnlyGrows(run, actions, i, j);
      } else {
        LogOnlyGrows(run, actions, j, i);
      }
      assert run[j].log[..t] == run[i].log;
    }
  }

  /** Once a client has taken everything published, it shows the server's current markers. */
  lemma CaughtUpMeansEqual(run: seq<System>, actions: seq<Action>, i: nat)
    requires IsRun(run, actions) && i < |run|
    requires run[i].client.mode == C.RUNNING && !Harmed(run[i].client.trace) && SnapshotIsCurrent(run[i])
    requires run[i].received == |run[i].log| && run[i].client.queue == []
    ensures Shown(run[i].client.trace) == S.View(run[i].server.contexts)
  {
    var y := run[i];
    RunKeepsInv(run, actions, i);
    StartedHasBase(y.client.trace);
    hide IsRun, Harmed, Shown, Base, FirstDelivered, FromSnapshot, S.View, S.Valid, Channels;
    var lo: nat :| Fits(y.log, y.client.trace, Handed(y.client, y.received), lo);
    LateUpdatesConverge(y.log, lo, Base(y.client.trace).value.number, |y.log|);
    assert y.log[..|y.log|] == y.log;
  }

  // ---------- replies that are not late ----------

  /** Among the first n steps no reply is taken whose request was sent before the last reset. */
  ghost predicate RepliesInTime(run: seq<System>, actions: seq<Action>, n: nat)
    requires n <= |actions| < |run|
  {
    forall i :: 0 <= i < n ==> (actions[i].TakeReply? ==> InTime(run[i], actions[i]))
  }

  ghost predicate InTime(y: System, a: Action)
    requires a.TakeReply?
  {
    a.reply.period == Resets(y.client.trace)
  }

  ghost predicate Current(y: System)
  {
    && (y.client.snapshot.Some? ==> y.floor <= y.client.snapshot.value.number)
    && SnapshotIsCurrent(y)
  }

  /** Between two states of the client: the same period with the same snapshots, of which the one
      received may have become the one started from, or a new period without any. */
  ghost predicate KeepsSnapshot(c: C.State, c': C.State)
  {
    || (Resets(c'.trace) > Resets(c.trace) && c'.snapshot.None? && Base(c'.trace).None?)
    || (Resets(c'.trace) == Resets(c.trace) && c'.snapshot == c.snapshot
        && (Base(c'.trace) == Base(c.trace) || Base(c'.trace) == c.snapshot))
  }

  lemma {:induction false} PushKeepsSnapshot(c: C.State, ready: set<nat>)
    ensures KeepsSnapshot(c, C.Push(c, ready)) && Base(C.Push(c, ready).trace) == Base(c.trace)
    ensures Resets(C.Push(c, ready).trace) == Resets(c.trace)
    decreases |c.queue|
  {
    hide Resets, Base;
    if c.queue != [] && c.queue[0].number in ready {
      Appended(c.trace, C.Delivered(c.queue[0]));
      PushKeepsSnapshot(C.Record(c, C.Delivered(c.queue[0])).(queue := c.queue[1..]), ready);
    }
  }

  lemma TurnKeepsSnapshot(c: C.State, t: C.Tick)
    ensures KeepsSnapshot(c, C.Turn(c, t))
  {
    hide Resets, Base, C.Push;
    ResetFacts(c);
    Appended(c.trace, C.Requested);
    PushKeepsSnapshot(c, t.ready);
    if c.snapshot.Some? {
      Appended(c.trace, C.Initialized(c.snapshot.value));
    }
  }

  lemma CallKeepsSnapshot(c: C.State, call: C.Op)
    requires !call.DoSnapshot? && !call.DoMessage?
    ensures KeepsSnapshot(c, C.Next(c, call))
  {
    hide Resets, Base, C.Turn;
    ResetFacts(c);
    match call {
      case DoUpdate(t) => TurnKeepsSnapshot(c, t);
      case DoDisconnect => ResetFacts(c.(connected := false));
      case DoConnect(_, _) =>
        var c0 := C.GoIdle(c).(connected := false);
        ResetFacts(c0);
        ResetFacts(C.Reset(c0).(connected := false));
      case _ =>
    }
  }

  lemma EnqueueKeepsSnapshot(c: C.State, u: Update)
    ensures KeepsSnapshot(c, C.Enqueue(c, u))
  {
    hide Resets, Base;
    if c.queue != [] {
      Appended(c.trace, C.Discarded(c.queue[0]));
    }
  }

  lemma StepKeepsCurrent(y: System, a: Action, y': System)
    requires Inv(y) && Current(y) && Step(y, a, y') && (a.TakeReply? ==> InTime(y, a))
    ensures Current(y')
  {
    NothingReceivedIsCurrent(y);
    NothingReceivedIsCurrent(y');
    hide ServerSide, Replayed, C.Valid, Resets, Base, C.Enqueue;
    match a {
      case TakeReply(reply) =>
      case TakeUpdate =>
        NextIsNumbered(y);
        NextIsAccepted(y.log, y.client, y.received, y.floor);
        EnqueueKeepsSnapshot(y.client, y.log[y.received]);
      case AtClient(call) =>
        if call.DoMessage? {
          assert y'.client == y.client;
        } else {
          CallKeepsSnapshot(y.client, call);
        }
      case Subscribe(created, _) =>
        CallKeepsSnapshot(y.client, C.DoConnect(true, created));
      case _ =>
    }
  }

  lemma NextIsNumbered(y: System)
    requires Inv(y) && y.received < |y.log|
    ensures y.log[y.received].number == y.received + 1
  {
  }

  lemma NothingReceivedIsCurrent(y: System)
    ensures y.client.snapshot.None? && Base(y.client.trace).None? ==> Current(y)
  {
  }

  /** When no reply is late, the snapshot is never older than the last reset. */
  lemma {:induction false} InTimeMeansCurrent(run: seq<System>, actions: seq<Action>, i: nat)
    requires IsRun(run, actions) && i < |run| && RepliesInTime(run, actions, i)
    ensures SnapshotIsCurrent(run[i]) && Current(run[i])
  {
    hide Inv, Step, Current;
    if i > 0 {
      InTimeMeansCurrent(run, actions, i - 1);
      RunKeepsInv(run, actions, i - 1);
      assert Step(run[i - 1], actions[i - 1], run[i - 1 + 1]);
      StepKeepsCurrent(run[i - 1], actions[i - 1], run[i]);
    } else {
      NothingReceivedIsCurrent(run[0]);
    }
    CurrentSnapshot(run[i]);
  }

  lemma CurrentSnapshot(y: System)
    requires Current(y)
    ensures SnapshotIsCurrent(y)
  {
  }

  // ---------- going back behind the snapshot ----------

  ghost predicate Reachable(y: System)
  {
    exists run, actions :: IsRun(run, actions) && run[|run| - 1] == y
  }

  lemma StartIsReachable()
    ensures Reachable(START)
  {
    assert IsRun([START], []);
  }

  lemma StepReaches(y: System, a: Action, y': System)
    requires Reachable(y) && Step(y, a, y')
    ensures Reachable(y')
  {
    var run, actions :| IsRun(run, actions) && run[|run| - 1] == y;
    var run', actions' := run + [y'], actions + [a];
    hide Step;
    forall i | 0 <= i < |actions'| ensures Step(run'[i], actions'[i], run'[i + 1]) {
      if i < |actions| {
        assert Step(run[i], actions[i], run[i + 1]);
      }
    }
    assert IsRun(run', actions') && run'[|run'| - 1] == y';
  }

  /** The server puts a marker and publishes it. */
  lemma PublishMarker(y: System, m: Marker) returns (y': System, u: Update)
    requires Reachable(y) && y.server.pending == map[]
    ensures Reachable(y') && u == Update(y.server.number + 1, [m], [], [])
    ensures y' == y.(server := y'.server, log := y.log + [u])
    ensures y'.server.pending == map[] && y'.server.number == y.server.number + 1
    ensures S.View(y'.server.contexts) == S.View(y.server.contexts)[m.name := m]
    ensures y'.server.contexts.Keys == y.server.contexts.Keys + {m.name}
  {
    var op := S.DoInsert(m);
    var y1 := y.(server := S.Next(y.server, op));
    StepReaches(y, AtServer(op), y1);
    u := Update(y.server.number + 1, [m], [], []);
    assert y1.server.pending == map[m.name := S.UpdateContext(S.FULL_UPDATE, m)];
    assert S.Publishes(y1.server, u);
    y' := y1.(server := S.Next(y1.server, S.DoApply(u)), log := y1.log + [u]);
    StepReaches(y1, AtServer(S.DoApply(u)), y');
    assert S.Outcome(y1.server, m.name) == Some(m);
  }

  const ASKED := C.State(true, C.INITIALIZE, true, 0, None, [], [C.WasReset, C.Requested])

  ghost function Running(s: Snapshot): C.State
  {
    C.State(true, C.RUNNING, true, 0, Some(s), [], [C.WasReset, C.Requested, C.Initialized(s)])
  }

  lemma TraceFacts(s: Snapshot, u: Update)
    ensures Resets([C.WasReset]) == 1 && Resets([C.WasReset, C.Requested]) == 1
    ensures var t := [C.WasReset, C.Requested, C.Initialized(s)];
            && Resets(t) == 1 && Base(t) == Some(s) && Shown(t) == FromSnapshot(s) && !Harmed(t)
            && Resets(t + [C.Delivered(u)]) == 1 && Base(t + [C.Delivered(u)]) == Some(s)
            && Shown(t + [C.Delivered(u)]) == Apply(FromSnapshot(s), u) && !Harmed(t + [C.Delivered(u)])
  {
    Appended([], C.WasReset);
    Appended([C.WasReset], C.Requested);
    Appended([C.WasReset, C.Requested], C.Initialized(s));
    Appended([C.WasReset, C.Requested, C.Initialized(s)], C.Delivered(u));
    assert [] + [C.WasReset] == [C.WasReset];
    assert [C.WasReset] + [C.Requested] == [C.WasReset, C.Requested];
    assert [C.WasReset, C.Requested] + [C.Initialized(s)] == [C.WasReset, C.Requested, C.Initialized(s)];
  }

  /** A connected client asks for all markers, is answered, and runs. */
  lemma StartFrom(y: System, s: Snapshot) returns (y': System)
    requires Reachable(y) && S.Replies(y.server, s)
    requires y.client == C.State(true, C.IDLE, true, 0, None, [], [C.WasReset])
    ensures Reachable(y') && y'.client == Running(s)
    ensures y' == y.(client := Running(s), requests := y'.requests, replies := y'.replies)
  {
    TraceFacts(s, Update(0, [], [], []));
    var request := Request(1, |y.log|);
    var ask := C.Tick(true, false, false, {}, false, true);
    assert C.Next(y.client, C.DoUpdate(ask)) == ASKED;
    var y1 := y.(client := ASKED, requests := y.requests + {request});
    StepReaches(y, AtClient(C.DoUpdate(ask)), y1);
    var y2 := y1.(replies := y1.replies + {Reply(1, s)});
    StepReaches(y1, Answer(request, s), y2);
    var y3 := y2.(client := ASKED.(snapshot := Some(s)));
    StepReaches(y2, TakeReply(Reply(1, s)), y3);
    var finish := C.Tick(true, false, true, {}, false, true);
    assert C.Next(y3.client, C.DoUpdate(finish)) == Running(s);
    y' := y3.(client := Running(s));
    StepReaches(y3, AtClient(C.DoUpdate(finish)), y');
  }

  /** It takes the next update from the topic and hands it out. */
  lemma TakeAndShow(y: System, s: Snapshot, u: Update) returns (y': System)
    requires Reachable(y) && y.client == Running(s) && y.received < |y.log| && y.log[y.received] == u
    ensures Reachable(y') && y'.log == y.log && y'.client.mode == C.RUNNING
    ensures y'.client.trace == Running(s).trace + [C.Delivered(u)]
  {
    TraceFacts(s, u);
    var c1 := Running(s).(first := false, last := u.number, queue := [u]);
    assert C.Next(y.client, C.DoMessage(C.Numbered(u))) == c1;
    var y1 := y.(client := c1, received := y.received + 1);
    StepReaches(y, TakeUpdate, y1);
    var show := C.Tick(true, false, false, {u.number}, false, true);
    var c2 := c1.(queue := [], trace := c1.trace + [C.Delivered(u)]);
    assert [u][1..] == [] && C.Push(c2, {u.number}) == c2;
    assert C.Push(c1, {u.number}) == C.Push(c2, {u.number});
    assert C.Next(c1, C.DoUpdate(show)) == c2;
    y' := y1.(client := c2);
    StepReaches(y1, AtClient(C.DoUpdate(show)), y');
  }

  /** A running client can show a marker older than the one in its snapshot. The client subscribes;
      the server publishes two versions of a marker; then the client asks for all markers, gets the
      second version, and applies the first one, which has been waiting on the topic. */
  lemma ClientMayGoBack(older: Marker, newer: Marker) returns (y: System)
    requires older.name == newer.name && older != newer
    ensures Reachable(y) && y.client.mode == C.RUNNING && !Harmed(y.client.trace)
    ensures Base(y.client.trace) == Some(Snapshot(2, [newer])) && |y.log| == 2
    ensures Shown(y.client.trace) == map[older.name := older] == ApplyAll(map[], y.log[..1])
    ensures ApplyAll(map[], y.log) == map[newer.name := newer]
  {
    var s := Snapshot(2, [newer]);
    TraceFacts(s, Update(1, [older], [], []));
    StartIsReachable();
    var c := C.State(true, C.IDLE, true, 0, None, [], [C.WasReset]);
    assert C.Next(C.START, C.DoConnect(true, true)) == c;
    var subscribed := AfterClient(START, c, 0);
    StepReaches(START, Subscribe(true, 0), subscribed);
    var one, u1 := PublishMarker(subscribed, older);
    var two, u2 := PublishMarker(one, newer);
    assert two.log == [u1, u2];
    OnlyMarker(two.server, newer);
    y := StartFrom(two, s);
    y := TakeAndShow(y, s, u1);
    TwoVersions(older, newer, u1, u2);
  }

  lemma OnlyMarker(st: S.State, m: Marker)
    requires S.View(st.contexts) == map[m.name := m] && st.number == 2
    ensures S.Replies(st, Snapshot(2, [m]))
  {
    assert m.name in S.View(st.contexts) && S.View(st.contexts)[m.name] == m;
    assert forall k :: k in st.contexts ==> k in S.View(st.contexts);
  }

  lemma TwoVersions(older: Marker, newer: Marker, u1: Update, u2: Update)
    requires older.name == newer.name && u1 == Update(1, [older], [], []) && u2 == Update(2, [newer], [], [])
    ensures Apply(FromSnapshot(Snapshot(2, [newer])), u1) == map[older.name := older] == ApplyAll(map[], [u1, u2][..1])
    ensures ApplyAll(map[], [u1, u2]) == map[newer.name := newer]
  {
    PutOne(map[], newer);
    PutOne(map[newer.name := newer], older);
    PutOne(map[], older);
    PutOne(map[older.name := older], newer);
    assert [u1, u2][..1] == [u1] && [u1][..0] == [];
  }

  lemma PutOne(r: Replica, m: Marker)
    ensures PutMarkers(r, [m]) == r[m.name := m]
  {
    assert [m][1..] == [];
  }

  // ---------- a late reply ----------

  /** A reply to a request from before a reset leaves the client without updates for good: the client
      asks while the server is empty, takes the first update, is reset by a change of its target
      frame, asks again, and starts from the first answer. It has then handed out all it received,
      and shows nothing of the server's marker. */
  lemma LateReplyMissesUpdates(m: Marker) returns (y: System)
    ensures Reachable(y) && y.client.mode == C.RUNNING && !Harmed(y.client.trace)
    ensures y.received == |y.log| && y.client.queue == [] && !SnapshotIsCurrent(y)
    ensures Shown(y.client.trace) == map[] && S.View(y.server.contexts) == map[m.name := m]
  {
    var empty := Snapshot(0, []);
    StartIsReachable();
    var c := C.State(true, C.IDLE, true, 0, None, [], [C.WasReset]);
    LateTrace(empty);
    assert C.Next(C.START, C.DoConnect(true, true)) == c;
    var y0 := AfterClient(START, c, 0);
    StepReaches(START, Subscribe(true, 0), y0);
    var ask := C.Tick(true, false, false, {}, false, true);
    var y1 := y0.(client := ASKED, requests := {Request(1, 0)});
    assert C.Next(c, C.DoUpdate(ask)) == ASKED;
    StepReaches(y0, AtClient(C.DoUpdate(ask)), y1);
    var y2 := y1.(replies := {Reply(1, empty)});
    assert S.Replies(y1.server, empty);
    StepReaches(y1, Answer(Request(1, 0), empty), y2);
    var y3, u := PublishMarker(y2, m);
    var y4 := y3.(client := ASKED.(first := false, last := 1, queue := [u]), received := 1);
    assert C.Next(ASKED, C.DoMessage(C.Numbered(u))) == y4.client;
    StepReaches(y3, TakeUpdate, y4);
    y := StartLate(y4, empty);
  }

  lemma LateTrace(s: Snapshot)
    ensures var t := [C.WasReset, C.Requested];
            && Resets([C.WasReset]) == 1 && Resets(t) == 1
            && Resets(t + [C.WasReset]) == 2 && Resets(t + [C.WasReset, C.Requested]) == 2
            && Resets(t + [C.WasReset, C.Requested, C.Initialized(s)]) == 2
            && Base(t + [C.WasReset, C.Requested, C.Initialized(s)]) == Some(s)
            && Shown(t + [C.WasReset, C.Requested, C.Initialized(s)]) == FromSnapshot(s)
            && !Harmed(t + [C.WasReset, C.Requested, C.Initialized(s)])
  {
    TraceFacts(s, Update(0, [], [], []));
    var t := [C.WasReset, C.Requested];
    Appended(t, C.WasReset);
    Appended(t + [C.WasReset], C.Requested);
    Appended(t + [C.WasReset, C.Requested], C.Initialized(s));
    assert t + [C.WasReset] + [C.Requested] == t + [C.WasReset, C.Requested];
    assert t + [C.WasReset, C.Requested] + [C.Initialized(s)] == t + [C.WasReset, C.Requested, C.Initialized(s)];
  }

  lemma StartLate(y: System, s: Snapshot) returns (y': System)
    requires Reachable(y) && Reply(1, s) in y.replies && s == Snapshot(0, []) && y.received == 1 == |y.log|
    requires y.client.connected && y.client.mode == C.INITIALIZE && y.client.trace == [C.WasReset, C.Requested]
    ensures Reachable(y') && y'.server == y.server && y'.log == y.log && y'.received == 1 && y'.floor == 1
    ensures y'.client.mode == C.RUNNING && y'.client.queue == []
    ensures y'.client.trace == [C.WasReset, C.Requested] + [C.WasReset, C.Requested, C.Initialized(s)]
    ensures Base(y'.client.trace) == Some(s) && Shown(y'.client.trace) == map[] && !Harmed(y'.client.trace)
  {
    LateTrace(s);
    var t := [C.WasReset, C.Requested];
    var c1 := y.client.(mode := C.IDLE, first := true, snapshot := None, queue := [], trace := t + [C.WasReset]);
    assert C.Next(y.client, C.DoSetTargetFrame(true)) == c1;
    var y1 := y.(client := c1, floor := 1);
    StepReaches(y, AtClient(C.DoSetTargetFrame(true)), y1);
    var ask := C.Tick(true, false, false, {}, false, true);
    var c2 := c1.(mode := C.INITIALIZE, trace := t + [C.WasReset, C.Requested]);
    assert t + [C.WasReset] + [C.Requested] == c2.trace;
    assert C.Next(c1, C.DoUpdate(ask)) == c2;
    var y2 := y1.(client := c2, requests := y1.requests + {Request(2, 1)});
    StepReaches(y1, AtClient(C.DoUpdate(ask)), y2);
    var y3 := y2.(client := c2.(snapshot := Some(s)));
    StepReaches(y2, TakeReply(Reply(1, s)), y3);
    var finish := C.Tick(true, false, true, {}, false, true);
    var c4 := c2.(mode := C.RUNNING, snapshot := Some(s), trace := t + [C.WasReset, C.Requested, C.Initialized(s)]);
    assert c2.trace + [C.Initialized(s)] == c4.trace;
    assert C.Next(y3.client, C.DoUpdate(finish)) == c4;
    y' := y3.(client := c4);
    StepReaches(y3, AtClient(C.DoUpdate(finish)), y');
  }
}
