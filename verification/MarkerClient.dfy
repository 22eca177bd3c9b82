/**
 The interactive-marker client: an IDLE / INITIALIZE / RUNNING machine that queues numbered
 updates, takes a snapshot, prunes old updates once and then hands out the rest.
 */
module MarkerClient {
  import opened Wrappers
  import opened Markers

  datatype Mode = IDLE | INITIALIZE | RUNNING

  datatype Message = KeepAlive | Numbered(u: Update)

  /** What the owner of the client observes, and two internal events the properties speak of. */
  datatype Event =
    | WasReset                   // the reset callback
    | Initialized(s: Snapshot)   // the initialize callback
    | Delivered(u: Update)       // the update callback
    | Discarded(u: Update)       // an update dropped because the queue was full
    | Requested                  // a request for all markers was sent

  /** State and the functions on it say what every callback does, including the trace of what the
      owner of the client observes; class Client performs the callbacks in place.

      The update queue is kept oldest first: its head is the back of the deque. */
  datatype State = State(connected: bool, mode: Mode, first: bool, last: nat, snapshot: Option<Snapshot>,
                         queue: seq<Update>, trace: seq<Event>)

  /** What one call of update() finds out about the world. */
  datatype Tick = Tick(serverReady: bool, transformFails: bool, snapshotReady: bool, ready: set<nat>,
                       timedOut: bool, serviceReady: bool)

  const MAX_UPDATE_QUEUE_SIZE := 100

  ghost const START := State(false, IDLE, true, 0, None, [], [])

  // ---------- the callbacks on values ----------

  ghost function Record(c: State, e: Event): State
  {
    c.(trace := c.trace + [e])
  }

  ghost function Reset(c: State): State
  {
    Record(c.(mode := IDLE, first := true, snapshot := None, queue := []), WasReset)
  }

  ghost function GoIdle(c: State): State
  {
    if c.mode == IDLE then c else Reset(c)
  }

  ghost function Request(c: State, serviceReady: bool): State
  {
    if c.connected && serviceReady then Record(c, Requested) else c
  }

  ghost function Disconnect(c: State): State
  {
    Reset(c.(connected := false))
  }

  ghost function Connect(c: State, named: bool, created: bool): State
  {
    var c1 := Disconnect(GoIdle(c));
    if !named then c1 else if created then c1.(connected := true) else Disconnect(c1)
  }

  ghost function ReceiveSnapshot(c: State, s: Snapshot): State
  {
    c.(snapshot := Some(s))
  }

  ghost function Enqueue(c: State, u: Update): State
  {
    var c1 := c.(first := false, last := u.number);
    var c2 := if |c1.queue| > MAX_UPDATE_QUEUE_SIZE
              then Record(c1, Discarded(c1.queue[0])).(queue := c1.queue[1..]) else c1;
    c2.(queue := c2.queue + [u])
  }

  ghost function Receive(c: State, m: Message): State
  {
    if m.KeepAlive? then c
    else if !c.first && m.u.number != c.last + 1 then GoIdle(c)
    else Enqueue(c, m.u)
  }

  function Prune(queue: seq<Update>, upTo: nat): seq<Update>
  {
    if queue != [] && queue[0].number <= upTo then Prune(queue[1..], upTo) else queue
  }

  ghost function FinishInitialize(c: State, s: Snapshot): State
  {
    Record(c.(queue := Prune(c.queue, s.number), mode := RUNNING), Initialized(s))
  }

  ghost function Push(c: State, ready: set<nat>): State
    decreases |c.queue|
  {
    if c.queue != [] && c.queue[0].number in ready
    then Push(Record(c, Delivered(c.queue[0])).(queue := c.queue[1..]), ready)
    else c
  }

  ghost function Turn(c: State, t: Tick): State
  {
    if !c.connected then c
    else match c.mode
      case IDLE => if t.serverReady then Request(c, t.serviceReady).(mode := INITIALIZE) else c
      case INITIALIZE =>
        if !t.serverReady || (c.snapshot.Some? && t.transformFails) then Reset(c)
        else if c.snapshot.None? then if t.timedOut then Request(c, t.serviceReady) else c
        else if t.snapshotReady then FinishInitialize(c, c.snapshot.value)
        else c
      case RUNNING =>
        if !t.serverReady || (c.queue != [] && t.transformFails) then Reset(c) else Push(c, t.ready)
  }

  // ---------- what a turn of update() decides ----------

  /** Back to IDLE: everything is forgotten, and the reset callback has been called. */
  ghost predicate Dropped(c: State, c': State)
  {
    c' == c.(mode := IDLE, first := true, snapshot := None, queue := [], trace := c.trace + [WasReset])
  }

  /** The markers are requested as soon as the server is there. */
  ghost predicate IdleTurn(c: State, t: Tick, c': State)
  {
    && c'.mode == (if t.serverReady then INITIALIZE else IDLE)
    && c'.trace == c.trace + (if t.serverReady && t.serviceReady then [Requested] else [])
    && c' == c.(mode := c'.mode, trace := c'.trace)
  }

  /** Without the server, or when the snapshot cannot be transformed, the client is dropped. With a
      snapshot that is ready it runs, from the first queued update the snapshot does not contain.
      Otherwise it waits, and asks again after the time limit. */
  ghost predicate InitializeTurn(c: State, t: Tick, c': State)
  {
    if !t.serverReady || (c.snapshot.Some? && t.transformFails) then Dropped(c, c')
    else if c.snapshot.Some? && t.snapshotReady then
      && c'.mode == RUNNING && c'.trace == c.trace + [Initialized(c.snapshot.value)]
      && c' == c.(mode := RUNNING, trace := c'.trace, queue := c'.queue)
      && exists n :: DropsFirst(c.queue, c.snapshot.value.number, c'.queue, n)
    else
      c' == c.(trace := c.trace + if c.snapshot.None? && t.timedOut && t.serviceReady then [Requested] else [])
  }

  /** Without the server, or when a queued update cannot be transformed, the client is dropped.
      Otherwise the queued updates are delivered up to the first that is not ready. */
  ghost predicate RunningTurn(c: State, t: Tick, c': State)
  {
    if !t.serverReady || (c.queue != [] && t.transformFails) then Dropped(c, c')
    else Delivers(c, t.ready, c')
  }

  ghost predicate Delivers(c: State, ready: set<nat>, c': State)
  {
    c' == c.(queue := c'.queue, trace := c'.trace) && exists n :: DeliversFirst(c, ready, c', n)
  }

  /** The first n updates are delivered, all of them ready, and the next one is not. */
  ghost predicate DeliversFirst(c: State, ready: set<nat>, c': State, n: int)
  {
    && 0 <= n <= |c.queue| && c'.queue == c.queue[n..] && c'.trace == c.trace + Deliveries(c.queue[..n])
    && (forall i :: 0 <= i < n ==> c.queue[i].number in ready)
    && (n < |c.queue| ==> c.queue[n].number !in ready)
  }

  ghost function Deliveries(us: seq<Update>): seq<Event>
  {
    if us == [] then [] else [Delivered(us[0])] + Deliveries(us[1..])
  }

  lemma {:induction false} PushDelivers(c: State, ready: set<nat>)
    ensures Delivers(c, ready, Push(c, ready))
    decreases |c.queue|
  {
    var c' := Push(c, ready);
    if c.queue != [] && c.queue[0].number in ready {
      var c1 := Record(c, Delivered(c.queue[0])).(queue := c.queue[1..]);
      PushDelivers(c1, ready);
      hide Push;
      var n :| DeliversFirst(c1, ready, c', n);
      OneMoreDelivered(c, c1, ready, c', n);
    } else {
      assert c.queue[0..] == c.queue && c.queue[..0] == [];
      assert DeliversFirst(c, ready, c', 0);
    }
  }

  lemma OneMoreDelivered(c: State, c1: State, ready: set<nat>, c': State, n: int)
    requires c.queue != [] && c.queue[0].number in ready
    requires c1.queue == c.queue[1..] && c1.trace == c.trace + [Delivered(c.queue[0])]
    requires DeliversFirst(c1, ready, c', n)
    ensures DeliversFirst(c, ready, c', n + 1)
  {
    assert c.queue[n + 1..] == c1.queue[n..];
    assert c.queue[..n + 1][1..] == c1.queue[..n];
    assert forall i :: 1 <= i < n + 1 ==> c.queue[i] == c1.queue[i - 1];
  }

  /** The first n updates have numbers up to the bound, and the next one does not. */
  ghost predicate DropsFirst(queue: seq<Update>, upTo: nat, rest: seq<Update>, n: int)
  {
    && 0 <= n <= |queue| && rest == queue[n..]
    && (forall i :: 0 <= i < n ==> queue[i].number <= upTo) && (n < |queue| ==> queue[n].number > upTo)
  }

  lemma {:induction false} PruneDrops(queue: seq<Update>, upTo: nat)
    ensures exists n :: DropsFirst(queue, upTo, Prune(queue, upTo), n)
  {
    if queue != [] && queue[0].number <= upTo {
      PruneDrops(queue[1..], upTo);
      var n :| DropsFirst(queue[1..], upTo, Prune(queue[1..], upTo), n);
      assert queue[n + 1..] == queue[1..][n..];
      assert forall i :: 1 <= i < n + 1 ==> queue[i] == queue[1..][i - 1];
      assert DropsFirst(queue, upTo, Prune(queue, upTo), n + 1);
    } else {
      assert queue[0..] == queue;
      assert DropsFirst(queue, upTo, Prune(queue, upTo), 0);
    }
  }

  lemma TurnDecides(c: State, t: Tick)
    ensures var c' := Turn(c, t);
            if !c.connected then c' == c
            else if c.mode == IDLE then IdleTurn(c, t, c')
            else if c.mode == INITIALIZE then InitializeTurn(c, t, c')
            else RunningTurn(c, t, c')
  {
    hide Prune, Push, Delivers;
    PushDelivers(c, t.ready);
    if c.snapshot.Some? {
      PruneDrops(c.queue, c.snapshot.value.number);
    }
  }

  /** An update in sequence is queued, a full queue losing its oldest entry; any other drops the client. */
  lemma ReceiveDecides(c: State, u: Update)
    ensures var c' := Receive(c, Numbered(u));
            if c.first || u.number == c.last + 1 then
              && !c'.first && c'.last == u.number && c'.mode == c.mode && c'.snapshot == c.snapshot
              && c'.queue == (if |c.queue| >= 101 then c.queue[1..] else c.queue) + [u]
              && c'.trace == c.trace + if |c.queue| >= 101 then [Discarded(c.queue[0])] else []
            else if c.mode == IDLE then c' == c
            else Dropped(c, c')
  {
  }

  datatype Op =
    | DoConnect(named: bool, created: bool)
    | DoDisconnect
    | DoSetTargetFrame(changed: bool)
    | DoSnapshot(s: Snapshot)
    | DoMessage(m: Message)
    | DoUpdate(t: Tick)

  ghost function Next(c: State, op: Op): State
  {
    match op
    case DoConnect(named, created) => Connect(c, named, created)
    case DoDisconnect => Disconnect(c)
    case DoSetTargetFrame(changed) => if changed then GoIdle(c) else c
    case DoSnapshot(s) => ReceiveSnapshot(c, s)
    case DoMessage(m) => Receive(c, m)
    case DoUpdate(t) => Turn(c, t)
  }

  // ---------- reading a trace ----------

  /** Has the initialize callback been called since the last reset? */
  ghost predicate Started(t: seq<Event>)
  {
    if t == [] then false
    else
      var n := |t| - 1;
      match t[n]
      case WasReset => false
      case Initialized(_) => true
      case _ => Started(t[..n])
  }

  /** The last number handed out since the last reset. */
  ghost function LastDelivered(t: seq<Event>): Option<nat>
  {
    if t == [] then None
    else
      var n := |t| - 1;
      match t[n]
      case WasReset => None
      case Delivered(u) => Some(u.number)
      case _ => LastDelivered(t[..n])
  }

  /** Did the queue overflow since the last delivery or reset? */
  ghost predicate Skipped(t: seq<Event>)
  {
    if t == [] then false
    else
      var n := |t| - 1;
      match t[n]
      case WasReset => false
      case Delivered(_) => false
      case Discarded(_) => true
      case _ => Skipped(t[..n])
  }

  /** Every delivery comes after its period's initialize callback, and carries a larger number
      than the one before it - the next one, unless the queue overflowed in between. */
  ghost predicate Orderly(t: seq<Event>)
  {
    t == [] ||
    var n := |t| - 1;
    Orderly(t[..n]) && (t[n].Delivered? ==> MayDeliver(t[..n], t[n].u))
  }

  ghost predicate MayDeliver(t: seq<Event>, u: Update)
  {
    && Started(t)
    && (LastDelivered(t).Some? ==>
          if Skipped(t) then LastDelivered(t).value < u.number else LastDelivered(t).value + 1 == u.number)
  }

  ghost predicate Contiguous(queue: seq<Update>)
  {
    forall i :: 0 <= i < |queue| ==> queue[i].number == queue[0].number + i
  }

  ghost predicate Valid(c: State)
  {
    && Contiguous(c.queue)
    && |c.queue| <= MAX_UPDATE_QUEUE_SIZE + 1
    && (c.queue != [] ==> !c.first && c.queue[|c.queue| - 1].number == c.last)
    && (c.mode == RUNNING <==> Started(c.trace))
    && Orderly(c.trace)
    && match LastDelivered(c.trace)
       case None => true
       case Some(d) =>
         && Started(c.trace) && !c.first
         && var upcoming := if c.queue == [] then c.last + 1 else c.queue[0].number;
            if Skipped(c.trace) then d < upcoming else d + 1 == upcoming
  }

  // ---------- every run ----------

  lemma Recorded(c: State, e: Event)
    ensures var t := Record(c, e).trace;
            && t != [] && t[|t| - 1] == e && t[..|t| - 1] == c.trace
            && Started(t) == (e.Initialized? || (!e.WasReset? && Started(c.trace)))
            && LastDelivered(t) == (if e.WasReset? then None else if e.Delivered? then Some(e.u.number)
                                    else LastDelivered(c.trace))
            && Skipped(t) == (e.Discarded? || (!e.WasReset? && !e.Delivered? && Skipped(c.trace)))
            && Orderly(t) == (Orderly(c.trace) && (e.Delivered? ==> MayDeliver(c.trace, e.u)))
  {
  }

  lemma ResetKeepsValid(c: State)
    requires Orderly(c.trace)
    ensures Valid(Reset(c))
  {
    hide Started, LastDelivered, Skipped, Orderly;
    Recorded(c, WasReset);
  }

  lemma RequestKeepsValid(c: State, serviceReady: bool)
    requires Valid(c)
    ensures Valid(Request(c, serviceReady))
  {
    hide Started, LastDelivered, Skipped, Orderly;
    Recorded(c, Requested);
  }

  lemma EnqueueKeepsValid(c: State, u: Update)
    requires Valid(c) && (c.first || u.number == c.last + 1)
    ensures Valid(Enqueue(c, u))
  {
    hide Started, LastDelivered, Skipped, Orderly;
    if |c.queue| > MAX_UPDATE_QUEUE_SIZE {
      Recorded(c.(first := false, last := u.number), Discarded(c.queue[0]));
    }
  }

  lemma {:induction false} PruneIsSuffix(queue: seq<Update>, upTo: nat)
    requires Contiguous(queue)
    ensures var q := Prune(queue, upTo);
            && |q| <= |queue| && q == queue[|queue| - |q|..] && Contiguous(q)
            && (q != [] ==> q[0].number > upTo)
            && (|q| < |queue| ==> queue[|queue| - |q| - 1].number <= upTo)
    decreases |queue|
  {
    if queue != [] && queue[0].number <= upTo {
      assert forall i :: 0 <= i < |queue[1..]| ==> queue[1..][i] == queue[i + 1];
      PruneIsSuffix(queue[1..], upTo);
    }
  }

  lemma FinishKeepsValid(c: State, s: Snapshot)
    requires Valid(c) && c.mode == INITIALIZE
    ensures Valid(FinishInitialize(c, s))
  {
    hide Started, LastDelivered, Skipped, Orderly;
    PruneIsSuffix(c.queue, s.number);
    Recorded(c.(queue := Prune(c.queue, s.number), mode := RUNNING), Initialized(s));
  }

  lemma {:induction false} PushKeepsValid(c: State, ready: set<nat>)
    requires Valid(c) && c.mode == RUNNING
    ensures Valid(Push(c, ready)) && Push(c, ready).mode == RUNNING
    decreases |c.queue|
  {
    hide Started, LastDelivered, Skipped, Orderly;
    if c.queue != [] && c.queue[0].number in ready {
      var c1 := Record(c, Delivered(c.queue[0])).(queue := c.queue[1..]);
      Recorded(c, Delivered(c.queue[0]));
      assert forall i :: 0 <= i < |c1.queue| ==> c1.queue[i] == c.queue[i + 1];
      PushKeepsValid(c1, ready);
    }
  }

  lemma NextKeepsValid(c: State, op: Op)
    requires Valid(c)
    ensures Valid(Next(c, op))
  {
    hide Started, LastDelivered, Skipped, Orderly;
    ResetKeepsValid(c);
    match op {
      case DoConnect(named, created) =>
        ResetKeepsValid(GoIdle(c).(connected := false));
        ResetKeepsValid(Disconnect(GoIdle(c)).(connected := false));
      case DoDisconnect => ResetKeepsValid(c.(connected := false));
      case DoSetTargetFrame(_) =>
      case DoSnapshot(_) =>
      case DoMessage(m) =>
        if m.Numbered? && (c.first || m.u.number == c.last + 1) {
          EnqueueKeepsValid(c, m.u);
        }
      case DoUpdate(t) =>
        RequestKeepsValid(c, t.serviceReady);
        if c.mode == RUNNING {
          PushKeepsValid(c, t.ready);
        } else if c.mode == INITIALIZE && c.snapshot.Some? {
          FinishKeepsValid(c, c.snapshot.value);
        }
    }
  }

  ghost predicate IsRun(states: seq<State>, ops: seq<Op>)
  {
    && |states| == |ops| + 1
    && states[0] == START
    && forall i :: 0 <= i < |ops| ==> states[i + 1] == Next(states[i], ops[i])
  }

  /** In every run, whatever arrives, the queue is a contiguous run of numbers ending at the last
      accepted one, never longer than 101, and the trace is orderly. */
  lemma {:induction false} EveryRunIsValid(states: seq<State>, ops: seq<Op>, i: nat)
    requires IsRun(states, ops) && i < |states|
    ensures Valid(states[i])
  {
    if i > 0 {
      EveryRunIsValid(states, ops, i - 1);
      assert states[i - 1 + 1] == Next(states[i - 1], ops[i - 1]);
      NextKeepsValid(states[i - 1], ops[i - 1]);
    }
  }

  // ---------- what an orderly trace says about any two deliveries ----------

  lemma {:induction false} OrderlyPrefix(t: seq<Event>, n: nat)
    requires Orderly(t) && n <= |t|
    ensures Orderly(t[..n])
    decreases |t|
  {
    if n == |t| {
      assert t[..n] == t;
    } else {
      assert t[..|t| - 1][..n] == t[..n];
      OrderlyPrefix(t[..|t| - 1], n);
    }
  }

  /** Without a reset since position i, the last delivery is at least the one at i. */
  lemma {:induction false} DeliveriesGrow(t: seq<Event>, i: nat)
    requires Orderly(t) && i < |t| && t[i].Delivered?
    requires forall x :: i < x < |t| ==> !t[x].WasReset?
    ensures LastDelivered(t).Some? && LastDelivered(t).value >= t[i].u.number
    ensures (forall x :: i < x < |t| ==> !t[x].Delivered?) ==> LastDelivered(t).value == t[i].u.number
    ensures (forall x :: i < x < |t| ==> !t[x].Delivered? && !t[x].Discarded?) ==> !Skipped(t)
    decreases |t|
  {
    var n := |t| - 1;
    if i < n {
      DeliveriesGrow(t[..n], i);
    }
  }

  /** Between two resets the numbers handed out strictly increase. */
  lemma LaterDeliveriesAreLarger(t: seq<Event>, i: nat, j: nat)
    requires Orderly(t) && i < j < |t| && t[i].Delivered? && t[j].Delivered?
    requires forall x :: i < x < j ==> !t[x].WasReset?
    ensures t[i].u.number < t[j].u.number
  {
    OrderlyPrefix(t, j + 1);
    OrderlyPrefix(t, j);
    assert t[..j + 1][..j] == t[..j];
    DeliveriesGrow(t[..j], i);
  }

  /** Successive deliveries are consecutive unless the queue overflowed between them. */
  lemma SuccessiveDeliveriesAreConsecutive(t: seq<Event>, i: nat, j: nat)
    requires Orderly(t) && i < j < |t| && t[i].Delivered? && t[j].Delivered?
    requires forall x :: i < x < j ==> !t[x].WasReset? && !t[x].Delivered? && !t[x].Discarded?
    ensures t[j].u.number == t[i].u.number + 1
  {
    OrderlyPrefix(t, j + 1);
    OrderlyPrefix(t, j);
    assert t[..j + 1][..j] == t[..j];
    DeliveriesGrow(t[..j], i);
  }

  lemma {:induction false} StartedMeansInitialized(t: seq<Event>) returns (i: nat)
    requires Started(t)
    ensures i < |t| && t[i].Initialized? && forall x :: i < x < |t| ==> !t[x].WasReset?
    decreases |t|
  {
    var n := |t| - 1;
    if t[n].Initialized? {
      i := n;
    } else {
      i := StartedMeansInitialized(t[..n]);
      assert forall x :: i < x < n ==> t[..n][x] == t[x];
    }
  }

  /** Nothing is handed out before the initialize callback of the same period. */
  lemma DeliveryFollowsInitialize(t: seq<Event>, j: nat) returns (i: nat)
    requires Orderly(t) && j < |t| && t[j].Delivered?
    ensures i < j && t[i].Initialized? && forall x :: i < x < j ==> !t[x].WasReset?
  {
    OrderlyPrefix(t, j + 1);
    assert t[..j + 1][..j] == t[..j];
    i := StartedMeansInitialized(t[..j]);
    assert forall x :: i < x < j ==> t[..j][x] == t[x];
  }

  // ---------- the client object ----------

  class Client {
    var connected: bool
    var mode: Mode
    var first: bool
    var last: nat
    var snapshot: Option<Snapshot>
    var queue: seq<Update>
    ghost var trace: seq<Event>

    ghost function Abs(): State
      reads this
    {
      State(connected, mode, first, last, snapshot, queue, trace)
    }

    constructor ()
      ensures Abs() == START && Valid(Abs())
    {
      connected, mode, first, last, snapshot, queue, trace := false, IDLE, true, 0, None, [], [];
    }

    method ResetClient()
      requires Valid(Abs())
      modifies this
      ensures Valid(Abs()) && Abs() == Reset(old(Abs()))
    {
      hide Started, LastDelivered, Skipped, Orderly;
      ResetKeepsValid(Abs());
      mode, first, snapshot, queue := IDLE, true, None, [];
      trace := trace + [WasReset];
    }

    method ChangeState(newMode: Mode, serviceReady: bool)
      requires Valid(if newMode == RUNNING then Abs().(mode := RUNNING) else Abs())
      requires newMode == INITIALIZE ==> mode == IDLE  // the only caller
      modifies this
      ensures Valid(Abs())
      ensures Abs() == match newMode
                       case IDLE => GoIdle(old(Abs()))
                       case INITIALIZE => Request(old(Abs()), serviceReady).(mode := INITIALIZE)
                       case RUNNING => old(Abs()).(mode := RUNNING)
    {
      hide Started, LastDelivered, Skipped, Orderly;
      if mode == newMode {
        return;
      }
      match newMode {
        case IDLE => ResetClient();
        case INITIALIZE => SendRequest(serviceReady);
        case RUNNING =>
      }
      mode := newMode;
    }

    method SendRequest(serviceReady: bool)
      requires Valid(Abs())
      modifies this`trace
      ensures Valid(Abs()) && Abs() == Request(old(Abs()), serviceReady)
    {
      hide Started, LastDelivered, Skipped, Orderly;
      RequestKeepsValid(Abs(), serviceReady);
      if !connected || !serviceReady {
        return;
      }
      trace := trace + [Requested];
    }

    method ConnectTo(named: bool, created: bool)
      requires Valid(Abs())
      modifies this
      ensures Valid(Abs()) && Abs() == Connect(old(Abs()), named, created)
      ensures connected == (named && created) && mode == IDLE && first && snapshot == None && queue == []
      ensures |trace| > |old(trace)| && trace[|trace| - 1] == WasReset
    {
      hide Started, LastDelivered, Skipped, Orderly;
      ChangeState(IDLE, false);
      DisconnectClient();
      if !named {
        return;
      }
      connected := true;
      if !created {
        DisconnectClient();
      }
    }

    method DisconnectClient()
      requires Valid(Abs())
      modifies this
      ensures Valid(Abs()) && Abs() == Disconnect(old(Abs()))
      ensures !connected && Dropped(old(Abs()).(connected := false), Abs())
    {
      hide Started, LastDelivered, Skipped, Orderly;
      connected := false;
      ResetClient();
    }

    method SetTargetFrame(changed: bool)
      requires Valid(Abs())
      modifies this
      ensures Valid(Abs()) && Abs() == Next(old(Abs()), DoSetTargetFrame(changed))
      ensures if changed && old(mode) != IDLE then Dropped(old(Abs()), Abs()) else Abs() == old(Abs())
    {
      hide Started, LastDelivered, Skipped, Orderly;
      if changed {
        ChangeState(IDLE, false);
      }
    }

    method ProcessInitialMessage(s: Snapshot)
      requires Valid(Abs())
      modifies this`snapshot
      ensures Valid(Abs()) && Abs() == ReceiveSnapshot(old(Abs()), s)
    {
      snapshot := Some(s);
    }

    method ProcessUpdate(m: Message)
      requires Valid(Abs())
      modifies this
      ensures Valid(Abs()) && Abs() == Receive(old(Abs()), m)
      ensures m.KeepAlive? ==> Abs() == old(Abs())
      ensures m.Numbered? && (old(first) || m.u.number == old(last) + 1) ==>
                !first && last == m.u.number &&
                 queue == (if |old(queue)| >= 101 then old(queue)[1..] else old(queue)) + [m.u]
      ensures m.Numbered? && !(old(first) || m.u.number == old(last) + 1) ==> mode == IDLE
    {
      hide Started, LastDelivered, Skipped, Orderly;
      NextKeepsValid(Abs(), DoMessage(m));
      if m.KeepAlive? {
        return;
      }
      if !first && m.u.number != last + 1 {
        ChangeState(IDLE, false);
        return;
      }
      first, last := false, m.u.number;
      if |queue| > MAX_UPDATE_QUEUE_SIZE {
        trace := trace + [Discarded(queue[0])];
        queue := queue[1..];
      }
      queue := queue + [m.u];
    }

    method CheckInitializeFinished(t: Tick) returns (finished: bool)
      requires Valid(Abs()) && mode == INITIALIZE
      modifies this
      ensures finished <==> old(snapshot).Some? && t.snapshotReady
      ensures finished ==> Abs().(mode := RUNNING) == FinishInitialize(old(Abs()), old(snapshot).value)
      ensures !finished ==> Valid(Abs())
      ensures !finished ==>
                Abs() == if old(snapshot).None? && t.timedOut then Request(old(Abs()), t.serviceReady) else old(Abs())
      ensures mode == INITIALIZE
    {
      hide Started, LastDelivered, Skipped, Orderly;
      if snapshot.None? {
        if t.timedOut {
          SendRequest(t.serviceReady);
        }
        return false;
      }
      if !t.snapshotReady {
        return false;
      }
      var upTo := snapshot.value.number;
      while queue != [] && queue[0].number <= upTo
        invariant Prune(queue, upTo) == Prune(old(queue), upTo)
        invariant Abs() == old(Abs()).(queue := queue)
        decreases |queue|
      {
        queue := queue[1..];
      }
      trace := trace + [Initialized(snapshot.value)];
      return true;
    }

    method PushUpdates(ready: set<nat>)
      requires Valid(Abs()) && mode == RUNNING
      modifies this`queue, this`trace
      ensures Valid(Abs()) && Abs() == Push(old(Abs()), ready)
    {
      hide Started, LastDelivered, Skipped, Orderly;
      PushKeepsValid(Abs(), ready);
      while queue != [] && queue[0].number in ready
        invariant Push(Abs(), ready) == Push(old(Abs()), ready)
        decreases |queue|
      {
        trace := trace + [Delivered(queue[0])];
        queue := queue[1..];
      }
    }

    method UpdateClient(t: Tick)
      requires Valid(Abs())
      modifies this
      ensures Valid(Abs()) && Abs() == Turn(old(Abs()), t)
      ensures !old(connected) ==> Abs() == old(Abs())
      ensures old(connected) && old(mode) == IDLE ==> IdleTurn(old(Abs()), t, Abs())
      ensures old(connected) && old(mode) == INITIALIZE ==> InitializeTurn(old(Abs()), t, Abs())
      ensures old(connected) && old(mode) == RUNNING ==> RunningTurn(old(Abs()), t, Abs())
      ensures old(connected) && old(mode) == RUNNING ==>
                (mode == RUNNING <==> t.serverReady && !(old(queue) != [] && t.transformFails))
      ensures old(connected) && old(mode) == INITIALIZE ==>
                (mode == RUNNING <==> t.serverReady && old(snapshot).Some? && !t.transformFails && t.snapshotReady)
    {
      TurnDecides(Abs(), t);
      hide Started, LastDelivered, Skipped, Orderly;
      ghost var before := Abs();
      if !connected {
        return;
      }
      match mode {
        case IDLE =>
          if t.serverReady {
            ChangeState(INITIALIZE, t.serviceReady);
          }
        case INITIALIZE =>
          if !t.serverReady {
            ChangeState(IDLE, false);
          } else if snapshot.Some? && t.transformFails {
            ChangeState(IDLE, false);
          } else {
            var finished := CheckInitializeFinished(t);
            if finished {
              FinishKeepsValid(before, before.snapshot.value);
              ChangeState(RUNNING, false);
            }
          }
        case RUNNING =>
          if !t.serverReady {
            ChangeState(IDLE, false);
          } else if queue != [] && t.transformFails {
            ChangeState(IDLE, false);
          } else {
            PushUpdates(t.ready);
          }
      }
    }
  }
}
