/**
 The interactive-marker server: the markers clients know about, the changes waiting for the
 next applyChanges, and the number of the last published update.

 State and the functions on it say what every operation does; class Server performs the
 operations in place and is proved against them.
 */
module MarkerServer {
  import opened Wrappers
  import opened Markers

  datatype UpdateKind = FULL_UPDATE | POSE_UPDATE | ERASE

  datatype UpdateContext = UpdateContext(kind: UpdateKind, marker: Marker)

  datatype MarkerContext = MarkerContext(marker: Marker, lastFeedback: int, lastClient: string)

  datatype Feedback = Feedback(marker: string, client: string, isPoseUpdate: bool, header: Header, pose: Pose)

  datatype State = State(contexts: map<string, MarkerContext>, pending: map<string, UpdateContext>, number: nat)

  const ONE_SECOND := 1_000_000_000  // in nanoseconds

  const BLANK_MARKER := Marker("", Header("", 0), Pose((0.0, 0.0, 0.0), (0.0, 0.0, 0.0, 0.0)), Body("", 0.0, []))

  const START := State(map[], map[], 0)

  ghost predicate Valid(st: State)
  {
    && (forall k :: k in st.contexts ==> st.contexts[k].marker.name == k)
    && (forall k :: k in st.pending && st.pending[k].kind == FULL_UPDATE ==> st.pending[k].marker.name == k)
    && (forall k :: k in st.pending && st.pending[k].kind == POSE_UPDATE ==> k in st.contexts)
  }

  /** The marker map a client should end up with. */
  function View(contexts: map<string, MarkerContext>): Replica
  {
    map k | k in contexts :: contexts[k].marker
  }

  // ---------- the operations on values ----------

  function Insert(st: State, m: Marker): State
  {
    st.(pending := st.pending[m.name := UpdateContext(FULL_UPDATE, m)])
  }

  function Erase(st: State, name: string): State
  {
    if name !in st.contexts && name !in st.pending then st
    else st.(pending := st.pending[name := UpdateContext(ERASE, PendingMarker(st.pending, name))])
  }

  function PendingMarker(pending: map<string, UpdateContext>, name: string): Marker
  {
    if name in pending then pending[name].marker else BLANK_MARKER
  }

  function Clear(st: State): State
  {
    st.(pending := map k | k in st.contexts :: UpdateContext(ERASE, BLANK_MARKER))
  }

  function DoSetPose(st: State, name: string, pose: Pose, header: Header): State
  {
    var kind := if name in st.pending && st.pending[name].kind == FULL_UPDATE then FULL_UPDATE else POSE_UPDATE;
    var marker := PendingMarker(st.pending, name).(pose := pose, header := header);
    st.(pending := st.pending[name := UpdateContext(kind, marker)])
  }

  predicate CanSetPose(st: State, name: string)
  {
    name in st.contexts || (name in st.pending && st.pending[name].kind == FULL_UPDATE)
  }

  function SetPose(st: State, name: string, pose: Pose, header: Header): State
  {
    if !CanSetPose(st, name) then st
    else if header.frame != "" then DoSetPose(st, name, pose, header)
    else if name in st.contexts then DoSetPose(st, name, pose, st.contexts[name].marker.header)
    else DoSetPose(st, name, pose, st.pending[name].marker.header)
  }

  /** Feedback is taken unless another client's feedback was taken less than a second ago. */
  predicate Accepts(st: State, f: Feedback, checkedAt: int)
  {
    f.marker in st.contexts &&
    (st.contexts[f.marker].lastClient == f.client || checkedAt - st.contexts[f.marker].lastFeedback >= ONE_SECOND)
  }

  function ProcessFeedback(st: State, f: Feedback, checkedAt: int, recordedAt: int): State
  {
    if !Accepts(st, f, checkedAt) then st
    else
      var c := st.contexts[f.marker];
      var st1 := st.(contexts := st.contexts[f.marker := c.(lastFeedback := recordedAt, lastClient := f.client)]);
      if !f.isPoseUpdate then st1
      else DoSetPose(st1, f.marker, f.pose, if c.marker.header.stamp == 0 then c.marker.header else f.header)
  }

  /** What a name will stand for once the pending changes are applied. */
  function Outcome(st: State, k: string): Option<Marker>
  {
    if k !in st.pending then
      if k in st.contexts then Some(st.contexts[k].marker) else None
    else
      var u := st.pending[k];
      match u.kind
      case FULL_UPDATE => Some(u.marker)
      case POSE_UPDATE =>
        if k in st.contexts then Some(st.contexts[k].marker.(pose := u.marker.pose, header := u.marker.header))
            else None
      case ERASE => None
  }

  /** The context kept for a surviving name; a new one has had no feedback yet. */
  function ContextAfter(st: State, k: string): MarkerContext
    requires Outcome(st, k).Some?
  {
    if k in st.contexts then st.contexts[k].(marker := Outcome(st, k).value)
    else MarkerContext(Outcome(st, k).value, 0, "")
  }

  function AfterApply(st: State): State
  {
    if st.pending == map[] then st
    else
      State(map k | k in st.contexts.Keys + st.pending.Keys && Outcome(st, k).Some? :: ContextAfter(st, k),
            map[], st.number + 1)
  }

  // ---------- what each operation is for ----------

  /** The markers that will exist after the next applyChanges. */
  function Upcoming(st: State): Replica
  {
    View(AfterApply(st).contexts)
  }

  lemma UpcomingAt(st: State, k: string)
    ensures At(Upcoming(st), k) == Outcome(st, k)
  {
  }

  /** The marker a new pose goes to: the one about to be inserted, or else the existing one, even
      if it was about to be erased. */
  function Posed(st: State, name: string): Marker
    requires CanSetPose(st, name)
  {
    if name in st.pending && st.pending[name].kind == FULL_UPDATE then st.pending[name].marker
    else st.contexts[name].marker
  }

  lemma InsertShows(st: State, m: Marker)
    ensures Upcoming(Insert(st, m)) == Upcoming(st)[m.name := m]
  {
    forall k ensures At(Upcoming(Insert(st, m)), k) == At(Upcoming(st)[m.name := m], k) {
      UpcomingAt(st, k);
      UpcomingAt(Insert(st, m), k);
    }
    SameEverywhere(Upcoming(Insert(st, m)), Upcoming(st)[m.name := m]);
  }

  lemma EraseShows(st: State, name: string)
    ensures Upcoming(Erase(st, name)) == Upcoming(st) - {name}
  {
    forall k ensures At(Upcoming(Erase(st, name)), k) == At(Upcoming(st) - {name}, k) {
      UpcomingAt(st, k);
      UpcomingAt(Erase(st, name), k);
    }
    SameEverywhere(Upcoming(Erase(st, name)), Upcoming(st) - {name});
  }

  lemma ClearShows(st: State)
    ensures Upcoming(Clear(st)) == map[]
  {
    forall k ensures At(Upcoming(Clear(st)), k) == At(map[], k) {
      UpcomingAt(Clear(st), k);
    }
    SameEverywhere(Upcoming(Clear(st)), map[]);
  }

  lemma DoSetPoseShows(st: State, name: string, pose: Pose, header: Header)
    requires CanSetPose(st, name)
    ensures Upcoming(DoSetPose(st, name, pose, header)) ==
            Upcoming(st)[name := Posed(st, name).(pose := pose, header := header)]
  {
    var st', shown := DoSetPose(st, name, pose, header), Posed(st, name).(pose := pose, header := header);
    forall k ensures At(Upcoming(st'), k) == At(Upcoming(st)[name := shown], k) {
      UpcomingAt(st, k);
      UpcomingAt(st', k);
    }
    SameEverywhere(Upcoming(st'), Upcoming(st)[name := shown]);
  }

  lemma DoSetPoseKeepsValid(st: State, name: string, pose: Pose, header: Header)
    requires Valid(st) && CanSetPose(st, name)
    ensures Valid(DoSetPose(st, name, pose, header))
  {
  }

  /** Remembering a client changes no marker. */
  lemma RememberingShows(st: State, name: string, at: int, client: string)
    requires name in st.contexts
    ensures var mc := st.contexts[name].(lastFeedback := at, lastClient := client);
            var st' := st.(contexts := st.contexts[name := mc]);
            Upcoming(st') == Upcoming(st) && CanSetPose(st', name) && Posed(st', name) == Posed(st, name)
  {
    var st' := st.(contexts := st.contexts[name := st.contexts[name].(lastFeedback := at, lastClient := client)]);
    forall k ensures At(Upcoming(st'), k) == At(Upcoming(st), k) {
      UpcomingAt(st, k);
      UpcomingAt(st', k);
    }
    SameEverywhere(Upcoming(st'), Upcoming(st));
  }

  ghost predicate DistinctMarkers(ms: seq<Marker>)
  {
    forall i, j :: 0 <= i < j < |ms| ==> ms[i].name != ms[j].name
  }

  ghost predicate DistinctPoses(ps: seq<PoseUpdate>)
  {
    forall i, j :: 0 <= i < j < |ps| ==> ps[i].name != ps[j].name
  }

  /** u is a message applyChanges may publish in state st; the order within each list is open. */
  ghost predicate Publishes(st: State, u: Update)
  {
    && u.number == st.number + 1
    && DistinctMarkers(u.markers)
    && DistinctPoses(u.poses)
    && (forall m :: m in u.markers <==>
          m.name in st.pending && st.pending[m.name] == UpdateContext(FULL_UPDATE, m))
    && (forall p :: p in u.poses <==>
          p.name in st.pending && p.name in st.contexts && st.pending[p.name].kind == POSE_UPDATE
          && p.pose == st.pending[p.name].marker.pose && p.header == st.pending[p.name].marker.header)
    && (forall k :: k in u.erases <==> k in st.pending && k in st.contexts && st.pending[k].kind == ERASE)
  }

  ghost predicate Replies(st: State, r: Snapshot)
  {
    && r.number == st.number
    && DistinctMarkers(r.markers)
    && forall m :: m in r.markers <==> m.name in st.contexts && m == st.contexts[m.name].marker
  }

  // ---------- what is published is what happened ----------

  lemma {:induction false} PutEffectOfListed(ms: seq<Marker>, i: nat)
    requires i < |ms| && DistinctMarkers(ms)
    ensures PutEffect(ms, ms[i].name) == Become(Some(ms[i]))
    decreases |ms|
  {
    if i == 0 {
      assert forall m :: m in ms[1..] ==> m.name != ms[0].name;
      PutEffectOfUnlisted(ms[1..], ms[0].name);
    } else {
      PutEffectOfListed(ms[1..], i - 1);
    }
  }

  lemma {:induction false} PutEffectOfUnlisted(ms: seq<Marker>, k: string)
    requires forall m :: m in ms ==> m.name != k
    ensures PutEffect(ms, k) == Keep
    decreases |ms|
  {
    if ms != [] {
      PutEffectOfUnlisted(ms[1..], k);
    }
  }

  lemma {:induction false} MoveEffectOfListed(ps: seq<PoseUpdate>, i: nat)
    requires i < |ps| && DistinctPoses(ps)
    ensures MoveEffect(ps, ps[i].name) == Move(ps[i].header, ps[i].pose)
    decreases |ps|
  {
    if i == 0 {
      assert forall p :: p in ps[1..] ==> p.name != ps[0].name;
      MoveEffectOfUnlisted(ps[1..], ps[0].name);
    } else {
      MoveEffectOfListed(ps[1..], i - 1);
    }
  }

  lemma {:induction false} MoveEffectOfUnlisted(ps: seq<PoseUpdate>, k: string)
    requires forall p :: p in ps ==> p.name != k
    ensures MoveEffect(ps, k) == Keep
    decreases |ps|
  {
    if ps != [] {
      MoveEffectOfUnlisted(ps[1..], k);
    }
  }

  lemma PublishedPut(st: State, u: Update, k: string)
    requires Valid(st) && Publishes(st, u)
    ensures PutEffect(u.markers, k) ==
            if k in st.pending && st.pending[k].kind == FULL_UPDATE then Become(Some(st.pending[k].marker)) else Keep
  {
    if k in st.pending && st.pending[k].kind == FULL_UPDATE {
      var m := st.pending[k].marker;
      assert m in u.markers;
      var i :| 0 <= i < |u.markers| && u.markers[i] == m;
      PutEffectOfListed(u.markers, i);
    } else {
      PutEffectOfUnlisted(u.markers, k);
    }
  }

  lemma PublishedMove(st: State, u: Update, k: string)
    requires Valid(st) && Publishes(st, u)
    ensures MoveEffect(u.poses, k) ==
            if k in st.pending && k in st.contexts && st.pending[k].kind == POSE_UPDATE
            then Move(st.pending[k].marker.header, st.pending[k].marker.pose) else Keep
  {
    if k in st.pending && k in st.contexts && st.pending[k].kind == POSE_UPDATE {
      var p := PoseUpdate(k, st.pending[k].marker.header, st.pending[k].marker.pose);
      assert p in u.poses;
      var i :| 0 <= i < |u.poses| && u.poses[i] == p;
      MoveEffectOfListed(u.poses, i);
    } else {
      MoveEffectOfUnlisted(u.poses, k);
    }
  }

  /** A client that applies the published message moves from the server's old markers
      exactly to its new ones. */
  lemma PublishedUpdateReproducesServer(st: State, u: Update)
    requires Valid(st) && st.pending != map[] && Publishes(st, u)
    ensures Apply(View(st.contexts), u) == View(AfterApply(st).contexts)
  {
    var before, after := View(st.contexts), View(AfterApply(st).contexts);
    forall k ensures At(Apply(before, u), k) == At(after, k) {
      ApplyAt(before, u, k);
      PublishedPut(st, u, k);
      PublishedMove(st, u, k);
      assert At(after, k) == Outcome(st, k);
    }
    SameEverywhere(Apply(before, u), after);
  }

  /** A client that starts from a reply starts from the server's markers. */
  lemma ReplyShowsServer(st: State, r: Snapshot)
    requires Valid(st) && Replies(st, r)
    ensures FromSnapshot(r) == View(st.contexts)
  {
    var none: Replica := map[];
    forall k ensures At(FromSnapshot(r), k) == At(View(st.contexts), k) {
      PutMarkersAt(none, r.markers, k);
      if k in st.contexts {
        assert st.contexts[k].marker in r.markers;
        var i :| 0 <= i < |r.markers| && r.markers[i] == st.contexts[k].marker;
        PutEffectOfListed(r.markers, i);
      } else {
        PutEffectOfUnlisted(r.markers, k);
      }
    }
    SameEverywhere(FromSnapshot(r), View(st.contexts));
  }

  // ---------- runs ----------

  datatype Op =
    | DoInsert(m: Marker)
    | DoErase(name: string)
    | DoClear
    | DoPose(name: string, pose: Pose, header: Header)
    | DoFeedback(f: Feedback, checkedAt: int, recordedAt: int)
    | DoApply(u: Update)

  function Next(st: State, op: Op): State
  {
    match op
    case DoInsert(m) => Insert(st, m)
    case DoErase(name) => Erase(st, name)
    case DoClear => Clear(st)
    case DoPose(name, pose, header) => SetPose(st, name, pose, header)
    case DoFeedback(f, checkedAt, recordedAt) => ProcessFeedback(st, f, checkedAt, recordedAt)
    case DoApply(_) => AfterApply(st)
  }

  /** The clock does not run backwards between its two reads, and what is published is a
      message for the pending changes. */
  ghost predicate Allowed(st: State, op: Op)
  {
    match op
    case DoFeedback(_, checkedAt, recordedAt) => checkedAt <= recordedAt
    case DoApply(u) => st.pending != map[] ==> Publishes(st, u)
    case _ => true
  }

  ghost predicate IsRun(states: seq<State>, ops: seq<Op>)
  {
    && |states| == |ops| + 1
    && states[0] == START
    && forall i :: 0 <= i < |ops| ==> Allowed(states[i], ops[i]) && states[i + 1] == Next(states[i], ops[i])
  }

  lemma NextKeepsValid(st: State, op: Op)
    requires Valid(st)
    ensures Valid(Next(st, op))
  {
    if op.DoApply? && st.pending != map[] {
      var st' := AfterApply(st);
      forall k | k in st'.contexts ensures st'.contexts[k].marker.name == k {
        assert st'.contexts[k] == ContextAfter(st, k);
      }
    }
  }

  /** In every reachable state each pending pose update names an existing marker, so
      applyChanges never meets one for a marker that does not exist. */
  lemma {:induction false} ReachableIsValid(states: seq<State>, ops: seq<Op>, i: nat)
    requires IsRun(states, ops) && i < |states|
    ensures Valid(states[i])
  {
    if i > 0 {
      ReachableIsValid(states, ops, i - 1);
      NextKeepsValid(states[i - 1], ops[i - 1]);
    }
  }

  ghost predicate AcceptedAt(states: seq<State>, ops: seq<Op>, i: nat, name: string)
    requires IsRun(states, ops) && i < |ops|
  {
    ops[i].DoFeedback? && ops[i].f.marker == name && Accepts(states[i], ops[i].f, ops[i].checkedAt)
  }

  lemma {:induction false} LastFeedbackIsRemembered(states: seq<State>, ops: seq<Op>, name: string, i: nat, j: nat)
    requires IsRun(states, ops) && i < j < |states|
    requires AcceptedAt(states, ops, i, name)
    requires forall x :: i < x < j ==> !AcceptedAt(states, ops, x, name)
    requires forall x :: i < x <= j ==> name in states[x].contexts
    ensures states[j].contexts[name].lastClient == ops[i].f.client
    ensures states[j].contexts[name].lastFeedback == ops[i].recordedAt
    decreases j
  {
    if j > i + 1 {
      LastFeedbackIsRemembered(states, ops, name, i, j - 1);
      assert !AcceptedAt(states, ops, j - 1, name) && states[j - 1 + 1] == Next(states[j - 1], ops[j - 1]);
    }
  }

  /** Successive accepted feedback from different clients for one marker context is at least
      a second apart, whatever rejected feedback and other operations lie between. */
  lemma FeedbackFromDifferentClientsIsSpaced(states: seq<State>, ops: seq<Op>, name: string, i: nat, j: nat)
    requires IsRun(states, ops) && i < j < |ops|
    requires AcceptedAt(states, ops, i, name) && AcceptedAt(states, ops, j, name)
    requires forall x :: i < x < j ==> !AcceptedAt(states, ops, x, name)
    requires forall x :: i < x <= j ==> name in states[x].contexts
    requires ops[i].f.client != ops[j].f.client
    ensures ops[j].recordedAt >= ops[i].recordedAt + 1_000_000_000
  {
    LastFeedbackIsRemembered(states, ops, name, i, j);
    assert Allowed(states[j], ops[j]);
  }

  /** After an accepted feedback, the next one is accepted exactly if it comes from the same client
      or is checked at least a second after that was recorded. */
  lemma AcceptedIffSpaced(states: seq<State>, ops: seq<Op>, name: string, i: nat, j: nat)
    requires IsRun(states, ops) && i < j < |ops|
    requires AcceptedAt(states, ops, i, name) && ops[j].DoFeedback? && ops[j].f.marker == name
    requires forall x :: i < x < j ==> !AcceptedAt(states, ops, x, name)
    requires forall x :: i < x <= j ==> name in states[x].contexts
    ensures AcceptedAt(states, ops, j, name) <==>
              ops[j].f.client == ops[i].f.client || ops[j].checkedAt >= ops[i].recordedAt + 1_000_000_000
  {
    LastFeedbackIsRemembered(states, ops, name, i, j);
  }

  // ---------- the server object ----------

  class Server {
    var contexts: map<string, MarkerContext>
    var pending: map<string, UpdateContext>
    var number: nat

    ghost function Abs(): State
      reads this
    {
      State(contexts, pending, number)
    }

    constructor ()
      ensures Abs() == START
    {
      contexts, pending, number := map[], map[], 0;
    }

    /** One turn of the loop in ApplyChanges. */
    method ApplyOne(ghost st: State, u0: Update, ghost todo: set<string>, name: string) returns (u: Update)
      requires Valid(st) && pending == st.pending && name in todo && name in pending
      requires PartlyApplied(st, contexts, todo) && PartlyPublished(st, u0, todo)
      modifies this`contexts
      ensures PartlyApplied(st, contexts, todo - {name}) && PartlyPublished(st, u, todo - {name})
    {
      hide PartlyPublished;
      u := u0;
      var update := pending[name];
      ghost var contexts0 := contexts;
      match update.kind {
        case FULL_UPDATE =>
          if name !in contexts {
            contexts := contexts[name := MarkerContext(BLANK_MARKER, 0, "")];
          }
          contexts := contexts[name := contexts[name].(marker := update.marker)];
          u := u.(markers := u.markers + [contexts[name].marker]);
          MarkerPublished(st, u0, todo, name);
        case POSE_UPDATE =>
          if name in contexts {
            var m := contexts[name].marker.(pose := update.marker.pose, header := update.marker.header);
            contexts := contexts[name := contexts[name].(marker := m)];
            u := u.(poses := u.poses + [PoseUpdate(m.name, m.header, m.pose)]);
            PosePublished(st, u0, todo, name);
          } else {
            assert false;  // "This is a bug in InteractiveMarkerInterface."
          }
        case ERASE =>
          if name in contexts {
            contexts := contexts - {name};
            u := u.(erases := u.erases + [name]);
          }
          ErasePublished(st, u0, todo, name);
      }
      ContextApplied(st, contexts0, contexts, todo, name);
    }

    method ApplyPending(ghost st: State) returns (u: Update)
      requires Valid(Abs()) && st == Abs()
      modifies this`contexts
      ensures PartlyApplied(st, contexts, {}) && PartlyPublished(st, u, {})
    {
      u := Update(0, [], [], []);
      var todo := pending.Keys;
      while todo != {}
        invariant todo <= pending.Keys
        invariant PartlyApplied(st, contexts, todo) && PartlyPublished(st, u, todo)
        decreases |todo|
      {
        var name :| name in todo;
        u := ApplyOne(st, u, todo, name);
        todo := todo - {name};
      }
    }

    method ApplyChanges() returns (published: Option<Update>)
      requires Valid(Abs())
      modifies this
      ensures Valid(Abs()) && Abs() == AfterApply(old(Abs()))
      ensures published.None? <==> old(pending) == map[]
      ensures published.Some? ==> Publishes(old(Abs()), published.value)
    {
      if pending == map[] {
        return None;
      }
      ghost var before := Abs();
      var u := ApplyPending(before);
      AllApplied(before, contexts);
      NextKeepsValid(before, DoApply(u));
      number := number + 1;
      pending := map[];
      return Some(u.(number := number));
    }

    method InsertMarker(m: Marker)
      requires Valid(Abs())
      modifies this`pending
      ensures Valid(Abs()) && Abs() == Insert(old(Abs()), m)
      ensures Upcoming(Abs()) == old(Upcoming(Abs()))[m.name := m]
    {
      InsertShows(Abs(), m);
      hide Upcoming;
      if m.name !in pending {
        pending := pending[m.name := UpdateContext(POSE_UPDATE, BLANK_MARKER)];
      }
      pending := pending[m.name := UpdateContext(FULL_UPDATE, m)];
    }

    method EraseMarker(name: string) returns (found: bool)
      requires Valid(Abs())
      modifies this`pending
      ensures Valid(Abs()) && Abs() == Erase(old(Abs()), name)
      ensures found <==> name in old(contexts) || name in old(pending)
      ensures Upcoming(Abs()) == old(Upcoming(Abs())) - {name}
    {
      EraseShows(Abs(), name);
      if name !in contexts && name !in pending {
        return false;
      }
      var marker := if name in pending then pending[name].marker else BLANK_MARKER;
      pending := pending[name := UpdateContext(ERASE, marker)];
      return true;
    }

    method ClearMarkers()
      requires Valid(Abs())
      modifies this`pending
      ensures Valid(Abs()) && Abs() == Clear(old(Abs()))
      ensures Upcoming(Abs()) == map[]
    {
      hide Valid, Upcoming;
      ghost var before := Abs();
      pending := map[];
      var todo := contexts.Keys;
      while todo != {}
        invariant todo <= contexts.Keys && pending.Keys == contexts.Keys - todo
        invariant forall k :: k in pending ==> pending[k] == UpdateContext(ERASE, BLANK_MARKER)
        decreases |todo|
      {
        var name :| name in todo;
        pending := pending[name := UpdateContext(ERASE, BLANK_MARKER)];
        todo := todo - {name};
      }
      assert Abs() == Clear(before);
      NextKeepsValid(before, DoClear);
      ClearShows(before);
    }

    method DoSetMarkerPose(name: string, pose: Pose, header: Header)
      requires Valid(Abs()) && CanSetPose(Abs(), name)
      modifies this`pending
      ensures Valid(Abs()) && Abs() == DoSetPose(old(Abs()), name, pose, header)
      ensures Upcoming(Abs()) ==
              old(Upcoming(Abs())[name := Posed(Abs(), name).(pose := pose, header := header)])
    {
      ghost var before := Abs();
      if name !in pending {
        pending := pending[name := UpdateContext(POSE_UPDATE, BLANK_MARKER)];
      } else if pending[name].kind != FULL_UPDATE {
        pending := pending[name := pending[name].(kind := POSE_UPDATE)];
      }
      pending := pending[name := pending[name].(marker := pending[name].marker.(pose := pose, header := header))];
      assert Abs() == DoSetPose(before, name, pose, header);
      DoSetPoseKeepsValid(before, name, pose, header);
      hide *;
      DoSetPoseShows(before, name, pose, header);
    }

    method SetMarkerPose(name: string, pose: Pose, header: Header) returns (ok: bool)
      requires Valid(Abs())
      modifies this`pending
      ensures Valid(Abs()) && Abs() == SetPose(old(Abs()), name, pose, header)
      ensures ok <==> name in old(contexts) || (name in old(pending) && old(pending)[name].kind == FULL_UPDATE)
      ensures ok ==>
                var kept := old(if name in contexts then contexts[name].marker.header else pending[name].marker.header);
                Upcoming(Abs()) == old(Upcoming(Abs()))[name :=
                  old(Posed(Abs(), name)).(pose := pose, header := if header.frame == "" then kept else header)]
      ensures !ok ==> Abs() == old(Abs())
    {
      if name !in contexts && (name !in pending || pending[name].kind != FULL_UPDATE) {
        return false;
      }
      if header.frame == "" {
        if name in contexts {
          DoSetMarkerPose(name, pose, contexts[name].marker.header);
        } else {
          DoSetMarkerPose(name, pose, pending[name].marker.header);
        }
      } else {
        DoSetMarkerPose(name, pose, header);
      }
      return true;
    }

    /** get is a preview of applyChanges: it finds exactly the markers that will exist
        afterwards, as they will be, except that a pending pose update still shows the old header. */
    method Get(name: string) returns (r: Option<Marker>)
      requires Valid(Abs())
      ensures r.Some? <==> name in AfterApply(Abs()).contexts
      ensures r.Some? ==>
                var m := AfterApply(Abs()).contexts[name].marker;
                r.value == if name in pending && pending[name].kind == POSE_UPDATE
                           then m.(header := contexts[name].marker.header) else m
    {
      assert Outcome(Abs(), name).Some? <==> name in AfterApply(Abs()).contexts;
      if name !in pending {
        if name !in contexts {
          return None;
        }
        return Some(contexts[name].marker);
      }
      match pending[name].kind {
        case ERASE =>
          return None;
        case POSE_UPDATE =>
          return Some(contexts[name].marker.(pose := pending[name].marker.pose));
        case FULL_UPDATE =>
          return Some(pending[name].marker);
      }
    }

    method GetInteractiveMarkers() returns (r: Snapshot)
      requires Valid(Abs())
      ensures Replies(Abs(), r)
    {
      r := Snapshot(number, []);
      var todo := contexts.Keys;
      while todo != {}
        invariant todo <= contexts.Keys && r.number == number
        invariant DistinctMarkers(r.markers)
        invariant forall m :: m in r.markers <==> m.name in contexts && m.name !in todo && m == contexts[m.name].marker
        decreases |todo|
      {
        var name :| name in todo;
        r := r.(markers := r.markers + [contexts[name].marker]);
        todo := todo - {name};
      }
    }

    method ProcessMarkerFeedback(f: Feedback, checkedAt: int, recordedAt: int) returns (accepted: bool)
      requires Valid(Abs())
      modifies this`contexts, this`pending
      ensures Valid(Abs()) && Abs() == ProcessFeedback(old(Abs()), f, checkedAt, recordedAt)
      ensures accepted <==> Accepts(old(Abs()), f, checkedAt)
      ensures accepted && f.isPoseUpdate ==>
                var header := old(contexts)[f.marker].marker.header;
                Upcoming(Abs()) == old(Upcoming(Abs()))[f.marker :=
                  old(Posed(Abs(), f.marker))
                       .(pose := f.pose, header := if header.stamp == 0 then header else f.header)]
      ensures !(accepted && f.isPoseUpdate) ==> Upcoming(Abs()) == old(Upcoming(Abs()))
      ensures accepted ==> contexts[f.marker].lastClient == f.client && contexts[f.marker].lastFeedback == recordedAt
    {
      if f.marker !in contexts {
        return false;
      }
      var c := contexts[f.marker];
      if c.lastClient != f.client && checkedAt - c.lastFeedback < ONE_SECOND {
        return false;
      }
      RememberingShows(Abs(), f.marker, recordedAt, f.client);
      contexts := contexts[f.marker := c.(lastFeedback := recordedAt, lastClient := f.client)];
      if f.isPoseUpdate {
        if c.marker.header.stamp == 0 {
          DoSetMarkerPose(f.marker, f.pose, c.marker.header);
        } else {
          DoSetMarkerPose(f.marker, f.pose, f.header);
        }
      }
      return true;
    }
  }

  /** The contexts while applyChanges still has the names of todo before it. */
  ghost predicate PartlyApplied(st: State, contexts: map<string, MarkerContext>, todo: set<string>)
  {
    forall k ::
      if k in todo || k !in st.pending then
        (k in contexts <==> k in st.contexts) && (k in contexts ==> contexts[k] == st.contexts[k])
      else
        (k in contexts <==> Outcome(st, k).Some?) && (k in contexts ==> contexts[k] == ContextAfter(st, k))
  }

  /** The message while applyChanges still has the names of todo before it. */
  ghost predicate PartlyPublished(st: State, u: Update, todo: set<string>)
  {
    && DistinctMarkers(u.markers)
    && DistinctPoses(u.poses)
    && (forall m :: m in u.markers <==>
          m.name in st.pending && m.name !in todo && st.pending[m.name] == UpdateContext(FULL_UPDATE, m))
    && (forall p :: p in u.poses <==>
          p.name in st.pending && p.name !in todo && p.name in st.contexts && st.pending[p.name].kind == POSE_UPDATE
          && p.pose == st.pending[p.name].marker.pose && p.header == st.pending[p.name].marker.header)
    && (forall k :: k in u.erases <==>
          k in st.pending && k !in todo && k in st.contexts && st.pending[k].kind == ERASE)
  }

  lemma ContextApplied(st: State, c: map<string, MarkerContext>, c': map<string, MarkerContext>, todo: set<string>,
                       name: string)
    requires PartlyApplied(st, c, todo) && name in todo && name in st.pending
    requires c' - {name} == c - {name}
    requires (name in c' <==> Outcome(st, name).Some?) && (name in c' ==> c'[name] == ContextAfter(st, name))
    ensures PartlyApplied(st, c', todo - {name})
  {
    forall k | k != name
      ensures (k in c' <==> k in c) && (k in c ==> c'[k] == c[k])
    {
      assert k in c' - {name} <==> k in c - {name};
      assert k in c ==> (c' - {name})[k] == (c - {name})[k];
    }
  }

  lemma MarkerPublished(st: State, u: Update, todo: set<string>, name: string)
    requires Valid(st) && PartlyPublished(st, u, todo)
    requires name in todo && name in st.pending && st.pending[name].kind == FULL_UPDATE
    ensures PartlyPublished(st, u.(markers := u.markers + [st.pending[name].marker]), todo - {name})
  {
  }

  lemma PosePublished(st: State, u: Update, todo: set<string>, name: string)
    requires Valid(st) && PartlyPublished(st, u, todo)
    requires name in todo && name in st.pending && st.pending[name].kind == POSE_UPDATE
    ensures var m := st.pending[name].marker;
            PartlyPublished(st, u.(poses := u.poses + [PoseUpdate(name, m.header, m.pose)]), todo - {name})
  {
  }

  lemma ErasePublished(st: State, u: Update, todo: set<string>, name: string)
    requires Valid(st) && PartlyPublished(st, u, todo)
    requires name in todo && name in st.pending && st.pending[name].kind == ERASE
    ensures PartlyPublished(st, if name in st.contexts then u.(erases := u.erases + [name]) else u, todo - {name})
  {
  }

  lemma AllApplied(st: State, c: map<string, MarkerContext>)
    requires PartlyApplied(st, c, {}) && st.pending != map[]
    ensures c == AfterApply(st).contexts
  {
    var after := AfterApply(st).contexts;
    forall k ensures k in c <==> k in after {
      if k !in st.pending {
        assert k in st.contexts <==> Outcome(st, k).Some?;
      }
    }
  }

}
