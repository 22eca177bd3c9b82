/**
 The messages of the interactive-marker protocol and what a client does with them:
 markers replace, poses overwrite an existing marker, erases delete.
 */
module Markers {
  import opened Wrappers

  datatype Header = Header(frame: string, stamp: int)

  datatype Pose = Pose(position: (real, real, real), orientation: (real, real, real, real))

  /** Everything of an interactive marker that only a full update can change. */
  datatype Body = Body(description: string, scale: real, menu: seq<string>)

  datatype Marker = Marker(name: string, header: Header, pose: Pose, body: Body)

  datatype PoseUpdate = PoseUpdate(name: string, header: Header, pose: Pose)

  /** One numbered message on the update topic. */
  datatype Update = Update(number: nat, markers: seq<Marker>, poses: seq<PoseUpdate>, erases: seq<string>)

  /** A reply to a request for all markers. */
  datatype Snapshot = Snapshot(number: nat, markers: seq<Marker>)

  type Replica = map<string, Marker>

  // ---------- applying a message ----------

  function PutMarkers(r: Replica, ms: seq<Marker>): Replica
    decreases |ms|
  {
    if ms == [] then r else PutMarkers(r[ms[0].name := ms[0]], ms[1..])
  }

  function MovePoses(r: Replica, ps: seq<PoseUpdate>): Replica
    decreases |ps|
  {
    if ps == [] then r
    else
      var p := ps[0];
      MovePoses(if p.name in r then r[p.name := r[p.name].(header := p.header, pose := p.pose)] else r, ps[1..])
  }

  function DropNames(r: Replica, names: seq<string>): Replica
    decreases |names|
  {
    if names == [] then r else DropNames(r - {names[0]}, names[1..])
  }

  function Apply(r: Replica, u: Update): Replica
  {
    DropNames(MovePoses(PutMarkers(r, u.markers), u.poses), u.erases)
  }

  function ApplyAll(r: Replica, us: seq<Update>): Replica
  {
    if us == [] then r else Apply(ApplyAll(r, us[..|us| - 1]), us[|us| - 1])
  }

  function FromSnapshot(s: Snapshot): Replica
  {
    PutMarkers(map[], s.markers)
  }

  lemma ApplyNone(r: Replica)
    ensures ApplyAll(r, []) == r
  {
  }

  lemma {:induction false} ApplyAllConcat(r: Replica, us: seq<Update>, vs: seq<Update>)
    ensures ApplyAll(r, us + vs) == ApplyAll(ApplyAll(r, us), vs)
    decreases |vs|
  {
    if vs == [] {
      assert us + vs == us;
    } else {
      var n := |vs| - 1;
      assert (us + vs)[..|us + vs| - 1] == us + vs[..n];
      ApplyAllConcat(r, us, vs[..n]);
    }
  }

  lemma Segment(r: Replica, log: seq<Update>, a: nat, b: nat, c: nat)
    requires a <= b <= c <= |log|
    ensures ApplyAll(r, log[a..c]) == ApplyAll(ApplyAll(r, log[a..b]), log[b..c])
  {
    assert log[a..c] == log[a..b] + log[b..c];
    ApplyAllConcat(r, log[a..b], log[b..c]);
  }

  // ---------- what one message does to one name ----------

  /** The effect of a message on a single name. */
  datatype Effect = Keep | Become(to: Option<Marker>) | Move(header: Header, pose: Pose)
  {
    function Act(o: Option<Marker>): Option<Marker>
    {
      match this
      case Keep => o
      case Become(to) => to
      case Move(h, p) => if o.Some? then Some(o.value.(header := h, pose := p)) else None
    }

    function Then(next: Effect): Effect
    {
      match next
      case Keep => this
      case Become(_) => next
      case Move(h, p) =>
        match this
        case Keep => next
        case Move(_, _) => next
        case Become(to) => Become(next.Act(to))
    }
  }

  function At(r: Replica, k: string): Option<Marker>
  {
    if k in r then Some(r[k]) else None
  }

  function PutEffect(ms: seq<Marker>, k: string): Effect
  {
    if ms == [] then Keep
    else (if ms[0].name == k then Become(Some(ms[0])) else Keep).Then(PutEffect(ms[1..], k))
  }

  function MoveEffect(ps: seq<PoseUpdate>, k: string): Effect
  {
    if ps == [] then Keep
    else (if ps[0].name == k then Move(ps[0].header, ps[0].pose) else Keep).Then(MoveEffect(ps[1..], k))
  }

  function EffectOf(u: Update, k: string): Effect
  {
    PutEffect(u.markers, k).Then(MoveEffect(u.poses, k)).Then(if k in u.erases then Become(None) else Keep)
  }

  function EffectOfAll(us: seq<Update>, k: string): Effect
  {
    if us == [] then Keep else EffectOfAll(us[..|us| - 1], k).Then(EffectOf(us[|us| - 1], k))
  }

  lemma {:induction false} PutMarkersAt(r: Replica, ms: seq<Marker>, k: string)
    ensures At(PutMarkers(r, ms), k) == PutEffect(ms, k).Act(At(r, k))
    decreases |ms|
  {
    if ms != [] {
      PutMarkersAt(r[ms[0].name := ms[0]], ms[1..], k);
    }
  }

  lemma {:induction false} MovePosesAt(r: Replica, ps: seq<PoseUpdate>, k: string)
    ensures At(MovePoses(r, ps), k) == MoveEffect(ps, k).Act(At(r, k))
    decreases |ps|
  {
    if ps != [] {
      var p := ps[0];
      var r' := if p.name in r then r[p.name := r[p.name].(header := p.header, pose := p.pose)] else r;
      MovePosesAt(r', ps[1..], k);
    }
  }

  lemma {:induction false} DropNamesAt(r: Replica, names: seq<string>, k: string)
    ensures At(DropNames(r, names), k) == if k in names then None else At(r, k)
    decreases |names|
  {
    if names != [] {
      DropNamesAt(r - {names[0]}, names[1..], k);
    }
  }

  lemma ApplyAt(r: Replica, u: Update, k: string)
    ensures At(Apply(r, u), k) == EffectOf(u, k).Act(At(r, k))
  {
    PutMarkersAt(r, u.markers, k);
    MovePosesAt(PutMarkers(r, u.markers), u.poses, k);
    DropNamesAt(MovePoses(PutMarkers(r, u.markers), u.poses), u.erases, k);
  }

  lemma {:induction false} ApplyAllAt(r: Replica, us: seq<Update>, k: string)
    ensures At(ApplyAll(r, us), k) == EffectOfAll(us, k).Act(At(r, k))
    decreases |us|
  {
    if us != [] {
      var n := |us| - 1;
      ApplyAllAt(r, us[..n], k);
      ApplyAt(ApplyAll(r, us[..n]), us[n], k);
    }
  }

  /** Messages applied to two replicas: a name they put or erase is the same in both, a name they
      do not touch is as before, and a marker they only move keeps the rest. */
  lemma ReplayOfName(r: Replica, r': Replica, us: seq<Update>, k: string)
    ensures var e := EffectOfAll(us, k);
            At(ApplyAll(r, us), k) == if e.Become? then At(ApplyAll(r', us), k) else e.Act(At(r, k))
  {
    ApplyAllAt(r, us, k);
    ApplyAllAt(r', us, k);
  }

  lemma SameEverywhere(r: Replica, r': Replica)
    requires forall k :: At(r, k) == At(r', k)
    ensures r == r'
  {
    forall k
      ensures k in r <==> k in r'
      ensures k in r && k in r' ==> r[k] == r'[k]
    {
      assert At(r, k) == At(r', k);
    }
  }

  // ---------- replay ----------

  /** Applying any run of messages a second time on top of itself changes nothing. */
  lemma ReplayIsIdempotent(r: Replica, us: seq<Update>)
    ensures ApplyAll(ApplyAll(r, us), us) == ApplyAll(r, us)
  {
    forall k ensures At(ApplyAll(ApplyAll(r, us), us), k) == At(ApplyAll(r, us), k) {
      ApplyAllAt(r, us, k);
      ApplyAllAt(ApplyAll(r, us), us, k);
    }
    SameEverywhere(ApplyAll(ApplyAll(r, us), us), ApplyAll(r, us));
  }

  /** A replica that starts from the state after s messages and then receives
      messages lo .. t, some of which it already contains, ends in the state after t. */
  lemma LateUpdatesConverge(log: seq<Update>, lo: nat, s: nat, t: nat)
    requires lo <= s <= t <= |log|
    ensures ApplyAll(ApplyAll(map[], log[..s]), log[lo..t]) == ApplyAll(map[], log[..t])
  {
    var start: Replica := map[];
    Segment(start, log, 0, lo, s);
    Segment(start, log, 0, s, t);
    assert log[0..s] == log[..s] && log[0..t] == log[..t];
    Segment(ApplyAll(start, log[..s]), log, lo, s, t);
    ReplayIsIdempotent(ApplyAll(start, log[0..lo]), log[lo..s]);
  }
}
