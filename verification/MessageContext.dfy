/**
 A message whose poses wait for coordinate transforms. Every round asks again for what is still
 missing; whatever the answers, no pose is transformed twice.
 */
module MessageContext {
  import opened Wrappers

  datatype Transform = Transform(value: int)

  /** A pose with the transforms applied to it. */
  datatype Pose = Raw(value: int) | Shifted(transform: Transform, pose: Pose)

  /** A header and its pose; stamp 0 means that no time is given. */
  datatype Part = Part(frame: string, stamp: nat, pose: Pose)

  /** An interactive marker with the markers of its controls. */
  datatype MarkerMsg = MarkerMsg(own: Part, controls: seq<seq<Part>>)

  /** The newest time for which two frames are connected. */
  datatype Latest = At(time: nat) | Unavailable

  datatype Answer = Found(transform: Transform) | Extrapolation(latest: Latest) | Failed

  /** An entry of the message; a pose update has one part, a marker has its own and those of its controls. */
  datatype Item = MarkerItem(index: nat) | PoseItem(index: nat)

  /** The answers of one round, by item, part, source frame and time. */
  type Answers = (Item, nat, string, nat) -> Answer

  datatype Verdict = Yes | No | Thrown

  function TryTransform(target: string, part: Part, answer: Answer): (Part, Verdict)
  {
    if part.frame == target then (part, Yes)
    else match answer
      case Found(tr) =>
        if part.stamp != 0 then (Part(target, part.stamp, Shifted(tr, part.pose)), Yes) else (part, Yes)
      case Extrapolation(At(time)) => (part, if time != 0 && time > part.stamp then Thrown else No)
      case Extrapolation(Unavailable) => (part, Thrown)
      case Failed => (part, Thrown)
  }

  // ---------- one round over the parts of an item ----------

  datatype Outcome = Outcome(parts: seq<Part>, success: bool, thrown: bool)

  /** Parts are tried in order up to the first that is not available. */
  function Fold(target: string, item: Item, parts: seq<Part>, tf: Answers): (o: Outcome)
    ensures |o.parts| == |parts|
    ensures o.thrown ==> !o.success
  {
    if parts == [] then Outcome([], true, false)
    else
      var k := |parts| - 1;
      var before, p := Fold(target, item, parts[..k], tf), parts[k];
      if !before.success || (k > 0 && p.frame == "") then Outcome(before.parts + [p], before.success, before.thrown)
      else
        var (now, verdict) := TryTransform(target, p, tf(item, k, p.frame, p.stamp));
        Outcome(before.parts + [now], verdict == Yes, verdict == Thrown)
  }

  // ---------- what any number of rounds does ----------

  predicate Foreign(target: string, orig: seq<Part>, k: nat)
    requires k < |orig|
  {
    orig[k].frame != target && (k == 0 || orig[k].frame != "")
  }

  predicate Available(item: Item, orig: seq<Part>, tf: Answers, k: nat)
    requires k < |orig|
  {
    tf(item, k, orig[k].frame, orig[k].stamp).Found?
  }

  /** The transform that reached part k of the original in some round. */
  ghost function Move(target: string, item: Item, orig: seq<Part>, rounds: seq<Answers>, k: nat): (m: Option<Transform>)
    requires k < |orig|
    ensures m.Some? ==> Foreign(target, orig, k) && orig[k].stamp != 0
    decreases |rounds|, k, 0
  {
    if rounds == [] then None
    else
      var before, tf := rounds[..|rounds| - 1], rounds[|rounds| - 1];
      var m := Move(target, item, orig, before, k);
      if m.Some? then m
      else if Foreign(target, orig, k) && orig[k].stamp != 0 && Available(item, orig, tf, k)
              && Reached(target, item, orig, before, tf, k)
      then Some(tf(item, k, orig[k].frame, orig[k].stamp).transform)
      else None
  }

  /** In the round after the given ones, nothing before part k holds it up. */
  ghost predicate Reached(target: string, item: Item, orig: seq<Part>, before: seq<Answers>, tf: Answers, k: nat)
    requires k <= |orig|
    decreases |before|, k, 0
  {
    forall j :: 0 <= j < k ==> Passes(target, item, orig, before, tf, j)
  }

  /** In the round after the given ones, part k holds nothing up. */
  ghost predicate Passes(target: string, item: Item, orig: seq<Part>, before: seq<Answers>, tf: Answers, k: nat)
    requires k < |orig|
    decreases |before|, k, 1
  {
    !Foreign(target, orig, k) || Move(target, item, orig, before, k).Some? || Available(item, orig, tf, k)
  }

  ghost predicate AllPass(target: string, item: Item, orig: seq<Part>, before: seq<Answers>, tf: Answers)
  {
    Reached(target, item, orig, before, tf, |orig|)
  }

  /** There was a round in which nothing was missing. */
  ghost predicate Completed(target: string, item: Item, orig: seq<Part>, rounds: seq<Answers>)
  {
    exists r :: 0 <= r < |rounds| && AllPass(target, item, orig, rounds[..r], rounds[r])
  }

  ghost function PartAfter(target: string, item: Item, orig: seq<Part>, rounds: seq<Answers>, k: nat): Part
    requires k < |orig|
  {
    var m := Move(target, item, orig, rounds, k);
    if m.Some? then Part(target, orig[k].stamp, Shifted(m.value, orig[k].pose)) else orig[k]
  }

  ghost predicate After(target: string, item: Item, orig: seq<Part>, rounds: seq<Answers>, now: seq<Part>)
  {
    |now| == |orig| && forall k :: 0 <= k < |orig| ==> now[k] == PartAfter(target, item, orig, rounds, k)
  }

  /** A stamped pose in a foreign frame is transformed once, any other never. */
  predicate Settled(target: string, orig: seq<Part>, now: seq<Part>)
  {
    && |now| == |orig|
    && forall k :: 0 <= k < |orig| ==>
         if Foreign(target, orig, k) && orig[k].stamp != 0
         then now[k].frame == target && now[k].stamp == orig[k].stamp && now[k].pose.Shifted?
             && now[k].pose.pose == orig[k].pose
         else now[k] == orig[k]
  }

  lemma MoveStep(target: string, item: Item, orig: seq<Part>, rounds: seq<Answers>, tf: Answers, k: nat)
    requires k < |orig|
    ensures var m := Move(target, item, orig, rounds, k);
            Move(target, item, orig, rounds + [tf], k) ==
              if m.Some? then m
              else if Foreign(target, orig, k) && orig[k].stamp != 0 && Available(item, orig, tf, k)
                      && Reached(target, item, orig, rounds, tf, k)
              then Some(tf(item, k, orig[k].frame, orig[k].stamp).transform)
              else None
  {
    assert (rounds + [tf])[..|rounds|] == rounds;
  }

  lemma MoveStays(target: string, item: Item, orig: seq<Part>, rounds: seq<Answers>, tf: Answers, k: nat)
    requires k < |orig| && Move(target, item, orig, rounds, k).Some?
    ensures Move(target, item, orig, rounds + [tf], k) == Move(target, item, orig, rounds, k)
  {
    assert (rounds + [tf])[..|rounds|] == rounds;
  }

  lemma {:induction false} MoveAfter(target: string, item: Item, orig: seq<Part>, rounds: seq<Answers>, r: nat, k: nat)
    requires k < |orig| && r < |rounds| && AllPass(target, item, orig, rounds[..r], rounds[r])
    requires Foreign(target, orig, k) && orig[k].stamp != 0
    ensures Move(target, item, orig, rounds, k).Some?
    decreases |rounds|
  {
    var before := rounds[..|rounds| - 1];
    if r < |before| {
      assert before[..r] == rounds[..r];
      MoveAfter(target, item, orig, before, r, k);
    } else {
      assert Passes(target, item, orig, rounds[..r], rounds[r], k);
    }
  }

  /** A completed item is final, with every pose transformed as often as it should be. */
  lemma CompletedIsSettled(target: string, item: Item, orig: seq<Part>, rounds: seq<Answers>, now: seq<Part>)
    requires Completed(target, item, orig, rounds) && After(target, item, orig, rounds, now)
    ensures Settled(target, orig, now)
  {
    var r :| 0 <= r < |rounds| && AllPass(target, item, orig, rounds[..r], rounds[r]);
    forall k | 0 <= k < |orig| && Foreign(target, orig, k) && orig[k].stamp != 0
      ensures Move(target, item, orig, rounds, k).Some?
    {
      MoveAfter(target, item, orig, rounds, r, k);
    }
  }

  lemma CompletedStays(target: string, item: Item, orig: seq<Part>, rounds: seq<Answers>, tf: Answers, now: seq<Part>)
    requires Completed(target, item, orig, rounds) && After(target, item, orig, rounds, now)
    ensures Completed(target, item, orig, rounds + [tf]) && After(target, item, orig, rounds + [tf], now)
  {
    var r :| 0 <= r < |rounds| && AllPass(target, item, orig, rounds[..r], rounds[r]);
    assert (rounds + [tf])[..r] == rounds[..r] && (rounds + [tf])[r] == rounds[r];
    forall k | 0 <= k < |orig|
      ensures PartAfter(target, item, orig, rounds + [tf], k) == PartAfter(target, item, orig, rounds, k)
    {
      if Foreign(target, orig, k) && orig[k].stamp != 0 {
        MoveAfter(target, item, orig, rounds, r, k);
        MoveStays(target, item, orig, rounds, tf, k);
      }
    }
  }

  lemma FoldStep(target: string, item: Item, parts: seq<Part>, tf: Answers, k: nat)
    requires k < |parts|
    ensures var before, p := Fold(target, item, parts[..k], tf), parts[k];
            Fold(target, item, parts[..k + 1], tf) ==
              if !before.success || (k > 0 && p.frame == "")
              then Outcome(before.parts + [p], before.success, before.thrown)
              else
                var (now, verdict) := TryTransform(target, p, tf(item, k, p.frame, p.stamp));
                Outcome(before.parts + [now], verdict == Yes, verdict == Thrown)
  {
    assert parts[..k + 1][..k] == parts[..k];
  }

  lemma FoldPrefix(target: string, item: Item, parts: seq<Part>, tf: Answers, m: nat)
    requires m < |parts|
    ensures parts[..m + 1][..m] == parts[..m] && parts[..m + 1][m] == parts[m]
    ensures Fold(target, item, parts[..m + 1], tf).thrown <== Fold(target, item, parts[..m], tf).thrown
  {
    assert parts[..m + 1][..m] == parts[..m];
    FoldStep(target, item, parts, tf, m);
  }

  /** What one round does to the first m parts. */
  lemma {:induction false} FoldAdvances(target: string, item: Item, orig: seq<Part>, rounds: seq<Answers>,
                                        now: seq<Part>, tf: Answers, m: nat)
    requires After(target, item, orig, rounds, now) && m <= |now|
    requires !Fold(target, item, now[..m], tf).thrown
    ensures var o := Fold(target, item, now[..m], tf);
            && (o.success <==> Reached(target, item, orig, rounds, tf, m))
            && forall k :: 0 <= k < m ==> o.parts[k] == PartAfter(target, item, orig, rounds + [tf], k)
  {
    if m > 0 {
      FoldPrefix(target, item, now, tf, m - 1);
      FoldAdvances(target, item, orig, rounds, now, tf, m - 1);
      FoldLast(target, item, orig, rounds, now, tf, m - 1);
      var before, o := Fold(target, item, now[..m - 1], tf), Fold(target, item, now[..m], tf);
      forall k | 0 <= k < m ensures o.parts[k] == PartAfter(target, item, orig, rounds + [tf], k) {
        if k < m - 1 {
          assert o.parts[k] == o.parts[..m - 1][k] == before.parts[k];
        }
      }
    }
  }

  lemma FoldLast(target: string, item: Item, orig: seq<Part>, rounds: seq<Answers>, now: seq<Part>, tf: Answers, m: nat)
    requires After(target, item, orig, rounds, now) && m < |now|
    requires now[..m + 1][..m] == now[..m] && !Fold(target, item, now[..m + 1], tf).thrown
    requires Fold(target, item, now[..m], tf).success <==> Reached(target, item, orig, rounds, tf, m)
    ensures var before, o := Fold(target, item, now[..m], tf), Fold(target, item, now[..m + 1], tf);
            && (o.success <==> before.success && Passes(target, item, orig, rounds, tf, m))
            && o.parts[..m] == before.parts && o.parts[m] == PartAfter(target, item, orig, rounds + [tf], m)
  {
    MoveStep(target, item, orig, rounds, tf, m);
    FoldStep(target, item, now, tf, m);
    assert now[m] == PartAfter(target, item, orig, rounds, m);
    hide Fold, Move;
    var before, o := Fold(target, item, now[..m], tf), Fold(target, item, now[..m + 1], tf);
  }

  /** The round reaches part k, which needs a transform that will never come: the lookup failed, the
      frames are not connected at all, or the newest time they are connected at is later than the stamp. */
  ghost predicate Rejected(target: string, item: Item, orig: seq<Part>, rounds: seq<Answers>, tf: Answers, k: nat)
    requires k < |orig|
  {
    && Foreign(target, orig, k) && Move(target, item, orig, rounds, k).None?
    && Reached(target, item, orig, rounds, tf, k)
    && var a := tf(item, k, orig[k].frame, orig[k].stamp);
       a.Failed? ||
       (a.Extrapolation? && (a.latest.Unavailable? || (a.latest.time != 0 && a.latest.time > orig[k].stamp)))
  }

  /** A round throws exactly at a rejected part. */
  lemma {:induction false} ThrownIfRejected(target: string, item: Item, orig: seq<Part>, rounds: seq<Answers>,
                                            now: seq<Part>, tf: Answers, m: nat)
    requires After(target, item, orig, rounds, now) && m <= |now|
    ensures Fold(target, item, now[..m], tf).thrown <==>
              exists k :: 0 <= k < m && Rejected(target, item, orig, rounds, tf, k)
  {
    if m > 0 {
      var n := m - 1;
      FoldPrefix(target, item, now, tf, n);
      ThrownIfRejected(target, item, orig, rounds, now, tf, n);
      if !Fold(target, item, now[..n], tf).thrown {
        FoldAdvances(target, item, orig, rounds, now, tf, n);
        LastThrows(target, item, orig, rounds, now, tf, n);
      }
    }
  }

  lemma LastThrows(target: string, item: Item, orig: seq<Part>, rounds: seq<Answers>, now: seq<Part>, tf: Answers,
                   n: nat)
    requires After(target, item, orig, rounds, now) && n < |now|
    requires var before := Fold(target, item, now[..n], tf);
             !before.thrown && (before.success <==> Reached(target, item, orig, rounds, tf, n))
    ensures Fold(target, item, now[..n + 1], tf).thrown <==> Rejected(target, item, orig, rounds, tf, n)
  {
    FoldStep(target, item, now, tf, n);
    assert now[n] == PartAfter(target, item, orig, rounds, n);
    hide Fold, Move, Reached;
  }

  /** A round on the whole item: it completes the item exactly when nothing is missing. */
  lemma RoundAdvances(target: string, item: Item, orig: seq<Part>, rounds: seq<Answers>, now: seq<Part>, tf: Answers)
    requires After(target, item, orig, rounds, now) && !Completed(target, item, orig, rounds)
    requires !Fold(target, item, now, tf).thrown
    ensures After(target, item, orig, rounds + [tf], Fold(target, item, now, tf).parts)
    ensures Fold(target, item, now, tf).success <==> Completed(target, item, orig, rounds + [tf])
  {
    assert now[..|now|] == now;
    FoldAdvances(target, item, orig, rounds, now, tf, |now|);
    CompletedStep(target, item, orig, rounds, tf);
  }

  lemma CompletedStep(target: string, item: Item, orig: seq<Part>, rounds: seq<Answers>, tf: Answers)
    ensures Completed(target, item, orig, rounds + [tf]) <==>
            Completed(target, item, orig, rounds) || AllPass(target, item, orig, rounds, tf)
  {
    var all, n := rounds + [tf], |rounds|;
    assert all[..n] == rounds && all[n] == tf;
    assert forall r :: 0 <= r < n ==> all[..r] == rounds[..r] && all[r] == rounds[r];
  }

  // ---------- messages ----------

  function Flat(controls: seq<seq<Part>>): (parts: seq<Part>)
  {
    if controls == [] then [] else Flat(controls[..|controls| - 1]) + controls[|controls| - 1]
  }

  function Parts(m: MarkerMsg): seq<Part>
  {
    [m.own] + Flat(m.controls)
  }

  predicate SameShape(a: seq<seq<Part>>, b: seq<seq<Part>>)
  {
    |a| == |b| && forall c :: 0 <= c < |a| ==> |a[c]| == |b[c]|
  }

  lemma {:induction false} FlatPrefix(controls: seq<seq<Part>>, c: nat)
    requires c <= |controls|
    ensures Flat(controls[..c]) <= Flat(controls)
    decreases |controls| - c
  {
    if c == |controls| {
      assert controls[..c] == controls;
    } else {
      FlatPrefix(controls, c + 1);
      assert controls[..c + 1][..c] == controls[..c];
    }
  }

  /** Part m of control c, counted from the marker's own. */
  lemma PartAt(msg: MarkerMsg, c: nat, m: nat)
    requires c < |msg.controls| && m < |msg.controls[c]|
    ensures var k := 1 + |Flat(msg.controls[..c])| + m;
            k < |Parts(msg)| && Parts(msg)[k] == msg.controls[c][m]
  {
    FlatPrefix(msg.controls, c + 1);
    assert msg.controls[..c + 1][..c] == msg.controls[..c];
  }

  /** All parts of marker i were tried, in order. */
  ghost predicate Transformed(target: string, msg: MarkerMsg, i: nat, tf: Answers, now: MarkerMsg, verdict: Verdict)
  {
    var o := Fold(target, MarkerItem(i), Parts(msg), tf);
    && (verdict == Thrown <==> o.thrown) && (verdict == Yes <==> o.success)
    && (!o.thrown ==> Parts(now) == o.parts && SameShape(now.controls, msg.controls))
  }

  method TransformMarker(target: string, msg: MarkerMsg, i: nat, tf: Answers) returns (now: MarkerMsg, verdict: Verdict)
    ensures Transformed(target, msg, i, tf, now, verdict)
  {
    ghost var item, all := MarkerItem(i), Parts(msg);
    OwnIsFirst(target, item, msg, tf);
    hide Fold, Parts, Flat, TryTransform;
    var own;
    var t := TryTransform(target, msg.own, tf(MarkerItem(i), 0, msg.own.frame, msg.own.stamp));
    own, verdict := t.0, t.1;
    var k := 1;
    if verdict == Thrown {
      FoldThrown(target, item, all, tf, 1);
      return msg, Thrown;
    }
    var controls: seq<seq<Part>> := [];
    for c := 0 to |msg.controls|
      invariant |controls| == c && forall d :: 0 <= d < c ==> |controls[d]| == |msg.controls[d]|
      invariant k == 1 + |Flat(msg.controls[..c])| <= |all| && verdict != Thrown
      invariant Fold(target, item, all[..k], tf) == Outcome([own] + Flat(controls), verdict == Yes, false)
    {
      var markers: seq<Part> := [];
      assert [own] + Flat(controls) + [] == [own] + Flat(controls);
      FlatStep(msg.controls, c);
      for m := 0 to |msg.controls[c]|
        invariant |markers| == m
        invariant k == 1 + |Flat(msg.controls[..c])| + m <= |all| && verdict != Thrown
        invariant Fold(target, item, all[..k], tf) == Outcome([own] + Flat(controls) + markers, verdict == Yes, false)
      {
        var part := msg.controls[c][m];
        PartAt(msg, c, m);
        FoldStep(target, item, all, tf, k);
        if part.frame != "" && verdict == Yes {
          var u := TryTransform(target, part, tf(MarkerItem(i), k, part.frame, part.stamp));
          part, verdict := u.0, u.1;
          if verdict == Thrown {
            FoldThrown(target, item, all, tf, k + 1);
            return msg, Thrown;
          }
        }
        assert [own] + Flat(controls) + (markers + [part]) == [own] + Flat(controls) + markers + [part];
        markers := markers + [part];
        k := k + 1;
      }
      FlatSnoc(own, controls, markers);
      controls := controls + [markers];
    }
    FlatAll(msg);
    assert all[..k] == all;
    now := MarkerMsg(own, controls);
    PartsOf(now);
  }

  lemma OwnIsFirst(target: string, item: Item, msg: MarkerMsg, tf: Answers)
    ensures Parts(msg) != [] && Parts(msg)[..1] == [msg.own] && Flat(msg.controls[..0]) == Flat([]) == []
    ensures var (own, verdict) := TryTransform(target, msg.own, tf(item, 0, msg.own.frame, msg.own.stamp));
            Fold(target, item, Parts(msg)[..1], tf) == Outcome([own] + [], verdict == Yes, verdict == Thrown)
  {
    assert Parts(msg)[..1] == [msg.own] && Parts(msg)[..0] == [];
    assert Fold(target, item, Parts(msg)[..0], tf) == Outcome([], true, false);
    FoldStep(target, item, Parts(msg), tf, 0);
  }

  lemma FlatStep(controls: seq<seq<Part>>, c: nat)
    requires c < |controls|
    ensures Flat(controls[..c + 1]) == Flat(controls[..c]) + controls[c]
  {
    assert controls[..c + 1][..c] == controls[..c];
  }

  lemma FlatSnoc(own: Part, controls: seq<seq<Part>>, markers: seq<Part>)
    ensures [own] + Flat(controls + [markers]) == [own] + Flat(controls) + markers
  {
    FlatStep(controls + [markers], |controls|);
    assert (controls + [markers])[..|controls|] == controls;
    assert (controls + [markers])[..|controls| + 1] == controls + [markers];
  }

  lemma FlatAll(msg: MarkerMsg)
    ensures 1 + |Flat(msg.controls[..|msg.controls|])| == |Parts(msg)|
  {
    assert msg.controls[..|msg.controls|] == msg.controls;
  }

  lemma PartsOf(msg: MarkerMsg)
    ensures Parts(msg) == [msg.own] + Flat(msg.controls)
  {
  }

  lemma {:induction false} FoldThrown(target: string, item: Item, parts: seq<Part>, tf: Answers, k: nat)
    requires k <= |parts| && Fold(target, item, parts[..k], tf).thrown
    ensures Fold(target, item, parts, tf).thrown
    decreases |parts| - k
  {
    if k == |parts| {
      assert parts[..k] == parts;
    } else {
      FoldPrefix(target, item, parts, tf, k);
      FoldThrown(target, item, parts, tf, k + 1);
    }
  }

  // ---------- the items of one kind ----------

  function ItemAt(marker: bool, i: nat): Item
  {
    if marker then MarkerItem(i) else PoseItem(i)
  }

  predicate Ascending(s: seq<nat>)
  {
    forall i, j :: 0 <= i < j < |s| ==> s[i] < s[j]
  }

  /** After the given rounds: every item as it should be, and the open ones exactly those not completed. */
  ghost predicate StateAt(target: string, marker: bool, orig: seq<seq<Part>>, rounds: seq<Answers>,
                          now: seq<seq<Part>>, open: seq<nat>)
  {
    && |now| == |orig| && Ascending(open) && (forall i :: i in open ==> i < |orig|)
    && forall i :: 0 <= i < |orig| ==>
         && After(target, ItemAt(marker, i), orig[i], rounds, now[i])
         && (i in open <==> !Completed(target, ItemAt(marker, i), orig[i], rounds))
  }

  /** Some open item meets a transform error in the round. */
  ghost predicate Throws(target: string, marker: bool, now: seq<seq<Part>>, open: seq<nat>, tf: Answers)
  {
    exists i :: i in open && i < |now| && Fold(target, ItemAt(marker, i), now[i], tf).thrown
  }

  /** Some part of an open item is rejected in the round. */
  ghost predicate SomeRejected(target: string, marker: bool, orig: seq<seq<Part>>, rounds: seq<Answers>, tf: Answers,
                               open: seq<nat>)
  {
    exists i, k :: i in open && i < |orig| && 0 <= k < |orig[i]| &&
      Rejected(target, ItemAt(marker, i), orig[i], rounds, tf, k)
  }

  lemma ThrowsIfRejected(target: string, marker: bool, orig: seq<seq<Part>>, rounds: seq<Answers>, tf: Answers,
                         now: seq<seq<Part>>, open: seq<nat>)
    requires StateAt(target, marker, orig, rounds, now, open)
    ensures Throws(target, marker, now, open, tf) <==> SomeRejected(target, marker, orig, rounds, tf, open)
  {
    hide Fold, Rejected, Completed;
    forall i | i in open && i < |orig|
      ensures Fold(target, ItemAt(marker, i), now[i], tf).thrown <==>
                exists k :: 0 <= k < |orig[i]| && Rejected(target, ItemAt(marker, i), orig[i], rounds, tf, k)
    {
      assert now[i][..|now[i]|] == now[i];
      ThrownIfRejected(target, ItemAt(marker, i), orig[i], rounds, now[i], tf, |now[i]|);
    }
  }

  /** The start of a round: the items as they are, and the open ones. */
  datatype Start = Start(parts: seq<seq<Part>>, open: seq<nat>)

  /** Within a round: the items to do are as before it, all others as after it. */
  ghost predicate Between(target: string, marker: bool, orig: seq<seq<Part>>, rounds: seq<Answers>, tf: Answers,
                          start: Start,
                          now: seq<seq<Part>>, kept: seq<nat>, todo: seq<nat>)
  {
    && |now| == |orig| == |start.parts| && Ascending(kept + todo) && (forall i :: i in kept + todo ==> i < |orig|)
    && (forall i :: i in todo ==> i in start.open)
    && (forall i :: i in start.open && i < |now| ==>
        i in todo || !Fold(target, ItemAt(marker, i), start.parts[i], tf).thrown)
    && forall i :: 0 <= i < |orig| ==>
         if i in todo then
           && now[i] == start.parts[i] && After(target, ItemAt(marker, i), orig[i], rounds, now[i])
           && !Completed(target, ItemAt(marker, i), orig[i], rounds)
         else
           && After(target, ItemAt(marker, i), orig[i], rounds + [tf], now[i])
           && (i in kept <==> !Completed(target, ItemAt(marker, i), orig[i], rounds + [tf]))
  }

  lemma RoundStarts(target: string, marker: bool, orig: seq<seq<Part>>, rounds: seq<Answers>, tf: Answers,
                    now: seq<seq<Part>>, open: seq<nat>)
    requires StateAt(target, marker, orig, rounds, now, open)
    ensures Between(target, marker, orig, rounds, tf, Start(now, open), now, [], open)
  {
    assert [] + open == open;
    forall i | 0 <= i < |orig| && i !in open
      ensures After(target, ItemAt(marker, i), orig[i], rounds + [tf], now[i])
      ensures Completed(target, ItemAt(marker, i), orig[i], rounds + [tf])
    {
      CompletedStays(target, ItemAt(marker, i), orig[i], rounds, tf, now[i]);
    }
  }

  lemma RoundSteps(target: string, marker: bool, orig: seq<seq<Part>>, rounds: seq<Answers>, tf: Answers, start: Start,
                   now: seq<seq<Part>>, kept: seq<nat>, todo: seq<nat>)
    requires Between(target, marker, orig, rounds, tf, start, now, kept, todo) && todo != [] && todo[0] < |orig|
    requires !Fold(target, ItemAt(marker, todo[0]), now[todo[0]], tf).thrown
    ensures var o := Fold(target, ItemAt(marker, todo[0]), now[todo[0]], tf);
            Between(target, marker, orig, rounds, tf, start, now[todo[0] := o.parts],
                    if o.success then kept else kept + [todo[0]], todo[1..])
  {
    var i := todo[0];
    RoundAdvances(target, ItemAt(marker, i), orig[i], rounds, now[i], tf);
    AscendingMoves(kept, todo);
    hide Fold, After, Completed, Ascending, ItemAt;
    var o := Fold(target, ItemAt(marker, i), now[i], tf);
    var keep := if o.success then kept else kept + [i];
    forall j ensures j in todo <==> j == i || j in todo[1..] {
    }
    forall j ensures j in keep <==> j in kept || (j == i && !o.success) {
    }
    forall j | j in keep + todo[1..] ensures j < |orig| {
      assert j in keep || j in todo[1..];
      assert j in kept + todo;
    }
  }

  lemma RoundThrows(target: string, marker: bool, orig: seq<seq<Part>>, rounds: seq<Answers>, tf: Answers, start: Start,
                    now: seq<seq<Part>>, kept: seq<nat>, todo: seq<nat>)
    requires Between(target, marker, orig, rounds, tf, start, now, kept, todo) && todo != [] && todo[0] < |orig|
    requires Fold(target, ItemAt(marker, todo[0]), now[todo[0]], tf).thrown
    ensures Throws(target, marker, start.parts, start.open, tf)
  {
    var i := todo[0];
    assert i in todo;
  }

  lemma AscendingMoves(kept: seq<nat>, todo: seq<nat>)
    requires Ascending(kept + todo) && todo != []
    ensures Ascending(kept + todo[1..]) && Ascending((kept + [todo[0]]) + todo[1..])
    ensures todo[0] !in kept && todo[0] !in todo[1..]
  {
    assert (kept + [todo[0]]) + todo[1..] == kept + todo;
    var all, less, n := kept + todo, kept + todo[1..], |kept|;
    assert forall i :: 0 <= i < |less| ==> less[i] == all[if i < n then i else i + 1];
    assert all[n] == todo[0];
    assert forall i :: 0 <= i < n ==> all[i] == kept[i];
    assert forall i :: 0 <= i < |todo| - 1 ==> all[n + 1 + i] == todo[1..][i];
  }

  lemma RoundEnds(target: string, marker: bool, orig: seq<seq<Part>>, rounds: seq<Answers>, tf: Answers, start: Start,
                  now: seq<seq<Part>>, kept: seq<nat>)
    requires Between(target, marker, orig, rounds, tf, start, now, kept, [])
    ensures StateAt(target, marker, orig, rounds + [tf], now, kept)
    ensures !Throws(target, marker, start.parts, start.open, tf)
  {
    assert kept + [] == kept;
    hide After, Completed;
  }

  lemma BeforeAnyRound(target: string, marker: bool, orig: seq<seq<Part>>, open: seq<nat>)
    requires |open| == |orig| && forall i :: 0 <= i < |orig| ==> open[i] == i
    ensures StateAt(target, marker, orig, [], orig, open)
  {
    forall i | 0 <= i < |orig|
      ensures After(target, ItemAt(marker, i), orig[i], [], orig[i])
      ensures i in open && !Completed(target, ItemAt(marker, i), orig[i], [])
    {
      assert open[i] == i;
    }
  }

  function AllParts(markers: seq<MarkerMsg>): (r: seq<seq<Part>>)
    ensures |r| == |markers|
  {
    seq(|markers|, i requires 0 <= i < |markers| => Parts(markers[i]))
  }

  lemma AllPartsAt(markers: seq<MarkerMsg>, i: nat)
    requires i < |markers|
    ensures AllParts(markers)[i] == Parts(markers[i])
  {
  }

  /** The number of controls, and of markers in each, never changes. */
  predicate SameShapes(a: seq<MarkerMsg>, b: seq<MarkerMsg>)
  {
    |a| == |b| && forall i :: 0 <= i < |a| ==> SameShape(a[i].controls, b[i].controls)
  }

  lemma MarkersUpdate(markers: seq<MarkerMsg>, orig: seq<MarkerMsg>, i: nat, now: MarkerMsg)
    requires i < |markers| && SameShapes(markers, orig) && SameShape(now.controls, markers[i].controls)
    ensures AllParts(markers[i := now]) == AllParts(markers)[i := Parts(now)]
    ensures SameShapes(markers[i := now], orig)
  {
  }

  function Singles(poses: seq<Part>): (r: seq<seq<Part>>)
    ensures |r| == |poses| && forall i :: 0 <= i < |r| ==> r[i] == [poses[i]]
  {
    seq(|poses|, i requires 0 <= i < |poses| => [poses[i]])
  }

  lemma PosesUpdate(poses: seq<Part>, i: nat, now: Part)
    requires i < |poses|
    ensures Singles(poses[i := now]) == Singles(poses)[i := [now]]
  {
  }

  lemma FoldOne(target: string, item: Item, part: Part, tf: Answers)
    ensures var (now, verdict) := TryTransform(target, part, tf(item, 0, part.frame, part.stamp));
            Fold(target, item, [part], tf) == Outcome([now], verdict == Yes, verdict == Thrown)
  {
    assert [part][..0] == [];
    assert Fold(target, item, [], tf) == Outcome([], true, false);
    FoldStep(target, item, [part], tf, 0);
    assert [part][..1] == [part];
  }

  /** The list with its element p kept, and with it dropped. */
  lemma NextOf(open: seq<nat>, p: nat)
    requires p < |open|
    ensures open[p..] != [] && open[p..][0] == open[p] && open[p..][1..] == open[p + 1..]
    ensures open[..p + 1] == open[..p] + [open[p]]
    ensures (open[..p] + open[p + 1..])[..p] == open[..p] && (open[..p] + open[p + 1..])[p..] == open[p + 1..]
  {
  }

  /** One marker more is done. */
  lemma MarkerSteps(target: string, orig: seq<MarkerMsg>, rounds: seq<Answers>, tf: Answers, start: Start,
                    now: seq<MarkerMsg>, kept: seq<nat>, todo: seq<nat>, m: MarkerMsg, verdict: Verdict)
    requires Between(target, true, AllParts(orig), rounds, tf, start, AllParts(now), kept, todo)
               && SameShapes(now, orig)
    requires todo != [] && todo[0] < |now|
    requires Transformed(target, now[todo[0]], todo[0], tf, m, verdict)
    ensures verdict == Thrown ==> Throws(target, true, start.parts, start.open, tf)
    ensures verdict != Thrown ==>
              && SameShapes(now[todo[0] := m], orig)
              && Between(target, true, AllParts(orig), rounds, tf, start, AllParts(now[todo[0] := m]),
                         if verdict == Yes then kept else kept + [todo[0]], todo[1..])
  {
    hide Between, Fold, AllParts, Throws, Parts;
    AllPartsAt(now, todo[0]);
    if verdict == Thrown {
      RoundThrows(target, true, AllParts(orig), rounds, tf, start, AllParts(now), kept, todo);
    } else {
      RoundSteps(target, true, AllParts(orig), rounds, tf, start, AllParts(now), kept, todo);
      MarkersUpdate(now, orig, todo[0], m);
    }
  }

  // ---------- the context ----------

  class Context {
    const target: string
    var markers: seq<MarkerMsg>
    var poses: seq<Part>
    var openMarkers: seq<nat>
    var openPoses: seq<nat>
    ghost const originalMarkers: seq<MarkerMsg>
    ghost const originalPoses: seq<Part>
    /** The answers of the rounds so far. */
    ghost var rounds: seq<Answers>

    ghost predicate MarkersAt(rounds: seq<Answers>)
      reads this
    {
      && SameShapes(markers, originalMarkers)
      && StateAt(target, true, AllParts(originalMarkers), rounds, AllParts(markers), openMarkers)
    }

    ghost predicate PosesAt(rounds: seq<Answers>)
      reads this
    {
      StateAt(target, false, Singles(originalPoses), rounds, Singles(poses), openPoses)
    }

    ghost predicate Valid()
      reads this
    {
      MarkersAt(rounds) && PosesAt(rounds)
    }

    /** A reply to a snapshot request has no pose updates. */
    constructor (target: string, markers: seq<MarkerMsg>, poses: seq<Part>)
      ensures Valid() && rounds == []
      ensures this.target == target && originalMarkers == markers && originalPoses == poses
    {
      this.target := target;
      this.markers, this.poses := markers, poses;
      originalMarkers, originalPoses := markers, poses;
      rounds := [];
      var open: seq<nat> := [];
      for i := 0 to |markers|
        invariant |open| == i && forall j :: 0 <= j < i ==> open[j] == j
      {
        open := open + [i];
      }
      openMarkers := open;
      var others: seq<nat> := [];
      for i := 0 to |poses|
        invariant |others| == i && forall j :: 0 <= j < i ==> others[j] == j
      {
        others := others + [i];
      }
      openPoses := others;
      BeforeAnyRound(target, true, AllParts(markers), open);
      BeforeAnyRound(target, false, Singles(poses), others);
    }

    method GetMarkerTransforms(tf: Answers) returns (thrown: bool)
      requires MarkersAt(rounds)
      modifies this`markers, this`openMarkers
      ensures thrown <==> old(Throws(target, true, AllParts(markers), openMarkers, tf))
      ensures !thrown ==> MarkersAt(rounds + [tf])
    {
      hide StateAt, Between, Fold, Throws, After, Completed, Ascending, AllParts, Parts, SameShape, SameShapes;
      hide Transformed;
      ghost var orig, start := AllParts(originalMarkers), Start(AllParts(markers), openMarkers);
      RoundStarts(target, true, orig, rounds, tf, AllParts(markers), openMarkers);
      var p := 0;
      assert openMarkers[0..] == openMarkers && openMarkers[..0] == [];
      while p < |openMarkers|
        invariant p <= |openMarkers|
        invariant |markers| == |originalMarkers| && SameShapes(markers, originalMarkers)
        invariant Between(target, true, orig, rounds, tf, start, AllParts(markers), openMarkers[..p], openMarkers[p..])
        decreases |openMarkers| - p
      {
        NextOf(openMarkers, p);
        var i := openMarkers[p];
        NextIsItem(target, true, orig, rounds, tf, start, AllParts(markers), openMarkers[..p], openMarkers[p..]);
        var now, verdict := TransformMarker(target, markers[i], i, tf);
        MarkerSteps(target, originalMarkers, rounds, tf, start, markers, openMarkers[..p], openMarkers[p..], now,
            verdict);
        if verdict == Thrown { return true; }
        markers := markers[i := now];
        if verdict == Yes {
          openMarkers := openMarkers[..p] + openMarkers[p + 1..];
        } else {
          p := p + 1;
        }
      }
      assert openMarkers[p..] == [] && openMarkers[..p] == openMarkers;
      RoundEnds(target, true, orig, rounds, tf, start, AllParts(markers), openMarkers);
      thrown := false;
    }

    method GetPoseTransforms(tf: Answers) returns (thrown: bool)
      requires PosesAt(rounds)
      modifies this`poses, this`openPoses
      ensures thrown <==> old(Throws(target, false, Singles(poses), openPoses, tf))
      ensures !thrown ==> PosesAt(rounds + [tf])
    {
      ghost var orig, start := Singles(originalPoses), Start(Singles(poses), openPoses);
      RoundStarts(target, false, orig, rounds, tf, Singles(poses), openPoses);
      hide StateAt, Between, Fold, Throws, TryTransform, After, Completed, Ascending, Parts;
      var p := 0;
      assert openPoses[0..] == openPoses && openPoses[..0] == [];
      while p < |openPoses|
        invariant p <= |openPoses|
        invariant |poses| == |originalPoses|
        invariant Between(target, false, orig, rounds, tf, start, Singles(poses), openPoses[..p], openPoses[p..])
        decreases |openPoses| - p
      {
        NextOf(openPoses, p);
        var i := openPoses[p];
        NextIsItem(target, false, orig, rounds, tf, start, Singles(poses), openPoses[..p], openPoses[p..]);
        var t := TryTransform(target, poses[i], tf(PoseItem(i), 0, poses[i].frame, poses[i].stamp));
        var now, verdict := t.0, t.1;
        FoldOne(target, PoseItem(i), poses[i], tf);
        if verdict == Thrown {
          RoundThrows(target, false, orig, rounds, tf, start, Singles(poses), openPoses[..p], openPoses[p..]);
          return true;
        }
        RoundSteps(target, false, orig, rounds, tf, start, Singles(poses), openPoses[..p], openPoses[p..]);
        PosesUpdate(poses, i, now);
        poses := poses[i := now];
        if verdict == Yes {
          openPoses := openPoses[..p] + openPoses[p + 1..];
        } else {
          p := p + 1;
        }
      }
      assert openPoses[p..] == [] && openPoses[..p] == openPoses;
      RoundEnds(target, false, orig, rounds, tf, start, Singles(poses), openPoses);
      thrown := false;
    }

    /** One round; it ends early on a transform error. */
    method GetTfTransforms(tf: Answers) returns (thrown: bool)
      requires Valid()
      modifies this
      ensures thrown <==>
                || SomeRejected(target, true, AllParts(originalMarkers), old(rounds), tf, old(openMarkers))
                || SomeRejected(target, false, Singles(originalPoses), old(rounds), tf, old(openPoses))
      ensures !thrown ==> Valid() && rounds == old(rounds) + [tf]
    {
      ThrowsIfRejected(target, true, AllParts(originalMarkers), rounds, tf, AllParts(markers), openMarkers);
      ThrowsIfRejected(target, false, Singles(originalPoses), rounds, tf, Singles(poses), openPoses);
      hide StateAt, Fold, Throws, SomeRejected;
      thrown := GetMarkerTransforms(tf);
      if thrown { return; }
      thrown := GetPoseTransforms(tf);
      if thrown { return; }
      rounds := rounds + [tf];
    }

    /** Ready exactly when every item had a round in which nothing was missing; then all poses are as they should be. */
    method IsReady() returns (ready: bool)
      requires Valid()
      ensures ready <==>
              ((forall i :: 0 <= i < |originalMarkers| ==>
                  Completed(target, MarkerItem(i), Parts(originalMarkers[i]), rounds))
               && (forall i :: 0 <= i < |originalPoses| ==> Completed(target, PoseItem(i), [originalPoses[i]], rounds)))
      ensures ready ==> |markers| == |originalMarkers| && |poses| == |originalPoses|
      ensures ready ==> forall i :: 0 <= i < |markers| ==> Settled(target, Parts(originalMarkers[i]), Parts(markers[i]))
      ensures ready ==> forall i :: 0 <= i < |poses| ==> Settled(target, [originalPoses[i]], [poses[i]])
    {
      ready := openMarkers == [] && openPoses == [];
      forall i | 0 <= i < |markers| ensures AllParts(markers)[i] == Parts(markers[i]) {}
      forall i | 0 <= i < |originalMarkers| ensures AllParts(originalMarkers)[i] == Parts(originalMarkers[i]) {}
      OpenIsEmpty(target, true, AllParts(originalMarkers), rounds, AllParts(markers), openMarkers);
      OpenIsEmpty(target, false, Singles(originalPoses), rounds, Singles(poses), openPoses);
    }
  }

  lemma NextIsItem(target: string, marker: bool, orig: seq<seq<Part>>, rounds: seq<Answers>, tf: Answers, start: Start,
                   now: seq<seq<Part>>, kept: seq<nat>, todo: seq<nat>)
    requires Between(target, marker, orig, rounds, tf, start, now, kept, todo) && todo != []
    ensures todo[0] < |orig| == |now| && todo[0] !in todo[1..]
  {
    AscendingMoves(kept, todo);
    assert todo[0] in kept + todo;
  }

  lemma OpenIsEmpty(target: string, marker: bool, orig: seq<seq<Part>>, rounds: seq<Answers>, now: seq<seq<Part>>,
                    open: seq<nat>)
    requires StateAt(target, marker, orig, rounds, now, open)
    ensures open == [] <==> forall i :: 0 <= i < |orig| ==> Completed(target, ItemAt(marker, i), orig[i], rounds)
    ensures open == [] ==> forall i :: 0 <= i < |orig| ==> Settled(target, orig[i], now[i])
  {
    if open == [] {
      forall i | 0 <= i < |orig| ensures Settled(target, orig[i], now[i]) {
        CompletedIsSettled(target, ItemAt(marker, i), orig[i], rounds, now[i]);
      }
    } else {
      assert open[0] in open;
    }
  }
}
