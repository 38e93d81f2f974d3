/**
 * Keyframe animation: a set of key-time timelines and a list of actions,
 * each driving one transform path of a target node from one timeline. The
 * animation clock advances with `play`, each action picks the pair of
 * keyframes around the current time, and the animation completes once
 * every action's timeline has ended. Times are integers in the timelines'
 * unit; interpolated values are not modelled (see README).
 */
module SgAnimation {

  /** Key times of one animation sampler. */
  type Timeline = seq<int>

  /** Strictly increasing key times, as glTF animation inputs are. */
  ghost predicate Increasing(t: Timeline)
  {
    forall i, j :: 0 <= i < j < |t| ==> t[i] < t[j]
  }

  /** The number of keys at or before `tm`. */
  function CountAtMost(t: Timeline, tm: int): (c: nat)
    ensures c <= |t|
    ensures |t| > 0 && t[0] <= tm ==> c >= 1
    ensures |t| > 0 && t[|t| - 1] > tm ==> c < |t|
  {
    if |t| == 0 then 0
    else CountAtMost(t[..|t| - 1], tm) + (if t[|t| - 1] <= tm then 1 else 0)
  }

  /** On an increasing timeline the keys at or before `tm` are exactly the
      first `CountAtMost(t, tm)`. */
  lemma {:induction false} CountSplits(t: Timeline, tm: int)
    requires Increasing(t)
    ensures forall k :: 0 <= k < CountAtMost(t, tm) ==> t[k] <= tm
    ensures forall k :: CountAtMost(t, tm) <= k < |t| ==> t[k] > tm
  {
    if |t| > 0 {
      var p := t[..|t| - 1];
      assert Increasing(p) by {
        forall i, j | 0 <= i < j < |p| ensures p[i] < p[j] {
          assert p[i] == t[i] && p[j] == t[j];
        }
      }
      CountSplits(p, tm);
      var c' := CountAtMost(p, tm);
      if t[|t| - 1] <= tm {
        assert c' == |p|;
        forall k | 0 <= k < |p| ensures t[k] <= tm {
          assert t[k] == p[k];
        }
      } else {
        forall k | 0 <= k < c' ensures t[k] <= tm {
          assert t[k] == p[k];
        }
        forall k | c' <= k < |p| ensures t[k] > tm {
          assert t[k] == p[k];
        }
      }
    }
  }

  /** The keyframe pair for time `tm`: the first key before the timeline
      starts, the last key once it has ended, else the two keys around
      `tm`. */
  function Keyframes(t: Timeline, tm: int): (r: (nat, nat))
    requires |t| > 0
    ensures r.0 <= r.1 < |t|
  {
    if tm < t[0] then (0, 0)
    else if t[|t| - 1] <= tm then (|t| - 1, |t| - 1)
    else
      var c := CountAtMost(t, tm);
      (c - 1, c)
  }

  /** Within the timeline, the pair is the consecutive keys `i`, `i + 1`
      with `t[i] <= tm < t[i + 1]`. */
  lemma KeyframesSpec(t: Timeline, tm: int)
    requires |t| > 0 && Increasing(t)
    ensures t[0] <= tm < t[|t| - 1] ==>
              var r := Keyframes(t, tm);
              r.1 == r.0 + 1 && t[r.0] <= tm < t[r.1]
    ensures tm < t[0] ==> Keyframes(t, tm) == (0, 0)
    ensures t[|t| - 1] <= tm ==> Keyframes(t, tm) == (|t| - 1, |t| - 1)
  {
    CountSplits(t, tm);
  }

  /** The keyframe pair is the one `KeyframesSpec` describes: no other
      consecutive pair brackets `tm`. */
  lemma KeyframesUnique(t: Timeline, tm: int, i: nat)
    requires |t| > 0 && Increasing(t)
    requires i + 1 < |t| && t[i] <= tm < t[i + 1]
    ensures Keyframes(t, tm) == (i, i + 1)
  {
    CountSplits(t, tm);
  }

  /** The binary search of `getKeyframes`, once `tm` is known not to precede
      the timeline: it ends on a key equal to `tm`, or where the bounds
      cross, and returns the pair of consecutive indices around it. */
  method Search(t: Timeline, tm: int) returns (r: (nat, nat))
    requires |t| > 0 && t[0] <= tm
    ensures r.1 == r.0 + 1 && r.1 <= |t|
    ensures tm < t[|t| - 1] ==> r.1 < |t|
    ensures Increasing(t) ==> t[r.0] <= tm && (r.1 < |t| ==> tm < t[r.1])
  {
    var beg: int := 0;
    var end: int := |t| - 1;
    var cur: int := (beg + end) / 2;
    while beg < end
      invariant 0 <= beg <= end + 1 && 0 <= end < |t|
      invariant cur == (beg + end) / 2
      invariant Increasing(t) ==> forall k :: 0 <= k < beg ==> t[k] < tm
      invariant Increasing(t) ==> forall k :: end < k < |t| ==> t[k] > tm
      invariant tm < t[|t| - 1] ==> end < |t| - 1 || beg <= end
      decreases end - beg + 1
    {
      if t[cur] < tm {
        beg := cur + 1;
      } else if t[cur] > tm {
        end := cur - 1;
      } else {
        break;
      }
      cur := (beg + end) / 2;
    }
    if t[cur] > tm {
      r := (cur - 1, cur);
    } else {
      r := (cur, cur + 1);
    }
  }

  /** `getKeyframes` as written: a time equal to the last key is not caught
      by the end-of-timeline check and reaches the search, which pairs the
      last key with the index past the end (see README, Findings). */
  method GetKeyframesAsWritten(t: Timeline, tm: int) returns (r: (nat, nat))
    requires |t| > 0
    ensures r.0 <= r.1 <= |t|
    ensures Increasing(t) && tm == t[|t| - 1] ==> r == (|t| - 1, |t|)
  {
    if t[0] > tm {
      return (0, 0);
    }
    if t[|t| - 1] < tm {
      return (|t| - 1, |t| - 1);
    }
    r := Search(t, tm);
  }

  /** `getKeyframes` with the end-of-timeline check including the last key:
      both indices are always keys of the timeline. */
  method GetKeyframes(t: Timeline, tm: int) returns (r: (nat, nat))
    requires |t| > 0
    ensures r.0 <= r.1 < |t|
    ensures tm < t[0] ==> r == (0, 0)
    ensures t[0] <= tm && t[|t| - 1] <= tm ==> r == (|t| - 1, |t| - 1)
    ensures t[0] <= tm < t[|t| - 1] ==> r.1 == r.0 + 1
    ensures Increasing(t) ==> r == Keyframes(t, tm)
  {
    if t[0] > tm {
      return (0, 0);
    }
    if t[|t| - 1] <= tm {
      return (|t| - 1, |t| - 1);
    }
    r := Search(t, tm);
    if Increasing(t) {
      KeyframesUnique(t, tm, r.0);
    }
  }

  function Dist(a: int, b: int): nat
  {
    if a < b then b - a else a - b
  }

  /** Step interpolation: of the two keys, the one nearer to `tm`, the
      later one on a tie. */
  function StepKey(t: Timeline, k0: nat, k1: nat, tm: int): (r: nat)
    requires k0 < |t| && k1 < |t|
    ensures r == k0 || r == k1
    ensures t[k0] <= tm <= t[k1] ==> Dist(tm, t[r]) <= Dist(tm, t[k0]) && Dist(tm, t[r]) <= Dist(tm, t[k1])
    ensures t[k0] <= tm <= t[k1] && Dist(tm, t[k0]) == Dist(tm, t[k1]) ==> r == k1
  {
    if tm - t[k0] < t[k1] - tm then k0 else k1
  }

  /** The transform path an action drives. */
  datatype Path = Translation | Rotation | Scale

  /** The interpolation method of an action. */
  datatype Interpolation = Step | Linear | Cubic

  /** `target`'s `path` is driven by timeline `input`, with values from output
      list `output`. */
  datatype Action = Action(path: Path, interpolation: Interpolation, input: nat, output: nat, target: nat)

  /** What an update does to an action's target: set it to one output key,
      set it to a blend of two keys (whose weight is floating point), or
      nothing (cubic interpolation is not written yet). */
  datatype Effect =
    | SetKey(target: nat, path: Path, output: nat, key: nat)
    | Blend(target: nat, path: Path, output: nat, from: nat, to: nat)
    | Untouched

  /** The effect of `a` at time `tm` on timeline `t`. */
  function EffectOf(a: Action, t: Timeline, tm: int): Effect
    requires |t| > 0
  {
    var k := Keyframes(t, tm);
    match a.interpolation
    case Step => SetKey(a.target, a.path, a.output, StepKey(t, k.0, k.1, tm))
    case Linear =>
      if k.0 != k.1 then Blend(a.target, a.path, a.output, k.0, k.1)
      else SetKey(a.target, a.path, a.output, k.0)
    case Cubic => Untouched
  }

  /** Every key an effect names is a key of a timeline of `n` keys. */
  predicate KeysWithin(e: Effect, n: nat)
  {
    match e
    case SetKey(_, _, _, key) => key < n
    case Blend(_, _, _, from, to) => from < n && to < n
    case Untouched => true
  }

  /** Every action names a timeline, and every timeline has a key. */
  predicate WellFormed(actions: seq<Action>, inputs: seq<Timeline>)
  {
    && (forall i :: 0 <= i < |inputs| ==> |inputs[i]| > 0)
    && (forall i :: 0 <= i < |actions| ==> actions[i].input < |inputs|)
  }

  ghost predicate AllIncreasing(inputs: seq<Timeline>)
  {
    forall i :: 0 <= i < |inputs| ==> Increasing(inputs[i])
  }

  function Last(t: Timeline): int
    requires |t| > 0
  {
    t[|t| - 1]
  }

  /** The effects of the actions in order. */
  function Effects(actions: seq<Action>, inputs: seq<Timeline>, tm: int): (r: seq<Effect>)
    requires WellFormed(actions, inputs)
    ensures |r| == |actions|
  {
    if |actions| == 0 then []
    else
      var a := actions[|actions| - 1];
      Effects(actions[..|actions| - 1], inputs, tm) + [EffectOf(a, inputs[a.input], tm)]
  }

  /** The number of actions whose timeline ends at or before `tm`. */
  function CountComplete(actions: seq<Action>, inputs: seq<Timeline>, tm: int): (c: nat)
    requires WellFormed(actions, inputs)
    ensures c <= |actions|
  {
    if |actions| == 0 then 0
    else
      var a := actions[|actions| - 1];
      CountComplete(actions[..|actions| - 1], inputs, tm) + (if Last(inputs[a.input]) <= tm then 1 else 0)
  }

  /** Every action's timeline ends at or before `tm`. */
  predicate AllComplete(actions: seq<Action>, inputs: seq<Timeline>, tm: int)
    requires WellFormed(actions, inputs)
  {
    forall i :: 0 <= i < |actions| ==> Last(inputs[actions[i].input]) <= tm
  }

  /** Counting the completed actions finds all of them exactly when every
      one is complete. */
  lemma {:induction false} CountCompleteAll(actions: seq<Action>, inputs: seq<Timeline>, tm: int)
    requires WellFormed(actions, inputs)
    ensures CountComplete(actions, inputs, tm) == |actions| <==> AllComplete(actions, inputs, tm)
  {
    if |actions| > 0 {
      var p := actions[..|actions| - 1];
      assert WellFormed(p, inputs);
      CountCompleteAll(p, inputs, tm);
      var a := actions[|actions| - 1];
      if AllComplete(actions, inputs, tm) {
        assert forall i :: 0 <= i < |p| ==> p[i] == actions[i];
        assert AllComplete(p, inputs, tm);
      } else if AllComplete(p, inputs, tm) {
        assert forall i :: 0 <= i < |p| ==> p[i] == actions[i];
        assert Last(inputs[a.input]) > tm;
      }
    }
  }

  class Animation {
    const inputs: seq<Timeline>
    var actions: seq<Action>
    var time: int
    var completed: bool
    /** The effects of the last update, in action order. */
    var applied: seq<Effect>

    ghost predicate Valid()
      reads this
    {
      WellFormed(actions, inputs)
    }

    /** A new animation has no actions, time zero and is not completed. */
    constructor (inputs: seq<Timeline>)
      requires forall i :: 0 <= i < |inputs| ==> |inputs[i]| > 0
      ensures Valid()
      ensures this.inputs == inputs && actions == [] && time == 0 && !completed && applied == []
    {
      this.inputs := inputs;
      actions := [];
      time := 0;
      completed := false;
      applied := [];
    }

    /** `play`: a completed animation stays put and reports false; otherwise
        the clock advances and the result tells whether it is still
        running. */
    method Play(elapsed: int) returns (running: bool)
      requires Valid()
      modifies this`time, this`completed, this`applied
      ensures Valid()
      ensures old(completed) ==> !running && completed && time == old(time) && applied == old(applied)
      ensures !old(completed) ==> && time == old(time) + elapsed
                                  && (completed <==> AllComplete(actions, inputs, time))
                                  && running == !completed
                                  && |applied| == |actions|
                                  && (AllIncreasing(inputs) ==> applied == Effects(actions, inputs, time))
    {
      if completed {
        return false;
      }
      Update(elapsed);
      running := !completed;
    }

    /** `stop`: rewinds the clock and clears completion. */
    method Stop()
      modifies this`time, this`completed
      ensures time == 0 && !completed
    {
      time := 0;
      completed := false;
    }

    /** `update`: advances the clock, applies every action at the new time
        and counts those whose timeline has ended. */
    method Update(elapsed: int)
      requires Valid()
      modifies this`time, this`completed, this`applied
      ensures time == old(time) + elapsed
      ensures completed <==> AllComplete(actions, inputs, time)
      ensures |applied| == |actions|
      ensures forall i :: 0 <= i < |applied| ==> KeysWithin(applied[i], |inputs[actions[i].input]|)
      ensures AllIncreasing(inputs) ==> applied == Effects(actions, inputs, time)
    {
      time := time + elapsed;
      var tm := time;
      var completeN := 0;
      var effects: seq<Effect> := [];
      for k := 0 to |actions|
        invariant time == tm
        invariant WellFormed(actions[..k], inputs)
        invariant completeN == CountComplete(actions[..k], inputs, tm)
        invariant |effects| == k
        invariant forall i :: 0 <= i < k ==> KeysWithin(effects[i], |inputs[actions[i].input]|)
        invariant AllIncreasing(inputs) ==> effects == Effects(actions[..k], inputs, tm)
      {
        var a := actions[k];
        var t := inputs[a.input];
        assert actions[..k + 1][..k] == actions[..k];
        if Last(t) <= tm {
          completeN := completeN + 1;
        }
        var e := ApplyAction(a, t, tm);
        effects := effects + [e];
      }
      assert actions[..|actions|] == actions;
      CountCompleteAll(actions, inputs, tm);
      completed := completeN == |actions|;
      applied := effects;
    }
  }

  /** `updateT`, `updateR` and `updateS`: the keyframes around `tm`, then
      the action's interpolation. */
  method ApplyAction(a: Action, t: Timeline, tm: int) returns (e: Effect)
    requires |t| > 0
    ensures KeysWithin(e, |t|)
    ensures Increasing(t) ==> e == EffectOf(a, t, tm)
  {
    var k := GetKeyframes(t, tm);
    match a.interpolation
    case Step =>
      e := SetKey(a.target, a.path, a.output, StepKey(t, k.0, k.1, tm));
    case Linear =>
      if k.0 != k.1 {
        e := Blend(a.target, a.path, a.output, k.0, k.1);
      } else {
        e := SetKey(a.target, a.path, a.output, k.0);
      }
    case Cubic =>
      e := Untouched;
  }

  /** One step-interpolated translation over keys 0, 10 and 20: at time 5
      the tie goes to key 1, at time 20 the animation completes on the last
      key, and a further `play` reports false until `stop`. */
  method AnimationScenario() returns (runs: seq<bool>, keys: seq<nat>)
    ensures runs == [true, false, false, true]
    ensures keys == [1, 2]
  {
    var t: Timeline := [0, 10, 20];
    assert Increasing(t);
    var anim := new Animation([t]);
    anim.actions := [Action(Translation, Step, 0, 0, 7)];
    assert AllIncreasing(anim.inputs);
    assert CountAtMost([0], 5) == 1 && CountAtMost([0, 10], 5) == 1 && CountAtMost(t, 5) == 1;
    assert Keyframes(t, 5) == (0, 1) && StepKey(t, 0, 1, 5) == 1;
    var r0 := anim.Play(5);
    assert anim.applied == [SetKey(7, Translation, 0, 1)];
    var k0 := anim.applied[0].key;
    assert r0;
    assert Keyframes(t, 20) == (2, 2) && StepKey(t, 2, 2, 20) == 2;
    var r1 := anim.Play(15);
    assert anim.applied == [SetKey(7, Translation, 0, 2)];
    assert !r1 && anim.completed;
    var k1 := anim.applied[0].key;
    var r2 := anim.Play(1);
    assert !r2;
    anim.Stop();
    var r3 := anim.Play(5);
    assert r3;
    runs := [r0, r1, r2, r3];
    keys := [k0, k1];
  }

  /** A `play` on an animation with no actions completes it at once. */
  method NoActionsComplete() returns (running: bool)
    ensures !running
  {
    var anim := new Animation([]);
    running := anim.Play(1);
  }
}
