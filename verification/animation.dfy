/** The `Animation` interface's key-frame contract, as a reference model over a
    sequence of key frames kept in strictly increasing frame order. */
module Animations {
  import opened Wrappers

  datatype Parameter = Parameter(id: nat)

  /** A key frame: a frame number and the values recorded for some parameters. */
  datatype KeyFrame = KeyFrame(frame: int, values: map<Parameter, real>)

  datatype Animation = Animation(keyFrames: seq<KeyFrame>, frameCount: int, currentFrame: int, zoomScalingRequired: bool)

  datatype AnimationError = FrameOutOfRange(frame: int)

  /** Ordered by frame, at most one key frame per frame. */
  predicate Sorted(ks: seq<KeyFrame>) {
    forall i, j :: 0 <= i < j < |ks| ==> ks[i].frame < ks[j].frame
  }

  predicate Valid(a: Animation) {
    Sorted(a.keyFrames)
  }

  function KeyFrameCount(a: Animation): (n: nat)
    ensures n == |a.keyFrames|
  {
    |a.keyFrames|
  }

  /** `hasKeyFrames`. */
  function HasKeyFrames(a: Animation): (b: bool)
    ensures b <==> KeyFrameCount(a) > 0
  {
    a.keyFrames != []
  }

  /** Whether a key frame lies strictly before `frame` and holds `p`. */
  predicate HoldsBefore(k: KeyFrame, p: Parameter, frame: int) {
    k.frame < frame && p in k.values
  }

  predicate HoldsAfter(k: KeyFrame, p: Parameter, frame: int) {
    k.frame > frame && p in k.values
  }

  /** The last index whose key frame holds `p` before `frame`. */
  function LastIndexBefore(ks: seq<KeyFrame>, p: Parameter, frame: int): (o: Option<nat>)
    ensures o.Some? ==> o.value < |ks| && HoldsBefore(ks[o.value], p, frame)
    ensures o.Some? ==> forall j :: o.value < j < |ks| ==> !HoldsBefore(ks[j], p, frame)
    ensures o.None? ==> forall j :: 0 <= j < |ks| ==> !HoldsBefore(ks[j], p, frame)
    decreases |ks|
  {
    if |ks| == 0 then None
    else if HoldsBefore(ks[|ks| - 1], p, frame) then Some(|ks| - 1)
    else LastIndexBefore(ks[..|ks| - 1], p, frame)
  }

  /** The first index whose key frame holds `p` after `frame`. */
  function FirstIndexAfter(ks: seq<KeyFrame>, p: Parameter, frame: int): (o: Option<nat>)
    ensures o.Some? ==> o.value < |ks| && HoldsAfter(ks[o.value], p, frame)
    ensures o.Some? ==> forall j :: 0 <= j < o.value ==> !HoldsAfter(ks[j], p, frame)
    ensures o.None? ==> forall j :: 0 <= j < |ks| ==> !HoldsAfter(ks[j], p, frame)
    decreases |ks|
  {
    if |ks| == 0 then None
    else if HoldsAfter(ks[0], p, frame) then Some(0)
    else match FirstIndexAfter(ks[1..], p, frame)
      case Some(k) => Some(k + 1)
      case None => None
  }

  /** `getKeyFrameWithParameterBeforeFrame`: the nearest key frame strictly
      before `frame` holding `p`, or none exactly when no such key frame exists. */
  function KeyFrameBefore(a: Animation, p: Parameter, frame: int): (o: Option<KeyFrame>)
    requires Valid(a)
    ensures o.Some? ==> o.value in a.keyFrames && HoldsBefore(o.value, p, frame)
    ensures o.Some? ==> forall k :: k in a.keyFrames && HoldsBefore(k, p, frame) ==> k.frame <= o.value.frame
    ensures o.None? <==> forall k :: k in a.keyFrames ==> !HoldsBefore(k, p, frame)
  {
    match LastIndexBefore(a.keyFrames, p, frame)
    case Some(i) => Some(a.keyFrames[i])
    case None => None
  }

  /** `getKeyFrameWithParameterAfterFrame`: the nearest key frame strictly after
      `frame` holding `p`, or none exactly when no such key frame exists. */
  function KeyFrameAfter(a: Animation, p: Parameter, frame: int): (o: Option<KeyFrame>)
    requires Valid(a)
    ensures o.Some? ==> o.value in a.keyFrames && HoldsAfter(o.value, p, frame)
    ensures o.Some? ==> forall k :: k in a.keyFrames && HoldsAfter(k, p, frame) ==> k.frame >= o.value.frame
    ensures o.None? <==> forall k :: k in a.keyFrames ==> !HoldsAfter(k, p, frame)
  {
    match FirstIndexAfter(a.keyFrames, p, frame)
    case Some(i) => Some(a.keyFrames[i])
    case None => None
  }

  /** `getFirstKeyFrame`. */
  function FirstKeyFrame(a: Animation): (o: Option<KeyFrame>)
    requires Valid(a)
    ensures o.None? <==> !HasKeyFrames(a)
    ensures o.Some? ==> o.value in a.keyFrames && forall k :: k in a.keyFrames ==> o.value.frame <= k.frame
  {
    if a.keyFrames == [] then None else Some(a.keyFrames[0])
  }

  /** `getLastKeyFrame`. */
  function LastKeyFrame(a: Animation): (o: Option<KeyFrame>)
    requires Valid(a)
    ensures o.None? <==> !HasKeyFrames(a)
    ensures o.Some? ==> o.value in a.keyFrames && forall k :: k in a.keyFrames ==> k.frame <= o.value.frame
  {
    if a.keyFrames == [] then None else Some(a.keyFrames[|a.keyFrames| - 1])
  }

  /** `getFrameOfFirstKeyFrame`: the smallest key frame number, or 0. */
  function FrameOfFirstKeyFrame(a: Animation): (f: int)
    requires Valid(a)
    ensures !HasKeyFrames(a) ==> f == 0
    ensures HasKeyFrames(a) ==> (exists k :: k in a.keyFrames && k.frame == f) && forall k :: k in a.keyFrames ==> f <= k.frame
  {
    match FirstKeyFrame(a)
    case Some(k) => k.frame
    case None => 0
  }

  /** `getFrameOfLastKeyFrame`: the largest key frame number, or 0. */
  function FrameOfLastKeyFrame(a: Animation): (f: int)
    requires Valid(a)
    ensures !HasKeyFrames(a) ==> f == 0
    ensures HasKeyFrames(a) ==> (exists k :: k in a.keyFrames && k.frame == f) && forall k :: k in a.keyFrames ==> k.frame <= f
  {
    match LastKeyFrame(a)
    case Some(k) => k.frame
    case None => 0
  }

  /** The key frames at or before frame `n`, in order. */
  function UpTo(ks: seq<KeyFrame>, n: int): (r: seq<KeyFrame>)
    ensures forall k :: k in r <==> k in ks && k.frame <= n
    decreases |ks|
  {
    if |ks| == 0 then []
    else
      var rest := UpTo(ks[1..], n);
      if ks[0].frame <= n then [ks[0]] + rest else rest
  }

  lemma {:induction false} UpToSorted(ks: seq<KeyFrame>, n: int)
    requires Sorted(ks)
    ensures Sorted(UpTo(ks, n))
    decreases |ks|
  {
    if |ks| > 0 {
      UpToSorted(ks[1..], n);
      var rest := UpTo(ks[1..], n);
      if ks[0].frame <= n {
        forall k | k in rest ensures ks[0].frame < k.frame {
          var m :| 0 <= m < |ks| - 1 && ks[1..][m] == k;
          assert ks[m + 1] == k;
        }
        SortedCons(ks[0], rest);
      }
    }
  }

  lemma SortedCons(x: KeyFrame, rest: seq<KeyFrame>)
    requires Sorted(rest) && forall k :: k in rest ==> x.frame < k.frame
    ensures Sorted([x] + rest)
  {
    var r := [x] + rest;
    forall i, j | 0 <= i < j < |r| ensures r[i].frame < r[j].frame {
      assert r[j] == rest[j - 1];
      if i > 0 {
        assert r[i] == rest[i - 1];
      }
    }
  }

  /** `setFrameCount`: shrinking drops exactly the key frames after the new
      count; growing keeps them all. */
  function SetFrameCount(a: Animation, n: int): (a': Animation)
    requires Valid(a)
    ensures Valid(a') && a'.frameCount == n
    ensures a' == a.(keyFrames := a'.keyFrames, frameCount := n)
    ensures n < a.frameCount ==> forall k :: k in a'.keyFrames <==> k in a.keyFrames && k.frame <= n
    ensures n >= a.frameCount ==> a'.keyFrames == a.keyFrames
  {
    UpToSorted(a.keyFrames, n);
    if n < a.frameCount then a.(keyFrames := UpTo(a.keyFrames, n), frameCount := n)
    else a.(frameCount := n)
  }

  /** `applyFrame`: frames outside 0..frameCount are rejected. */
  function ApplyFrame(a: Animation, frame: int): (o: Result<int, AnimationError>)
    ensures o.Failure? <==> frame < 0 || frame > a.frameCount
    ensures o.Failure? ==> o.error == FrameOutOfRange(frame)
    ensures o.Success? ==> o.value == frame
  {
    if frame < 0 || frame > a.frameCount then Failure(FrameOutOfRange(frame)) else Success(frame)
  }

  /** The key frame at `frame`, if there is one. */
  function AtFrame(ks: seq<KeyFrame>, frame: int): (o: Option<KeyFrame>)
    ensures o.Some? ==> o.value in ks && o.value.frame == frame
    ensures o.None? <==> forall k :: k in ks ==> k.frame != frame
    decreases |ks|
  {
    if |ks| == 0 then None
    else if ks[0].frame == frame then Some(ks[0])
    else AtFrame(ks[1..], frame)
  }

  /** Inserts a key frame in order, merging it into a key frame at the same frame. */
  function Insert(ks: seq<KeyFrame>, k: KeyFrame): (r: seq<KeyFrame>)
    requires Sorted(ks)
    ensures Sorted(r)
    ensures forall j :: j in r ==> j.frame == k.frame || j in ks
    ensures forall j :: j in ks && j.frame != k.frame ==> j in r
    decreases |ks|
  {
    if |ks| == 0 then [k]
    else if ks[0].frame == k.frame then [KeyFrame(k.frame, ks[0].values + k.values)] + ks[1..]
    else if k.frame < ks[0].frame then [k] + ks
    else
      var rest := Insert(ks[1..], k);
      assert forall j :: j in rest ==> ks[0].frame < j.frame;
      [ks[0]] + rest
  }

  /** After inserting, the key frame at the inserted frame holds the old values
      overridden by the new ones, and the count grows exactly when the frame was
      not yet keyed. */
  lemma {:induction false} InsertMerges(ks: seq<KeyFrame>, k: KeyFrame)
    requires Sorted(ks)
    ensures AtFrame(Insert(ks, k), k.frame) ==
      Some(match AtFrame(ks, k.frame) case Some(prev) => KeyFrame(k.frame, prev.values + k.values) case None => k)
    ensures |Insert(ks, k)| == if AtFrame(ks, k.frame).Some? then |ks| else |ks| + 1
    decreases |ks|
  {
    if |ks| > 0 && ks[0].frame != k.frame && k.frame > ks[0].frame {
      InsertMerges(ks[1..], k);
    } else if |ks| > 0 && k.frame < ks[0].frame {
      assert forall j :: j in ks ==> j.frame != k.frame;
    }
  }

  /** `insertKeyFrame`. */
  function InsertKeyFrame(a: Animation, k: KeyFrame): (a': Animation)
    requires Valid(a)
    ensures Valid(a') && a' == a.(keyFrames := a'.keyFrames)
    ensures forall j :: j in a'.keyFrames ==> j.frame == k.frame || j in a.keyFrames
    ensures forall j :: j in a.keyFrames && j.frame != k.frame ==> j in a'.keyFrames
  {
    a.(keyFrames := Insert(a.keyFrames, k))
  }

  /** `recordKeyFrame(frame, parameters)`: the parameters' current values become
      a key frame at `frame`; with no parameters nothing is recorded. */
  function RecordKeyFrame(a: Animation, frame: int, parameters: set<Parameter>, valueOf: Parameter -> real): (a': Animation)
    requires Valid(a)
    ensures Valid(a')
    ensures parameters == {} ==> a' == a
    ensures parameters != {} ==> a' == InsertKeyFrame(a, KeyFrame(frame, map p | p in parameters :: valueOf(p)))
  {
    if parameters == {} then a
    else InsertKeyFrame(a, KeyFrame(frame, map p | p in parameters :: valueOf(p)))
  }

  /** A recorded key frame holds, at its frame, the recorded values over any
      values already keyed there, and leaves every other frame alone. */
  lemma RecordKeyFrameStoresValues(a: Animation, frame: int, parameters: set<Parameter>, valueOf: Parameter -> real)
    requires Valid(a) && parameters != {}
    ensures var a' := RecordKeyFrame(a, frame, parameters, valueOf);
      && AtFrame(a'.keyFrames, frame).Some?
      && (forall p :: p in parameters ==>
            p in AtFrame(a'.keyFrames, frame).value.values && AtFrame(a'.keyFrames, frame).value.values[p] == valueOf(p))
      && (forall p :: p !in parameters && AtFrame(a.keyFrames, frame).Some? && p in AtFrame(a.keyFrames, frame).value.values ==>
            p in AtFrame(a'.keyFrames, frame).value.values && AtFrame(a'.keyFrames, frame).value.values[p] == AtFrame(a.keyFrames, frame).value.values[p])
      && KeyFrameCount(a') == KeyFrameCount(a) + (if AtFrame(a.keyFrames, frame).Some? then 0 else 1)
  {
    InsertMerges(a.keyFrames, KeyFrame(frame, map p | p in parameters :: valueOf(p)));
  }
}
