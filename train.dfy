/**
 * The train: a head that records its position every frame, most recent
 * first, and a list of cars, each of which is steered toward the position
 * the head had a fixed number of frames earlier.
 *
 * Positions are an opaque type `P`; the head's float motion, each car's
 * chase step and its `LookAt` are not modelled. What is modelled is which
 * recorded position every car is sent toward.
 */
module Train {
  import opened Numerics

  /** Default number of history entries between two consecutive cars. */
  const DEFAULT_GAP: int32 := 10
  /** Default number of history entries between the head and the first car. */
  const DEFAULT_FIRST_CAR_GAP: int32 := 20

  /** `Mathf.Clamp` on ints: `value` pulled into `[min, max]`, `min` checked first. */
  function Clamp(value: int, min: int, max: int): (r: int)
    ensures min <= max ==> min <= r <= max
    ensures min <= value <= max ==> r == value
    ensures value < min ==> r == min
    ensures min <= value && max < value ==> r == max
  {
    if value < min then min else if value > max then max else value
  }

  /**
   * The history index car `index` samples when the history holds `count`
   * entries: the first car uses `firstCarGap` on its own, later cars
   * `firstCarGap + index * gap`, computed as unchecked 32-bit C# ints.
   */
  function HistoryIndex(firstCarGap: int32, gap: int32, index: nat, count: nat): (r: nat)
    requires count > 0
    ensures r < count
  {
    if index == 0 then Clamp(firstCarGap, 0, count - 1)
    else Clamp(Wrap(firstCarGap + Wrap(index * gap)), 0, count - 1)
  }

  /** The offset car `index` is meant to keep from the head, in exact integers. */
  function Offset(firstCarGap: int, gap: int, index: nat): int {
    firstCarGap + index * gap
  }

  /** The special case for the first car is the general formula at index 0. */
  lemma FirstCarIsGeneralCase(firstCarGap: int32, gap: int32, count: nat)
    requires count > 0
    ensures HistoryIndex(firstCarGap, gap, 0, count)
         == Clamp(Wrap(firstCarGap + Wrap(0 * gap)), 0, count - 1)
  {
  }

  /**
   * When the exact offset fits in an int, the sampled index is that offset
   * clamped into the history, even if `index * gap` alone overflows: C#'s
   * unchecked sum still lands on the exact value.
   */
  lemma {:induction false} IndexIsClampedOffset(firstCarGap: int32, gap: int32, index: nat, count: nat)
    requires count > 0
    requires InInt32(Offset(firstCarGap, gap, index))
    ensures HistoryIndex(firstCarGap, gap, index, count) == Clamp(Offset(firstCarGap, gap, index), 0, count - 1)
  {
    if index == 0 {
      assert Offset(firstCarGap, gap, index) == firstCarGap;
    } else {
      WrapAddWrap(firstCarGap, index * gap);
    }
  }

  /** Once the history is long enough, a car samples exactly its offset. */
  lemma {:induction false} IndexIsOffset(firstCarGap: int32, gap: int32, index: nat, count: nat)
    requires InInt32(Offset(firstCarGap, gap, index))
    requires 0 <= Offset(firstCarGap, gap, index) < count
    ensures HistoryIndex(firstCarGap, gap, index, count) == Offset(firstCarGap, gap, index)
  {
    IndexIsClampedOffset(firstCarGap, gap, index, count);
  }

  lemma MulMonotone(i: nat, j: nat, gap: int)
    requires i <= j && 0 <= gap
    ensures 0 <= i * gap <= j * gap
  {
    assert j * gap == i * gap + (j - i) * gap;
  }

  /**
   * With a non-negative gap and the later car's offset within int range, indices are
   * non-decreasing along the train: a later car never samples a newer
   * position than an earlier one.
   */
  lemma {:induction false} IndicesNonDecreasing(firstCarGap: int32, gap: int32, i: nat, j: nat, count: nat)
    requires count > 0 && i <= j && 0 <= gap
    requires Offset(firstCarGap, gap, j) <= MAX_INT32
    ensures HistoryIndex(firstCarGap, gap, i, count) <= HistoryIndex(firstCarGap, gap, j, count)
  {
    MulMonotone(i, j, gap);
    MulMonotone(0, i, gap);
    IndexIsClampedOffset(firstCarGap, gap, i, count);
    IndexIsClampedOffset(firstCarGap, gap, j, count);
  }

  /** The history after the head reported `positions` in order, one per frame, starting from `history`. */
  function Replay<P>(history: seq<P>, positions: seq<P>): (r: seq<P>)
    ensures |r| == |history| + |positions|
    decreases |positions|
  {
    if positions == [] then history else Replay([positions[0]] + history, positions[1..])
  }

  /** Replaying one more frame prepends that frame's position. */
  lemma {:induction false} ReplaySnoc<P>(history: seq<P>, positions: seq<P>, p: P)
    ensures Replay(history, positions + [p]) == [p] + Replay(history, positions)
    decreases |positions|
  {
    if positions == [] {
      assert Replay([p] + history, []) == [p] + history;
    } else {
      assert (positions + [p])[1..] == positions[1..] + [p];
      ReplaySnoc([positions[0]] + history, positions[1..], p);
    }
  }

  /**
   * Entry `k` of the replayed history is the position reported `k` frames
   * before the last one, or, further back, whatever was recorded before.
   */
  lemma {:induction false} ReplayAt<P>(history: seq<P>, positions: seq<P>, k: nat)
    requires k < |history| + |positions|
    ensures |Replay(history, positions)| == |history| + |positions|
    ensures Replay(history, positions)[k]
         == if k < |positions| then positions[|positions| - 1 - k] else history[k - |positions|]
    decreases |positions|
  {
    if positions != [] {
      ReplayAt([positions[0]] + history, positions[1..], k);
    }
  }

  /**
   * Car `index` is sent toward exactly the head position recorded
   * `firstCarGap + index * gap` frames before the newest one, once that
   * many frames have been recorded.
   */
  lemma CarShowsPast<P>(positions: seq<P>, firstCarGap: int32, gap: int32, index: nat)
    requires InInt32(Offset(firstCarGap, gap, index))
    requires 0 <= Offset(firstCarGap, gap, index) < |positions|
    ensures HistoryIndex(firstCarGap, gap, index, |positions|) < |Replay([], positions)|
    ensures Replay([], positions)[HistoryIndex(firstCarGap, gap, index, |positions|)]
         == positions[|positions| - 1 - Offset(firstCarGap, gap, index)]
  {
    IndexIsOffset(firstCarGap, gap, index, |positions|);
    ReplayAt([], positions, Offset(firstCarGap, gap, index));
  }

  /**
   * With the default gaps, after the head reported positions 0, 1, ..., 99
   * the three starting cars are sent toward positions 79, 69 and 59.
   */
  lemma DefaultTrainAfterHundredFrames(positions: seq<int>)
    requires |positions| == 100 && forall t :: 0 <= t < 100 ==> positions[t] == t
    ensures Replay([], positions)[HistoryIndex(DEFAULT_FIRST_CAR_GAP, DEFAULT_GAP, 0, 100)] == 79
    ensures Replay([], positions)[HistoryIndex(DEFAULT_FIRST_CAR_GAP, DEFAULT_GAP, 1, 100)] == 69
    ensures Replay([], positions)[HistoryIndex(DEFAULT_FIRST_CAR_GAP, DEFAULT_GAP, 2, 100)] == 59
  {
    CarShowsPast(positions, DEFAULT_FIRST_CAR_GAP, DEFAULT_GAP, 0);
    CarShowsPast(positions, DEFAULT_FIRST_CAR_GAP, DEFAULT_GAP, 1);
    CarShowsPast(positions, DEFAULT_FIRST_CAR_GAP, DEFAULT_GAP, 2);
  }

  /**
   * The train controller. Cars are identified by the number of the
   * instantiation that created them; `frames` is the ghost record of every
   * head position `Update` has stored, oldest first.
   */
  class TrainController<P> {
    const gap: int32
    const firstCarGap: int32

    var cars: seq<nat>
    var positionsHistory: seq<P>

    /** Number of cars instantiated so far; the next car gets this id. */
    var instantiated: nat
    ghost var frames: seq<P>

    ghost predicate Valid()
      reads this
    {
      && positionsHistory == Replay([], frames)
      && (forall i :: 0 <= i < |cars| ==> cars[i] < instantiated)
      && (forall i, j :: 0 <= i < j < |cars| ==> cars[i] < cars[j])
    }

    /** The component as the engine creates it: empty car list, empty history. */
    constructor (firstCarGap: int32, gap: int32)
      ensures Valid()
      ensures this.firstCarGap == firstCarGap && this.gap == gap
      ensures cars == [] && positionsHistory == [] && frames == []
    {
      this.firstCarGap := firstCarGap;
      this.gap := gap;
      cars := [];
      positionsHistory := [];
      instantiated := 0;
      frames := [];
    }

    /** Appends one newly instantiated car at the rear; history and the other cars are untouched. */
    method GrowTrain()
      requires Valid()
      modifies this
      ensures Valid()
      ensures |cars| == |old(cars)| + 1 && cars[..|old(cars)|] == old(cars)
      ensures cars[|cars| - 1] !in old(cars)
      ensures positionsHistory == old(positionsHistory) && frames == old(frames)
    {
      cars := cars + [instantiated];
      instantiated := instantiated + 1;
    }

    /** Start: the train begins with three more cars (on a fresh component, exactly three). */
    method Start()
      requires Valid()
      modifies this
      ensures Valid()
      ensures |cars| == |old(cars)| + 3 && cars[..|old(cars)|] == old(cars)
      ensures forall i :: |old(cars)| <= i < |cars| ==> cars[i] !in old(cars)
      ensures positionsHistory == old(positionsHistory) && frames == old(frames)
    {
      GrowTrain();
      GrowTrain();
      GrowTrain();
    }

    /**
     * The car-moving loop of `Update`: for each car, in order, the
     * history entry it is sent toward. It reads the history and the car
     * list and changes neither.
     */
    method CarTargets() returns (points: seq<P>)
      requires |positionsHistory| > 0
      ensures |points| == |cars|
      ensures forall i :: 0 <= i < |cars| ==>
                points[i] == positionsHistory[HistoryIndex(firstCarGap, gap, i, |positionsHistory|)]
    {
      points := [];
      var index := 0;
      while index < |cars|
        invariant 0 <= index <= |cars|
        invariant |points| == index
        invariant forall i :: 0 <= i < index ==>
                    points[i] == positionsHistory[HistoryIndex(firstCarGap, gap, i, |positionsHistory|)]
      {
        var historyIndex;
        if index == 0 {
          historyIndex := Clamp(firstCarGap, 0, |positionsHistory| - 1);
        } else {
          historyIndex := Clamp(Wrap(firstCarGap + Wrap(index * gap)), 0, |positionsHistory| - 1);
        }
        points := points + [positionsHistory[historyIndex]];
        index := index + 1;
      }
    }

    /**
     * One frame: store the head's new position `head` in front of the
     * history, then send every car toward its sampled entry (`points`).
     */
    method Update(head: P) returns (points: seq<P>)
      requires Valid()
      modifies this
      ensures Valid()
      ensures positionsHistory == [head] + old(positionsHistory)
      ensures forall k :: 0 <= k < |old(positionsHistory)| ==> positionsHistory[k + 1] == old(positionsHistory)[k]
      ensures frames == old(frames) + [head]
      ensures cars == old(cars)
      ensures |points| == |cars|
      ensures forall i :: 0 <= i < |cars| ==>
                points[i] == positionsHistory[HistoryIndex(firstCarGap, gap, i, |positionsHistory|)]
      ensures forall i :: (0 <= i < |cars| && InInt32(Offset(firstCarGap, gap, i))
                           && 0 <= Offset(firstCarGap, gap, i) < |frames|) ==>
                points[i] == frames[|frames| - 1 - Offset(firstCarGap, gap, i)]
    {
      positionsHistory := [head] + positionsHistory;
      ReplaySnoc([], frames, head);
      frames := frames + [head];
      points := CarTargets();
      forall i | 0 <= i < |cars| && InInt32(Offset(firstCarGap, gap, i))
                 && 0 <= Offset(firstCarGap, gap, i) < |frames|
        ensures points[i] == frames[|frames| - 1 - Offset(firstCarGap, gap, i)]
      {
        CarShowsPast(frames, firstCarGap, gap, i);
      }
    }
  }
}
