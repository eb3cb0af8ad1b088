/** The circular-buffer moving average of `src/utils/runningAverager.ts`.

    The buffer holds optional samples; `AddData` overwrites the slot at the
    write cursor and advances the cursor, `GetMovingAverage` walks backward
    from the slot before the cursor and averages the valid samples it finds.
    The ghost field `History` records every sample ever written, so that the
    window can be described in terms of the writes instead of the slots. */
module Averaging {
  import opened JsValues
  import opened Constants

  /** One buffer slot: `null` is None, a number is Some(Finite(x)) or Some(NaN). */
  type Sample = Option<Num>

  /** The test `val !== null && !isNaN(val)`. */
  predicate IsReading(s: Sample) {
    s.Some? && s.value.Finite?
  }

  /** The readings of `s`, in the order they appear. */
  function ValidValues(s: seq<Sample>): (vs: seq<real>)
    ensures |vs| <= |s|
  {
    if s == [] then []
    else (if IsReading(s[0]) then [s[0].value.value] else []) + ValidValues(s[1..])
  }

  /** `values.reduce((a, b) => a + b, 0)`: a left fold starting at 0. */
  function Sum(vs: seq<real>): real {
    if vs == [] then 0.0 else Sum(vs[..|vs| - 1]) + vs[|vs| - 1]
  }

  /** `sum / validCount`; dividing 0 by 0 yields NaN. */
  function Mean(vs: seq<real>): Num {
    if |vs| == 0 then NaN else Finite(Sum(vs) / |vs| as real)
  }

  /** The `average` field for a window of samples. */
  function AverageOf(window: seq<Sample>, minValidCount: nat): Option<Num> {
    var vs := ValidValues(window);
    if |vs| >= minValidCount then Some(Mean(vs)) else None
  }

  datatype MovingAverage = MovingAverage(average: Option<Num>, validCount: nat, totalCount: nat)

  /** The slot read at step `i` of the backward walk: index
      `(index - 1 - i + length) % length` with the host's truncating `%`.
      A negative index reads `undefined`, which the validity test discards
      exactly like `null`, so it is modelled as None. */
  function Slot(buffer: seq<Sample>, index: int, i: int): Sample
    requires |buffer| > 0
  {
    var idx := JsRem(index - 1 - i + |buffer|, |buffer|);
    if 0 <= idx then buffer[idx] else None
  }

  /** The slots visited by a walk of `count` steps, oldest first: step `i`
      is put in front of the steps before it, as `unshift` does. */
  function Window(buffer: seq<Sample>, index: int, count: nat): (w: seq<Sample>)
    requires |buffer| > 0
    ensures |w| == count
  {
    if count == 0 then [] else [Slot(buffer, index, count - 1)] + Window(buffer, index, count - 1)
  }

  /** What slot `slot` of an `n`-slot buffer holds after the writes in
      `history`: the last sample written there, or the initial `null`. */
  function SlotValue(history: seq<Sample>, slot: int, n: int): Sample
    requires n > 0
  {
    if history == [] then None
    else if (|history| - 1) % n == slot then history[|history| - 1]
    else SlotValue(history[..|history| - 1], slot, n)
  }

  /** The last `count` writes, oldest first, padded in front with `null`
      when fewer than `count` samples were ever written. */
  function LastWritten(history: seq<Sample>, count: nat): (w: seq<Sample>)
    ensures |w| == count
  {
    seq(count, i requires 0 <= i < count =>
      if |history| - count + i >= 0 then history[|history| - count + i] else None)
  }

  // ---------------------------------------------------------------------
  // Arithmetic on the cursor

  lemma NoSmallMultiple(k: int, n: int)
    requires n > 0 && -n < k * n < n
    ensures k == 0
  {
  }

  /** Euclidean remainder is determined by any decomposition a = q * n + r. */
  lemma ModUnique(a: int, n: int, q: int, r: int)
    requires n > 0 && 0 <= r < n && a == q * n + r
    ensures a % n == r
  {
    var q' := a / n;
    assert a == q' * n + a % n;
    assert (q - q') * n == a % n - r;
    NoSmallMultiple(q - q', n);
  }

  lemma ModSuccessor(a: int, n: int)
    requires n > 0
    ensures (a % n + 1) % n == (a + 1) % n
  {
    var r := a % n;
    assert a == (a / n) * n + r;
    if r + 1 < n {
      ModUnique(a + 1, n, a / n, r + 1);
      ModUnique(r + 1, n, 0, r + 1);
    } else {
      ModUnique(a + 1, n, a / n + 1, 0);
      ModUnique(r + 1, n, 1, 0);
    }
  }

  // ---------------------------------------------------------------------
  // The buffer as a function of the writes

  /** A write that is at most `n` writes old is still in its slot. */
  lemma {:induction false} SlotHoldsRecentWrite(history: seq<Sample>, p: int, n: int)
    requires n > 0 && 0 <= p < |history| && |history| - n <= p
    ensures SlotValue(history, p % n, n) == history[p]
  {
    var last := |history| - 1;
    if p < last {
      assert last % n != p % n by {
        if last % n == p % n {
          ModUnique(last - p, n, last / n - p / n, 0);
        }
      }
      SlotHoldsRecentWrite(history[..last], p, n);
      assert history[..last][p] == history[p];
    }
  }

  /** A slot past the number of writes still holds its initial `null`. */
  lemma {:induction false} SlotNeverWritten(history: seq<Sample>, slot: int, n: int)
    requires n > 0 && |history| <= slot < n
    ensures SlotValue(history, slot, n) == None
  {
    if history != [] {
      ModUnique(|history| - 1, n, 0, |history| - 1);
      SlotNeverWritten(history[..|history| - 1], slot, n);
    }
  }

  /** One more write changes exactly the slot at the old cursor. */
  lemma SlotValueAfterWrite(history: seq<Sample>, s: Sample, slot: int, n: int)
    requires n > 0
    ensures SlotValue(history + [s], slot, n)
         == if slot == |history| % n then s else SlotValue(history, slot, n)
  {
    assert (history + [s])[..|history|] == history;
  }

  /** The slot that a walk of `count` steps back from cursor `index` ends at. */
  function WalkSlot(index: int, count: int, n: int): int {
    if index - count + n < n then index - count + n else index - count
  }

  lemma WalkIndex(index: int, count: int, n: int)
    requires 0 <= index < n && 0 < count <= n
    ensures JsRem(index - 1 - (count - 1) + n, n) == WalkSlot(index, count, n)
  {
    var arg := index - count + n;
    if arg < n { ModUnique(arg, n, 0, arg); } else { ModUnique(arg, n, 1, arg - n); }
  }

  lemma WalkSlotOfWrite(h: int, count: int, n: int)
    requires n > 0 && 0 < count <= n && count <= h
    ensures (h - count) % n == WalkSlot(h % n, count, n)
  {
    var q := h / n;
    var index := h % n;
    assert h == q * n + index;
    if index - count + n < n {
      ModUnique(h - count, n, q - 1, index - count + n);
    } else {
      ModUnique(h - count, n, q, index - count);
    }
  }

  /** The oldest slot of a `count`-step walk holds the write made `count`
      writes ago, or `null` when there was none. */
  lemma OldestSlotOfWalk(buffer: seq<Sample>, index: int, history: seq<Sample>, count: nat)
    requires |buffer| > 0 && index == |history| % |buffer|
    requires forall j :: 0 <= j < |buffer| ==> buffer[j] == SlotValue(history, j, |buffer|)
    requires 0 < count <= |buffer|
    ensures Slot(buffer, index, count - 1)
         == if |history| - count >= 0 then history[|history| - count] else None
  {
    var n := |buffer|;
    WalkIndex(index, count, n);
    var j := WalkSlot(index, count, n);
    if |history| >= count {
      WalkSlotOfWrite(|history|, count, n);
      SlotHoldsRecentWrite(history, |history| - count, n);
    } else {
      ModUnique(|history|, n, 0, |history|);
      SlotNeverWritten(history, j, n);
    }
  }

  /** The walk of `GetMovingAverage` sees exactly the last `count` writes,
      whenever the window is no larger than the buffer. */
  lemma {:induction false} WindowIsLastWritten(buffer: seq<Sample>, index: int, history: seq<Sample>, count: nat)
    requires |buffer| > 0 && index == |history| % |buffer|
    requires forall j :: 0 <= j < |buffer| ==> buffer[j] == SlotValue(history, j, |buffer|)
    requires count <= |buffer|
    ensures Window(buffer, index, count) == LastWritten(history, count)
  {
    if count > 0 {
      WindowIsLastWritten(buffer, index, history, count - 1);
      OldestSlotOfWalk(buffer, index, history, count);
      assert LastWritten(history, count) == [LastWritten(history, count)[0]] + LastWritten(history, count - 1);
    }
  }

  // ---------------------------------------------------------------------
  // What the average can be

  lemma {:induction false} SumAtMost(vs: seq<real>, hi: real)
    requires forall i :: 0 <= i < |vs| ==> vs[i] <= hi
    ensures Sum(vs) <= |vs| as real * hi
  {
    if vs != [] {
      SumAtMost(vs[..|vs| - 1], hi);
      assert (|vs| - 1) as real * hi + hi == |vs| as real * hi;
    }
  }

  lemma {:induction false} SumAtLeast(vs: seq<real>, lo: real)
    requires forall i :: 0 <= i < |vs| ==> lo <= vs[i]
    ensures |vs| as real * lo <= Sum(vs)
  {
    if vs != [] {
      SumAtLeast(vs[..|vs| - 1], lo);
      assert (|vs| - 1) as real * lo + lo == |vs| as real * lo;
    }
  }

  /** The mean of a non-empty set of readings lies between their bounds. */
  lemma MeanBetween(vs: seq<real>, lo: real, hi: real)
    requires |vs| > 0
    requires forall i :: 0 <= i < |vs| ==> lo <= vs[i] <= hi
    ensures Mean(vs).Finite? && lo <= Mean(vs).value <= hi
  {
    SumAtMost(vs, hi);
    SumAtLeast(vs, lo);
    var k := |vs| as real;
    assert Sum(vs) / k <= hi by {
      assert Sum(vs) / k * k == Sum(vs);
    }
    assert lo <= Sum(vs) / k by {
      assert Sum(vs) / k * k == Sum(vs);
    }
  }

  /** Every value collected from a window is the value of one of its readings. */
  lemma {:induction false} ValidValuesAreReadings(s: seq<Sample>, i: int)
    requires 0 <= i < |ValidValues(s)|
    ensures exists j :: 0 <= j < |s| && s[j] == Some(Finite(ValidValues(s)[i]))
  {
    var head := if IsReading(s[0]) then [s[0].value.value] else [];
    if i < |head| {
      assert s[0] == Some(Finite(ValidValues(s)[i]));
    } else {
      ValidValuesAreReadings(s[1..], i - |head|);
      var j :| 0 <= j < |s[1..]| && s[1..][j] == Some(Finite(ValidValues(s[1..])[i - |head|]));
      assert s[j + 1] == Some(Finite(ValidValues(s)[i]));
    }
  }

  /** A window ending in `m` readings collects at least `m` values. */
  lemma {:induction false} ReadingSuffixCounts(s: seq<Sample>, m: nat)
    requires m <= |s|
    requires forall j :: |s| - m <= j < |s| ==> IsReading(s[j])
    ensures m <= |ValidValues(s)|
  {
    if s != [] {
      ReadingSuffixCounts(s[1..], if m == |s| then m - 1 else m);
    }
  }

  /** Bounds on the samples carry over to the average of any window. */
  lemma AverageBetween(window: seq<Sample>, minValidCount: nat, lo: real, hi: real)
    requires minValidCount >= 1
    requires forall j :: 0 <= j < |window| && IsReading(window[j]) ==> lo <= window[j].value.value <= hi
    ensures var a := AverageOf(window, minValidCount);
            a.Some? ==> a.value.Finite? && lo <= a.value.value <= hi
  {
    var vs := ValidValues(window);
    if |vs| >= minValidCount {
      forall i | 0 <= i < |vs| ensures lo <= vs[i] <= hi {
        ValidValuesAreReadings(window, i);
      }
      MeanBetween(vs, lo, hi);
    }
  }

  /** A steady signal: once at least `minValidCount` samples, all the same
      reading `a`, fill the end of the history, the average is exactly `a`. */
  lemma SteadyReadingAverage(history: seq<Sample>, a: real, count: nat, minValidCount: nat)
    requires 1 <= minValidCount <= count && minValidCount <= |history|
    requires forall j :: 0 <= j < |history| ==> history[j] == Some(Finite(a))
    ensures AverageOf(LastWritten(history, count), minValidCount) == Some(Finite(a))
  {
    var w := LastWritten(history, count);
    var m := if |history| < count then |history| else count;
    ReadingSuffixCounts(w, m);
    AverageBetween(w, minValidCount, a, a);
  }

  /** A fresh averager has no average for any window. */
  lemma NoWritesNoAverage(count: nat, minValidCount: nat)
    requires minValidCount >= 1
    ensures AverageOf(LastWritten([], count), minValidCount) == None
  {
    var w := LastWritten([], count);
    if |ValidValues(w)| > 0 {
      ValidValuesAreReadings(w, 0);
    }
  }

  // ---------------------------------------------------------------------
  // The class

  class RunningAverager {
    const buffer: array<Sample>
    var index: nat
    /** Every sample written since construction, oldest first. */
    ghost var History: seq<Sample>

    ghost predicate Valid()
      reads this, buffer
    {
      buffer.Length == MovingAverageBufferSize &&
      index == |History| % buffer.Length &&
      forall j :: 0 <= j < buffer.Length ==> buffer[j] == SlotValue(History, j, buffer.Length)
    }

    /** A buffer of `MovingAverageBufferSize` slots, all `null`. */
    constructor ()
      ensures Valid() && fresh(buffer)
      ensures History == [] && index == 0
      ensures forall j :: 0 <= j < buffer.Length ==> buffer[j] == None
    {
      buffer := new Sample[MovingAverageBufferSize](_ => None);
      index := 0;
      History := [];
    }

    method AddData(angle: Sample)
      requires Valid()
      modifies this, buffer
      ensures Valid()
      ensures buffer[old(index)] == angle
      ensures forall j :: 0 <= j < buffer.Length && j != old(index) ==> buffer[j] == old(buffer[j])
      ensures index == (old(index) + 1) % buffer.Length
      ensures History == old(History) + [angle]
    {
      ModSuccessor(|History|, buffer.Length);
      buffer[index] := angle;
      index := (index + 1) % buffer.Length;
      forall j | 0 <= j < buffer.Length
        ensures buffer[j] == SlotValue(History + [angle], j, buffer.Length)
      {
        SlotValueAfterWrite(History, angle, j, buffer.Length);
      }
      History := History + [angle];
    }

    method GetMovingAverage(windowSize: nat, minValidCount: nat) returns (r: MovingAverage)
      requires Valid()
      ensures r.totalCount == windowSize
      ensures r.validCount == |ValidValues(Window(buffer[..], index, windowSize))| <= windowSize
      ensures r.average.None? <==> r.validCount < minValidCount
      ensures r.average.Some? ==> r.average.value == Mean(ValidValues(Window(buffer[..], index, windowSize)))
      ensures windowSize <= buffer.Length ==>
                r.average == AverageOf(LastWritten(History, windowSize), minValidCount) &&
                r.validCount == |ValidValues(LastWritten(History, windowSize))|
    {
      var values: seq<real> := [];
      var i := 0;
      while i < windowSize
        invariant 0 <= i <= windowSize
        invariant values == ValidValues(Window(buffer[..], index, i))
      {
        var idx := JsRem(index - 1 - i + buffer.Length, buffer.Length);
        var val: Sample := if 0 <= idx then buffer[idx] else None;
        assert val == Slot(buffer[..], index, i);
        if val.Some? && val.value.Finite? {
          values := [val.value.value] + values;
        }
        i := i + 1;
      }
      var validCount := |values|;
      var average := if validCount >= minValidCount then Some(Mean(values)) else None;
      r := MovingAverage(average, validCount, windowSize);
      if windowSize <= buffer.Length {
        WindowIsLastWritten(buffer[..], index, History, windowSize);
      }
    }
  }
}
