/**
 * The tail: a bounded history of head snapshots. Each frame with a focused
 * element pushes a copy of the head and, once the tail is longer than
 * TAIL_LENGTH, drops its oldest entry.
 */
module Trail {

  const TailLength: nat := 8

  /** `tail.push(p)` followed by `if (tail.length > TAIL_LENGTH) tail.shift()`. */
  function Push<T>(tail: seq<T>, p: T): (t: seq<T>)
    ensures |tail| <= TailLength ==> |t| <= TailLength
    ensures |t| > 0 && t[|t| - 1] == p
    ensures |tail| < TailLength ==> t == tail + [p]
    ensures |tail| == TailLength ==> t == tail[1..] + [p]
  {
    var pushed := tail + [p];
    if |pushed| > TailLength then pushed[1..] else pushed
  }

  /** The TAIL_LENGTH most recent entries of a history (all of it while it is shorter). */
  function Recent<T>(history: seq<T>): (t: seq<T>)
    ensures |t| <= TailLength
    ensures |history| <= TailLength ==> t == history
    ensures |history| > TailLength ==> |t| == TailLength
    ensures forall i :: 0 <= i < |t| ==> t[i] == history[|history| - |t| + i]
  {
    if |history| <= TailLength then history else history[|history| - TailLength..]
  }

  /** Pushing onto the recent entries of a history gives the recent entries of the longer history. */
  lemma PushRecent<T>(history: seq<T>, p: T)
    ensures Push(Recent(history), p) == Recent(history + [p])
  {
    var h' := history + [p];
    if |history| >= TailLength {
      assert Recent(history)[1..] + [p] == h'[|h'| - TailLength..];
    }
  }

  /** The trail is stroked only when the tail holds more than three points. */
  predicate DrawsTrail<T>(tail: seq<T>)
  {
    |tail| > 3
  }

  /**
   * The tail of a history is stroked exactly from the fourth snapshot on:
   * once drawn, the trail stays drawn while snapshots keep coming.
   */
  lemma RecentDrawsTrail<T>(history: seq<T>)
    ensures DrawsTrail(Recent(history)) <==> |history| > 3
  {
  }

}
