/** The bounded recent-history queue: each pick is pushed at the end, and
    the oldest entry is shifted off once the queue is longer than
    `MaxHistory`. */
module History {

  /** `MAX_HISTORY`. */
  const MaxHistory: nat := 3

  /** The most recent `MaxHistory` entries of `s` (all of `s` when shorter). */
  function Recent<T>(s: seq<T>): (r: seq<T>)
    ensures |r| == if |s| <= MaxHistory then |s| else MaxHistory
  {
    if |s| <= MaxHistory then s else s[|s| - MaxHistory..]
  }

  /** `lastSuggestions.push(s)`, then `shift()` when over capacity. The
      result is a suffix of the old queue followed by `s`: at most one entry,
      the oldest, is dropped, and the order of the rest is kept. */
  function Remember<T>(history: seq<T>, s: T): (r: seq<T>)
    ensures |r| == if |history| < MaxHistory then |history| + 1 else |history|
    ensures |history| <= MaxHistory ==> |r| <= MaxHistory
    ensures r[|r| - 1] == s
    ensures r[..|r| - 1] == history[|history| + 1 - |r|..]
  {
    var pushed := history + [s];
    if |pushed| > MaxHistory then pushed[1..] else pushed
  }

  /** The queue after a run of picks, pushed one by one. */
  function RememberAll<T>(history: seq<T>, picks: seq<T>): seq<T>
    decreases |picks|
  {
    if picks == [] then history
    else Remember(RememberAll(history, picks[..|picks| - 1]), picks[|picks| - 1])
  }

  /** One push keeps the queue equal to the most recent entries. */
  lemma RememberRecent<T>(w: seq<T>, s: T)
    ensures Remember(Recent(w), s) == Recent(w + [s])
  {
    var r, e := Remember(Recent(w), s), Recent(w + [s]);
    assert |r| == |e|;
    forall k | 0 <= k < |r| ensures r[k] == e[k] {
      if k < |r| - 1 {
        assert r[k] == r[..|r| - 1][k];
      }
    }
  }

  /** Starting from a queue within capacity, the queue after any run of
      picks holds exactly the last `MaxHistory` entries of the old queue
      followed by the picks: after the fourth pick the first one is gone. */
  lemma {:induction false} RememberAllIsRecent<T>(history: seq<T>, picks: seq<T>)
    requires |history| <= MaxHistory
    ensures RememberAll(history, picks) == Recent(history + picks)
    decreases |picks|
  {
    if picks == [] {
      assert history + picks == history;
    } else {
      var init, last := picks[..|picks| - 1], picks[|picks| - 1];
      calc {
        RememberAll(history, picks);
        Remember(RememberAll(history, init), last);
        { RememberAllIsRecent(history, init); }
        Remember(Recent(history + init), last);
        { RememberRecent(history + init, last); }
        Recent((history + init) + [last]);
        { assert (history + init) + [last] == history + picks; }
        Recent(history + picks);
      }
    }
  }

  /** A suffix at least as long as the window has the same recent entries. */
  lemma RecentSuffix<T>(z: seq<T>, i: nat)
    requires i <= |z|
    requires i == 0 || |z| - i >= MaxHistory
    ensures Recent(z[i..]) == Recent(z)
  {
    if i == 0 {
      assert z[i..] == z;
    } else {
      assert z[i..][|z| - i - MaxHistory..] == z[|z| - MaxHistory..];
    }
  }

  /** Trimming to the window before appending changes no recent entry. */
  lemma RecentAppend<T>(x: seq<T>, y: seq<T>)
    ensures Recent(Recent(x) + y) == Recent(x + y)
  {
    var i := |x| - |Recent(x)|;
    assert Recent(x) + y == (x + y)[i..];
    RecentSuffix(x + y, i);
  }

  /** Two windowed appends in a row are one windowed append. */
  lemma RecentChain<T>(h: seq<T>, a: seq<T>, b: seq<T>)
    ensures Recent(Recent(h + a) + b) == Recent(h + (a + b))
  {
    RecentAppend(h + a, b);
    assert (h + a) + b == h + (a + b);
  }
}
