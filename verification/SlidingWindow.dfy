// The plain meaning of a ring buffer: the last few entries of a whole history.
module SlidingWindow {

  function Last<T>(history: seq<T>, len: nat): (window: seq<T>)
    ensures |window| <= len && |window| <= |history|
  {
    if |history| <= len then history else history[|history| - len..]
  }

  // A ring's entries, oldest first. While it fills, pos is the number of entries.
  function Unrolled<T>(ring: seq<T>, pos: nat, num: nat, len: nat): seq<T>
    requires pos <= len <= |ring| && num <= len
  {
    if num < len then ring[..num] else ring[pos..len] + ring[..pos]
  }

  function Sum(s: seq<nat>): (total: nat) {
    if s == [] then 0 else s[0] + Sum(s[1..])
  }

  lemma {:induction false} SumSnoc(s: seq<nat>, x: nat)
    ensures Sum(s + [x]) == Sum(s) + x
  {
    if s != [] {
      assert (s + [x])[1..] == s[1..] + [x];
      SumSnoc(s[1..], x);
    } else {
      assert s + [x] == [x];
      assert Sum([x]) == x + Sum([]);
    }
  }

  lemma {:induction false} SumBound(s: seq<nat>, low: nat, high: nat)
    requires forall k :: 0 <= k < |s| ==> low <= s[k] <= high
    ensures low * |s| <= Sum(s) <= high * |s|
  {
    if s != [] {
      SumBound(s[1..], low, high);
      OneMore(low, |s[1..]|);
      OneMore(high, |s[1..]|);
    }
  }

  lemma OneMore(c: nat, n: nat)
    ensures c * (n + 1) == c * n + c
  {
  }

  // One more entry pushes out the oldest one of a full window.
  lemma LastSnoc<T>(history: seq<T>, x: T, len: nat)
    requires len > 0
    ensures Last(history + [x], len)
         == if |history| < len then Last(history, len) + [x] else Last(history, len)[1..] + [x]
  {
  }

  lemma SumSlides(window: seq<nat>, x: nat)
    requires window != []
    ensures Sum(window[1..] + [x]) == Sum(window) - window[0] + x
  {
    SumSnoc(window[1..], x);
  }

  // The slot a ring overwrites holds the oldest entry, and overwriting it slides the
  // window.
  lemma Advance<T>(ring: seq<T>, pos: nat, num: nat, len: nat, x: T, nextPos: nat, nextNum: nat)
    requires 0 < len <= |ring| && num <= len && pos < len && (num < len ==> pos == num)
    requires nextPos == (if pos + 1 >= len then 0 else pos + 1)
    requires nextNum == (if num < len then num + 1 else num)
    ensures nextNum < len ==> nextPos == nextNum
    ensures num == len ==> Unrolled(ring, pos, num, len)[0] == ring[pos]
    ensures Unrolled(ring[pos := x], nextPos, nextNum, len)
         == (if num < len then Unrolled(ring, pos, num, len) + [x] else Unrolled(ring, pos, num, len)[1..] + [x])
  {
  }
}
