/** The shell's argument array, as the dispatcher sees it.

    In the shell the array is a `char **` holding `count` token pointers
    followed by a NULL sentinel.  Here a slot is `Some(token)` or `None`
    (NULL), and the array is a sequence of slots.  A program's `argv` is a
    pointer into that array: the tokens from some offset up to the first
    NULL.  `View` is that notion; `Segment` is the tokens of a run of slots
    known to be non-NULL.
 */
module Args {

  datatype Option<+T> = None | Some(value: T)

  /** One slot of the array: a token, or NULL. */
  type Slot = Option<string>

  /** `count` tokens, all present, followed by the NULL sentinel at index `count`.
      The dispatcher reads slot `count - 1` unconditionally, so `count >= 1`. */
  predicate WellFormed(a: seq<Slot>, count: int)
  {
    1 <= count && |a| == count + 1 && a[count] == None &&
    forall i :: 0 <= i < count ==> a[i].Some?
  }

  /** True when every slot in `a[lo..hi]` holds a token. */
  predicate AllPresent(a: seq<Slot>, lo: int, hi: int)
    requires 0 <= lo <= hi <= |a|
  {
    forall i :: lo <= i < hi ==> a[i].Some?
  }

  /** The tokens of `a[lo..hi]`, every one of which is present. */
  function Segment(a: seq<Slot>, lo: int, hi: int): (r: seq<string>)
    requires 0 <= lo <= hi <= |a|
    requires AllPresent(a, lo, hi)
    ensures |r| == hi - lo
    ensures forall k :: 0 <= k < |r| ==> a[lo + k] == Some(r[k])
  {
    seq(hi - lo, k requires 0 <= k < hi - lo => a[lo + k].value)
  }

  /** The argv a callee sees when handed a pointer to slot `off`: the tokens
      from `off` up to, not including, the first NULL (or the end of the array). */
  function View(a: seq<Slot>, off: int): (r: seq<string>)
    requires 0 <= off <= |a|
    ensures off + |r| <= |a|
    ensures forall k :: 0 <= k < |r| ==> a[off + k] == Some(r[k])
    ensures off + |r| == |a| || a[off + |r|] == None
    decreases |a| - off
  {
    if off == |a| || a[off].None? then [] else [a[off].value] + View(a, off + 1)
  }

  /** The view from `lo` is exactly the segment up to the first NULL `e`. */
  lemma {:induction false} ViewUpTo(a: seq<Slot>, lo: int, e: int)
    requires 0 <= lo <= e <= |a|
    requires AllPresent(a, lo, e)
    requires e == |a| || a[e] == None
    ensures View(a, lo) == Segment(a, lo, e)
    decreases e - lo
  {
    if lo < e {
      ViewUpTo(a, lo + 1, e);
      assert Segment(a, lo, e) == [a[lo].value] + Segment(a, lo + 1, e);
    }
  }

  /** A view never reaches past a NULL slot at or after its start. */
  lemma {:induction false} ViewStopsAtNull(a: seq<Slot>, off: int, k: int)
    requires 0 <= off <= k < |a| && a[k] == None
    ensures off + |View(a, off)| <= k
    decreases k - off
  {
    if off < k && a[off].Some? {
      ViewStopsAtNull(a, off + 1, k);
    }
  }

  /** Overwriting slot `k` of a well-formed array with NULL leaves the view
      from `lo <= k` equal to the original tokens `lo..k`. */
  lemma ViewAfterNull(a: seq<Slot>, count: int, lo: int, k: int)
    requires WellFormed(a, count)
    requires 0 <= lo <= k <= count
    ensures View(a[k := None], lo) == Segment(a, lo, k)
  {
    var b := a[k := None];
    ViewUpTo(b, lo, k);
    assert Segment(b, lo, k) == Segment(a, lo, k);
  }

  /** The view from `lo` of a well-formed array runs to the sentinel. */
  lemma ViewToSentinel(a: seq<Slot>, count: int, lo: int)
    requires WellFormed(a, count)
    requires 0 <= lo <= count
    ensures View(a, lo) == Segment(a, lo, count)
  {
    ViewUpTo(a, lo, count);
  }
}
