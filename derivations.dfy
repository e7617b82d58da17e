/**
 * The pure derivations of the shared-header pager: the clamp it applies to the
 * header offset and to the settled page index, the rounding of a horizontal
 * offset to a page, page visibility, and the effect of one header-offset change
 * on the per-page scheduled adjustments.
 */
module Derivations {

  datatype Option<T> = None | Some(value: T)

  /** `clamp(value, min, max)` of the animation library, i.e.
      `Math.min(Math.max(value, min), max)`, on exact reals. When `lo > hi`
      the upper bound wins. */
  function Clamp(x: real, lo: real, hi: real): (r: real)
    ensures lo <= hi ==> lo <= r <= hi
    ensures lo <= x <= hi ==> r == x
    ensures lo <= hi && x < lo ==> r == lo
    ensures x > hi || hi < lo ==> r == hi
  {
    var atLeast := if x < lo then lo else x;
    if atLeast < hi then atLeast else hi
  }

  /** The same clamp on integers, used for the settled page index: the real
      clamp of the index, which is again an integer. */
  function ClampIndex(x: int, lo: int, hi: int): (r: int)
    ensures lo <= hi ==> lo <= r <= hi
    ensures lo <= x <= hi ==> r == x
    ensures lo <= hi && x < lo ==> r == lo
    ensures x > hi || hi < lo ==> r == hi
  {
    Clamp(x as real, lo as real, hi as real).Floor
  }

  /** Clamping is idempotent: a header offset that is already clamped is left alone. */
  lemma ClampIdempotent(x: real, lo: real, hi: real)
    ensures Clamp(Clamp(x, lo, hi), lo, hi) == Clamp(x, lo, hi)
  {
  }

  /** Clamping preserves order, so the header moves in the direction the page scrolls. */
  lemma ClampMonotonic(x: real, y: real, lo: real, hi: real)
    requires x <= y
    ensures Clamp(x, lo, hi) <= Clamp(y, lo, hi)
  {
  }

  /** `Math.round`: the nearest integer, halves rounded up (towards +infinity). */
  function Round(x: real): (r: int)
    ensures r as real - 0.5 <= x < r as real + 0.5
  {
    (x + 0.5).Floor
  }

  /** The integer `Round` yields is the only one within half a unit below/above. */
  lemma RoundUnique(x: real, k: int)
    requires k as real - 0.5 <= x < k as real + 0.5
    ensures Round(x) == k
  {
  }

  /** The page a horizontal pager offset settles on: the rounded page index,
      clamped to `[0, count - 1]`. */
  function SettleIndex(offset: real, width: real, count: nat): (r: int)
    requires width > 0.0
    ensures count >= 1 ==> 0 <= r < count
    ensures count == 0 ==> r == -1
    ensures count >= 1 && offset < -0.5 * width ==> r == 0
    ensures count >= 1 && offset >= (count as real - 0.5) * width ==> r == count - 1
    ensures -0.5 * width <= offset < (count as real - 0.5) * width ==>
              (r as real - 0.5) * width <= offset < (r as real + 0.5) * width
  {
    RoundScaled(offset, width, count);
    ClampIndex(Round(offset / width), 0, count - 1)
  }

  /** Where the rounded page index of an offset lies, in offsets. */
  lemma RoundScaled(offset: real, width: real, count: nat)
    requires width > 0.0
    ensures var k := Round(offset / width);
      && (k as real - 0.5) * width <= offset < (k as real + 0.5) * width
      && (offset < -0.5 * width ==> k < 0)
      && (offset >= (count as real - 0.5) * width ==> k >= count)
      && (-0.5 * width <= offset < (count as real - 0.5) * width ==> 0 <= k < count)
  {
    var q := offset / width;
    var k := Round(q);
    RoundScaledBounds(offset, width);
    if -0.5 * width <= offset < (count as real - 0.5) * width {
      ScaleBackBounds(q, -0.5, count as real - 0.5, width);
    } else if offset < -0.5 * width {
      ScaleBackBelow(q, -0.5, width);
    } else {
      ScaleBackAbove(q, count as real - 0.5, width);
    }
  }

  lemma RoundScaledBounds(offset: real, width: real)
    requires width > 0.0
    ensures var k := Round(offset / width);
      (k as real - 0.5) * width <= offset < (k as real + 0.5) * width
  {
    var q := offset / width;
    var k := Round(q);
    assert k as real - 0.5 <= q < k as real + 0.5;
    assert q * width == offset;
    ScaleBounds(q, k as real - 0.5, k as real + 0.5, width);
    assert q * width < (k as real + 0.5) * width;
    assert offset < (k as real + 0.5) * width;
  }

  lemma ScaleBounds(q: real, lo: real, hi: real, w: real)
    requires w > 0.0 && lo <= q < hi
    ensures lo * w <= q * w < hi * w
  {
  }

  lemma ScaleBackBounds(q: real, lo: real, hi: real, w: real)
    requires w > 0.0 && lo * w <= q * w < hi * w
    ensures lo <= q < hi
  {
  }

  lemma ScaleBackBelow(q: real, lo: real, w: real)
    requires w > 0.0 && q * w < lo * w
    ensures q < lo
  {
  }

  lemma ScaleBackAbove(q: real, hi: real, w: real)
    requires w > 0.0 && q * w >= hi * w
    ensures q >= hi
  {
  }

  /** The horizontal offset at which page `index` starts. */
  function PageOffset(index: int, width: real): real
  {
    index as real * width
  }

  /** Settling at the exact offset of page `k` (where a programmatic
      `scrollTo(k * width)` leaves the pager) selects page `k` again. */
  lemma SettleAtPageOffset(k: int, width: real, count: nat)
    requires width > 0.0 && 0 <= k < count
    ensures SettleIndex(PageOffset(k, width), width, count) == k
  {
    var off := PageOffset(k, width);
    assert off / width == k as real;
    RoundUnique(off / width, k);
  }

  /** Swiping further never settles on an earlier page. */
  lemma SettleMonotonic(o1: real, o2: real, width: real, count: nat)
    requires width > 0.0 && o1 <= o2
    ensures SettleIndex(o1, width, count) <= SettleIndex(o2, width, count)
  {
    DivMonotonic(o1, o2, width);
    RoundMonotonic(o1 / width, o2 / width);
  }

  lemma DivMonotonic(x: real, y: real, w: real)
    requires w > 0.0 && x <= y
    ensures x / w <= y / w
  {
  }

  /** `Math.round` preserves order. */
  lemma RoundMonotonic(x: real, y: real)
    requires x <= y
    ensures Round(x) <= Round(y)
  {
  }

  /** A page is visible exactly when its index is the selected index. */
  predicate IsVisible(index: int, selected: int)
  {
    index == selected
  }

  /** The visible pages among `count` pages. Visibility is derived from one
      integer, so exactly the selected page is visible when it is in range,
      and none otherwise. */
  function VisiblePages(count: nat, selected: int): (s: set<int>)
    ensures s == if 0 <= selected < count then {selected} else {}
  {
    set i | 0 <= i < count && IsVisible(i, selected)
  }

  /** At most one page is visible at any time; hence at most one page is the
      writer the header follows. */
  lemma AtMostOneVisible(count: nat, selected: int)
    ensures |VisiblePages(count, selected)| <= 1
  {
  }

  /** The per-page scheduled adjustments after the header offset changed to
      `target`: the visible page keeps what it had, every other page now has
      `target` scheduled, replacing whatever was scheduled before. */
  function Rescheduled(slots: seq<Option<real>>, selected: int, target: real): (r: seq<Option<real>>)
    ensures |r| == |slots|
    ensures forall k :: 0 <= k < |r| && IsVisible(k, selected) ==> r[k] == slots[k]
    ensures forall k :: 0 <= k < |r| && !IsVisible(k, selected) ==> r[k] == Some(target)
  {
    seq(|slots|, k requires 0 <= k < |slots| => if IsVisible(k, selected) then slots[k] else Some(target))
  }

  /** Last-scheduled-wins: a later header change supersedes an earlier,
      uncommitted one, which leaves no trace. */
  lemma RescheduleSupersedes(slots: seq<Option<real>>, selected: int, t1: real, t2: real)
    ensures Rescheduled(Rescheduled(slots, selected, t1), selected, t2) == Rescheduled(slots, selected, t2)
  {
  }

  /** After any run of header changes, what is scheduled for an inactive page
      is the last target, whatever the earlier ones were. */
  lemma RescheduleAllLast(slots: seq<Option<real>>, selected: int, targets: seq<real>, k: int)
    requires |targets| > 0 && 0 <= k < |slots| && !IsVisible(k, selected)
    ensures RescheduledAll(slots, selected, targets)[k] == Some(targets[|targets| - 1])
  {
  }

  /** Repeated header changes, in order. */
  function RescheduledAll(slots: seq<Option<real>>, selected: int, targets: seq<real>): (r: seq<Option<real>>)
    ensures |r| == |slots|
    ensures forall k :: 0 <= k < |r| && IsVisible(k, selected) ==> r[k] == slots[k]
  {
    if targets == [] then slots
    else Rescheduled(RescheduledAll(slots, selected, targets[..|targets| - 1]), selected, targets[|targets| - 1])
  }
}
