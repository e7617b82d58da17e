/**
 * The offset-synchronisation and page-activation controller of
 * `SharedHeaderPager`: its shared cells, the per-page one-shot adjustment
 * slots, and one method per event handler or reaction. The effects the
 * controller emits towards the outside (`onSelect`, the pager's `scrollTo`
 * and a page's `offscreenScroll`) are appended, in order, to `effects`.
 */
module HeaderPager {
  import opened Derivations

  datatype Effect =
    | OnSelect(index: int)                   // runOnJS(onSelect)(index)
    | ScrollTo(x: real)                      // animated scrollTo of the horizontal pager
    | OffscreenScroll(page: nat, offset: real) // a page's offscreenScroll(offset)

  class SharedHeaderPager {
    // configuration
    const width: real            // window width, the width of one page
    const headerHeight: real
    const pageCount: nat         // children.length
    const hasAnimatedIndex: bool // whether the owner passed an animatedIndex

    // shared cells of the pager
    var selectedIndex: int
    var currentPageOffset: real  // also every page's context.scrollOffset
    var pagerScrollOffset: real
    var isPagerScrolling: bool
    var animatedIndex: real      // the owner's animatedIndex, when there is one

    // per page: the pending delayed commit (debouncedAdjust) and the one-shot slot (scrollAdjust)
    const scheduled: array<Option<real>>
    const scrollAdjust: array<Option<real>>

    var effects: seq<Effect>

    /** For each page, the target its header reaction scheduled most recently. */
    ghost var lastTarget: seq<Option<real>>

    ghost predicate Valid()
      reads this, scheduled
    {
      && width > 0.0
      && scheduled.Length == pageCount
      && scrollAdjust.Length == pageCount
      && scheduled != scrollAdjust
      && |lastTarget| == pageCount
      // a pending commit always carries the last target scheduled for its page
      && (forall p :: 0 <= p < pageCount && scheduled[p].Some? ==> scheduled[p] == lastTarget[p])
    }

    /** The derived header offset: the shared page offset clamped to the header. */
    function HeaderOffset(): (h: real)
      reads this
      ensures 0.0 <= headerHeight ==> 0.0 <= h <= headerHeight
      ensures 0.0 <= currentPageOffset <= headerHeight ==> h == currentPageOffset
    {
      Clamp(currentPageOffset, 0.0, headerHeight)
    }

    /** `initialAnimatedIndex` is the value the owner's `animatedIndex` cell
        holds when the pager mounts; the pager does not initialise it. */
    constructor (width: real, headerHeight: real, pageCount: nat, hasAnimatedIndex: bool, initialAnimatedIndex: real)
      requires width > 0.0
      ensures Valid() && fresh(scheduled) && fresh(scrollAdjust)
      ensures this.width == width && this.headerHeight == headerHeight
      ensures this.pageCount == pageCount && this.hasAnimatedIndex == hasAnimatedIndex
      ensures selectedIndex == 0 && currentPageOffset == 0.0
      ensures pagerScrollOffset == 0.0 && !isPagerScrolling && animatedIndex == initialAnimatedIndex
      ensures forall p :: 0 <= p < pageCount ==> scheduled[p] == None && scrollAdjust[p] == None
      ensures effects == []
    {
      this.width := width;
      this.headerHeight := headerHeight;
      this.pageCount := pageCount;
      this.hasAnimatedIndex := hasAnimatedIndex;
      selectedIndex := 0;
      currentPageOffset := 0.0;
      pagerScrollOffset := 0.0;
      isPagerScrolling := false;
      animatedIndex := initialAnimatedIndex;
      scheduled := new Option<real>[pageCount](_ => None);
      scrollAdjust := new Option<real>[pageCount](_ => None);
      effects := [];
      lastTarget := seq(pageCount, _ => None);
    }

    /** The owner passed a new `selectedIndex` prop: the effect copies it into
        the shared cell, and the reaction on `selectedIndex * width` drives the
        pager there unless a horizontal gesture is in flight. */
    method SetSelectedIndexProp(p: int)
      requires Valid()
      modifies this`selectedIndex, this`effects
      ensures Valid()
      ensures selectedIndex == p
      ensures effects == old(effects) +
        (if p != old(selectedIndex) && !isPagerScrolling then [ScrollTo(PageOffset(p, width))] else [])
    {
      var changed := p != selectedIndex;
      selectedIndex := p;
      if changed {
        SelectedIndexReaction();
      }
    }

    /** The reaction to a change of `selectedIndex`: a programmatic scroll,
        suppressed during a gesture. It runs only on a change of the shared
        index, so its one caller is `SetSelectedIndexProp`, when the prop
        differs from the current index. */
    method SelectedIndexReaction()
      requires Valid()
      modifies this`effects
      ensures Valid()
      ensures effects == old(effects) + (if isPagerScrolling then [] else [ScrollTo(PageOffset(selectedIndex, width))])
    {
      if isPagerScrolling {
        return;
      }
      effects := effects + [ScrollTo(PageOffset(selectedIndex, width))];
    }

    /** The pager's `onScroll`: a gesture is in flight, the offset is stored and
        the fractional index is published. The selection is not touched. */
    method PagerScroll(offset: real)
      requires Valid()
      modifies this`isPagerScrolling, this`pagerScrollOffset, this`animatedIndex
      ensures Valid()
      ensures isPagerScrolling && pagerScrollOffset == offset
      ensures animatedIndex == if hasAnimatedIndex then offset / width else old(animatedIndex)
    {
      isPagerScrolling := true;
      pagerScrollOffset := offset;
      if hasAnimatedIndex {
        animatedIndex := offset / width;
      }
    }

    /** The pager's `onMomentumEnd`: the settled page is announced once
        through `onSelect`; the selection itself waits for the owner's new prop. */
    method PagerMomentumEnd() returns (index: int)
      requires Valid()
      modifies this`isPagerScrolling, this`effects
      ensures Valid()
      ensures index == SettleIndex(pagerScrollOffset, width, pageCount)
      ensures pageCount >= 1 ==> 0 <= index < pageCount
      ensures !isPagerScrolling
      ensures effects == old(effects) + [OnSelect(index)]
    {
      var rounded := Round(pagerScrollOffset / width);
      index := ClampIndex(rounded, 0, pageCount - 1);
      isPagerScrolling := false;
      effects := effects + [OnSelect(index)];
    }

    /** Page `page` scrolled to `offset`. Its scroll handler writes
        `context.scrollOffset`, which is `currentPageOffset` itself, so the write
        lands in the shared cell whether or not the page is visible. The header
        reactions of all pages run when the clamped header offset moved; the
        visible-page copy reactions of all pages then run on the new value. */
    method PageScroll(page: nat, offset: real)
      requires Valid() && page < pageCount
      modifies this`currentPageOffset, this`lastTarget, scheduled
      ensures Valid()
      ensures currentPageOffset == offset
      ensures HeaderOffset() == Clamp(offset, 0.0, headerHeight)
      ensures HeaderOffset() != old(HeaderOffset()) ==>
                scheduled[..] == Rescheduled(old(scheduled[..]), selectedIndex, HeaderOffset())
                && lastTarget == Rescheduled(old(lastTarget), selectedIndex, HeaderOffset())
      ensures HeaderOffset() == old(HeaderOffset()) ==>
                scheduled[..] == old(scheduled[..]) && lastTarget == old(lastTarget)
    {
      var before := HeaderOffset();
      currentPageOffset := offset;
      var after := HeaderOffset();
      if after != before {
        HeaderOffsetChanged(after);
      }
      ghost var slots, targets := scheduled[..], lastTarget;
      var i := 0;
      while i < pageCount
        invariant 0 <= i <= pageCount
        invariant Valid()
        invariant currentPageOffset == offset
        invariant scheduled[..] == slots && lastTarget == targets
      {
        OffsetCopyReaction(i, currentPageOffset);
        i := i + 1;
      }
    }

    /** Every page's header reaction, run in page order, for a header that moved to `target`. */
    method HeaderOffsetChanged(target: real)
      requires Valid()
      modifies this`lastTarget, scheduled
      ensures Valid()
      ensures scheduled[..] == Rescheduled(old(scheduled[..]), selectedIndex, target)
      ensures lastTarget == Rescheduled(old(lastTarget), selectedIndex, target)
    {
      var i := 0;
      while i < pageCount
        invariant 0 <= i <= pageCount
        invariant Valid()
        invariant forall k :: 0 <= k < i ==>
                    scheduled[k] == (if IsVisible(k, selectedIndex) then old(scheduled[k]) else Some(target))
                    && lastTarget[k] == (if IsVisible(k, selectedIndex) then old(lastTarget[k]) else Some(target))
        invariant forall k :: i <= k < pageCount ==>
                    scheduled[k] == old(scheduled[k]) && lastTarget[k] == old(lastTarget[k])
      {
        AdjustOffscreen(i, target);
        i := i + 1;
      }
      assert scheduled[..] == Rescheduled(old(scheduled[..]), selectedIndex, target);
    }

    /** Page `i`'s header reaction: a visible page does nothing; an inactive
        page restarts its delayed commit with the new target, which replaces
        (and so cancels) the commit it had pending. */
    method AdjustOffscreen(i: nat, target: real)
      requires Valid() && i < pageCount
      modifies this`lastTarget, scheduled
      ensures Valid()
      ensures IsVisible(i, selectedIndex) ==> scheduled[..] == old(scheduled[..]) && lastTarget == old(lastTarget)
      ensures !IsVisible(i, selectedIndex) ==>
                scheduled[..] == old(scheduled[..])[i := Some(target)]
                && lastTarget == old(lastTarget)[i := Some(target)]
    {
      if IsVisible(i, selectedIndex) {
        return;
      }
      scheduled[i] := Some(target);
      lastTarget := lastTarget[i := Some(target)];
    }

    /** Page `i`'s copy reaction on its `context.scrollOffset`: a visible page
        writes the observed offset into `currentPageOffset`, others do nothing. */
    method OffsetCopyReaction(i: nat, offset: real)
      requires Valid() && i < pageCount
      modifies this`currentPageOffset
      ensures Valid()
      ensures currentPageOffset == if IsVisible(i, selectedIndex) then offset else old(currentPageOffset)
    {
      if IsVisible(i, selectedIndex) {
        currentPageOffset := offset;
      }
    }

    /** Page `p`'s delay elapsed without being superseded: the pending target
        is committed to the one-shot slot. It is always the last target
        scheduled for `p`; an earlier, superseded one is never committed. */
    method TimerFires(p: nat)
      requires Valid() && p < pageCount
      modifies scheduled, scrollAdjust
      ensures Valid()
      ensures scheduled[..] == old(scheduled[..])[p := None]
      ensures scrollAdjust[..] ==
                if old(scheduled[p]).Some? then old(scrollAdjust[..])[p := old(scheduled[p])] else old(scrollAdjust[..])
      ensures old(scheduled[p]).Some? ==> scrollAdjust[p] == lastTarget[p]
    {
      var pending := scheduled[p];
      if pending.Some? {
        scrollAdjust[p] := pending;
        scheduled[p] := None;
      }
    }

    /** The one-shot consumer of page `p` (`useSharedHeaderContext`): a value
        in the slot is handed once to `offscreenScroll` and the slot is reset;
        an empty slot does nothing. */
    method ConsumeAdjust(p: nat)
      requires Valid() && p < pageCount
      modifies scrollAdjust, this`effects
      ensures Valid()
      ensures scrollAdjust[..] == old(scrollAdjust[..])[p := None]
      ensures effects == old(effects) +
                (if old(scrollAdjust[p]).Some? then [OffscreenScroll(p, old(scrollAdjust[p]).value)] else [])
    {
      var slot := scrollAdjust[p];
      if slot.Some? {
        effects := effects + [OffscreenScroll(p, slot.value)];
        scrollAdjust[p] := None;
      }
    }
  }
}
