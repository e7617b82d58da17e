/**
 * Event sequences replayed against the controller, using only the contracts
 * of its methods: a three-page walk-through in two halves, the echo of an
 * offscreen jump, a programmatic selection during a drag, and a delayed
 * commit that outlives a page switch.
 * Pages are 400 wide and the header 250 high throughout.
 */
module Scenarios {
  import opened Derivations
  import opened HeaderPager

  /** First half of the three-page walk-through: page 0 scrolls past the
      header, the inactive pages' delayed commits land and are consumed, and
      the user swipes to page 1. The switch itself schedules nothing. */
  method ScrollPastHeaderThenSwipe() returns (log: seq<Effect>, header: real, page0Pending: Option<real>)
    ensures log == [OffscreenScroll(1, 250.0), OffscreenScroll(2, 250.0), OnSelect(1), ScrollTo(400.0)]
    ensures header == 250.0
    ensures page0Pending == None
  {
    var pager := new SharedHeaderPager(400.0, 250.0, 3, true, 0.0);

    // page 0 scrolls to 300: the header clamps to 250, pages 1 and 2 schedule 250
    pager.PageScroll(0, 300.0);
    assert pager.HeaderOffset() == 250.0;
    assert pager.scheduled[1] == Some(250.0) && pager.scheduled[2] == Some(250.0);
    pager.TimerFires(1);
    pager.TimerFires(2);
    pager.ConsumeAdjust(1);
    pager.ConsumeAdjust(2);
    assert pager.effects == [OffscreenScroll(1, 250.0), OffscreenScroll(2, 250.0)];

    // swipe to page 1; the owner feeds the announced index back
    pager.PagerScroll(200.0);
    pager.PagerScroll(400.0);
    var settled := pager.PagerMomentumEnd();
    assert settled == 1 by { SettleAtPageOffset(1, 400.0, 3); }
    pager.SetSelectedIndexProp(settled);

    log, header, page0Pending := pager.effects, pager.HeaderOffset(), pager.scheduled[0];
  }

  /** Second half: with page 1 active and the header collapsed, page 1
      scrolls back to the top, page 0 receives the latest header value as its
      one-shot jump, and a swipe back announces page 0 exactly once. */
  method HeaderReturnsThenSwipeBack() returns (log: seq<Effect>, header: real)
    ensures log == [ScrollTo(400.0), OffscreenScroll(0, 0.0), OnSelect(0), ScrollTo(0.0)]
    ensures header == 0.0
  {
    var pager := new SharedHeaderPager(400.0, 250.0, 3, true, 0.0);
    pager.SetSelectedIndexProp(1);
    pager.PageScroll(1, 250.0);
    assert pager.scheduled[0] == Some(250.0);

    // page 1 scrolls back to the top: page 0's pending 250 is superseded by 0
    pager.PageScroll(1, 0.0);
    assert pager.scheduled[0] == Some(0.0);
    pager.TimerFires(0);
    pager.ConsumeAdjust(0);
    assert pager.effects == [ScrollTo(400.0), OffscreenScroll(0, 0.0)];

    // swipe back to page 0
    pager.PagerScroll(200.0);
    pager.PagerScroll(0.0);
    var settled := pager.PagerMomentumEnd();
    assert settled == 0 by { SettleAtPageOffset(0, 400.0, 3); }
    pager.SetSelectedIndexProp(settled);

    log, header := pager.effects, pager.HeaderOffset();
  }

  /** A page's offscreen jump comes back as that page's own scroll report
      (the demo list's scroll handler writes the shared cell). Although page 1
      is inactive, its report replaces the shared page offset. */
  method OffscreenEchoReachesSharedCell() returns (shared: real, header: real)
    ensures shared == 250.0 && header == 250.0
  {
    var pager := new SharedHeaderPager(400.0, 250.0, 3, true, 0.0);
    pager.PageScroll(0, 300.0);
    pager.TimerFires(1);
    pager.ConsumeAdjust(1);
    pager.PageScroll(1, 250.0);
    shared, header := pager.currentPageOffset, pager.HeaderOffset();
  }

  /** The owner selects page 2 while the user drags between pages 0 and 1:
      no programmatic scroll is issued, but the selection (and with it page
      visibility) follows the prop at once; the drag then settles on page 0. */
  method SelectionDuringDrag() returns (log: seq<Effect>, selected: int, page2Visible: bool)
    ensures log == [OnSelect(0)]
    ensures selected == 2
    ensures page2Visible
  {
    var pager := new SharedHeaderPager(400.0, 250.0, 3, true, 0.0);
    pager.PagerScroll(120.0);
    pager.SetSelectedIndexProp(2);
    var settled := pager.PagerMomentumEnd();
    assert settled == 0 by { RoundUnique(120.0 / 400.0, 0); }
    log, selected, page2Visible := pager.effects, pager.selectedIndex, IsVisible(2, pager.selectedIndex);
  }

  /** Page 1 schedules an adjustment while inactive; a tab selection makes it
      visible before the delay elapses and it scrolls on. Its visible-page
      branch does not cancel the pending commit, so the earlier target still
      reaches its one-shot slot and its `offscreenScroll`, while the header is
      elsewhere. */
  method CommitOutlivesSwitch() returns (log: seq<Effect>, header: real)
    ensures log == [ScrollTo(400.0), OffscreenScroll(1, 100.0)]
    ensures header == 40.0
  {
    var pager := new SharedHeaderPager(400.0, 250.0, 3, true, 0.0);
    pager.PageScroll(0, 100.0);
    pager.SetSelectedIndexProp(1);
    pager.PageScroll(1, 40.0);
    assert pager.scheduled[1] == Some(100.0);
    pager.TimerFires(1);
    pager.ConsumeAdjust(1);
    log, header := pager.effects, pager.HeaderOffset();
  }
}
