/**
 * The scrollable horizontal tab strip (`Tabs`). Only the tabs from
 * `scrollOffset` on that fit in `max(width - 4, 10)` columns are drawn;
 * navigation moves the active tab and then corrects the scroll offset.
 */
module ScrollTabs {

  import opened Wrappers
  import opened Messages
  import opened TabLayout

  /** `visibleRange`: the drawn tabs are `[start, end)`. */
  datatype Range = Range(start: int, end: int)

  /** Columns available to tabs: `width - 4`, but never fewer than 10. */
  function Budget(width: int): (b: int)
    ensures b >= 10 && b >= width - 4
    ensures width - 4 >= 10 ==> b == width - 4
  {
    if width - 4 < 10 then 10 else width - 4
  }

  /**
   * The greedy loop of `getVisibleTabs` from index `end` with `used`
   * columns already taken: a tab is added while it fits, and the first tab
   * is added even when it does not.
   */
  function Grow(tabs: seq<Tab>, start: nat, end: nat, used: nat, budget: int): (r: nat)
    requires start <= end <= |tabs|
    ensures end <= r <= |tabs|
    decreases |tabs| - end
  {
    if end == |tabs| then end
    else if used + TabWidth(tabs[end]) > budget && end > start then end
    else Grow(tabs, start, end + 1, used + TabWidth(tabs[end]), budget)
  }

  /** The end of the window that starts at `start`. */
  function VisibleEnd(tabs: seq<Tab>, start: nat, budget: int): nat
    requires start <= |tabs|
  {
    Grow(tabs, start, start, 0, budget)
  }

  /** `getVisibleTabs`: `[0, 0)` without tabs, else the window from the scroll offset. */
  function VisibleTabs(tabs: seq<Tab>, scroll: int, width: int): Range
    requires tabs == [] || 0 <= scroll <= |tabs|
  {
    if tabs == [] then Range(0, 0) else Range(scroll, VisibleEnd(tabs, scroll, Budget(width)))
  }

  lemma {:induction false} GrowFacts(tabs: seq<Tab>, start: nat, end: nat, used: nat, budget: int)
    requires start <= end <= |tabs|
    requires used == Span(tabs, start, end)
    requires end - start >= 2 ==> used <= budget
    ensures var r := Grow(tabs, start, end, used, budget);
            && (start < |tabs| ==> start < r)
            && (r - start >= 2 ==> Span(tabs, start, r) <= budget)
            && (r < |tabs| ==> start < r && Span(tabs, start, r + 1) > budget)
    decreases |tabs| - end
  {
    if end < |tabs| && !(used + TabWidth(tabs[end]) > budget && end > start) {
      GrowFacts(tabs, start, end + 1, used + TabWidth(tabs[end]), budget);
    }
  }

  /**
   * The window from `start` is not empty while `start` is an index, its
   * tabs fit in the budget whenever there are two or more of them, and the
   * next tab would not fit.
   */
  lemma VisibleWindow(tabs: seq<Tab>, start: nat, budget: int)
    requires start <= |tabs|
    ensures var e := VisibleEnd(tabs, start, budget);
            && start <= e <= |tabs|
            && (start < |tabs| ==> start < e)
            && (e - start >= 2 ==> Span(tabs, start, e) <= budget)
            && (e < |tabs| ==> Span(tabs, start, e + 1) > budget)
  {
    GrowFacts(tabs, start, start, 0, budget);
  }

  /** Those three facts pin the window's end down: no other end satisfies them. */
  lemma VisibleWindowUnique(tabs: seq<Tab>, start: nat, budget: int, e: nat)
    requires start < e <= |tabs|
    requires e - start >= 2 ==> Span(tabs, start, e) <= budget
    requires e < |tabs| ==> Span(tabs, start, e + 1) > budget
    ensures e == VisibleEnd(tabs, start, budget)
  {
    var r := VisibleEnd(tabs, start, budget);
    VisibleWindow(tabs, start, budget);
    if e < r {
      SpanMono(tabs, start, e + 1, r);
    } else if r < e {
      SpanMono(tabs, start, r + 1, e);
    }
  }

  /**
   * Tab `a` at or after `start` is drawn exactly when it is the first tab
   * of the window or the tabs from `start` through `a` fit in the budget.
   */
  lemma WindowShows(tabs: seq<Tab>, start: nat, a: nat, budget: int)
    requires start <= a < |tabs|
    ensures a < VisibleEnd(tabs, start, budget) <==> a == start || Span(tabs, start, a + 1) <= budget
  {
    var e := VisibleEnd(tabs, start, budget);
    VisibleWindow(tabs, start, budget);
    if a < e && a > start {
      SpanMono(tabs, start, a + 1, e);
    }
    if e <= a && Span(tabs, start, a + 1) <= budget {
      SpanMono(tabs, start, e + 1, a + 1);
    }
  }

  /**
   * The backward loop of `ensureActiveTabVisible` at index `ss` with `used`
   * columns taken: step left while the tab at `ss` still fits, stopping at 0.
   */
  function Back(tabs: seq<Tab>, ss: nat, used: nat, budget: int): (r: nat)
    requires ss < |tabs| || ss == 0
    ensures r <= ss
    decreases ss
  {
    if ss == 0 then 0
    else if used + TabWidth(tabs[ss]) > budget then ss
    else Back(tabs, ss - 1, used + TabWidth(tabs[ss]), budget)
  }

  lemma {:induction false} BackFacts(tabs: seq<Tab>, a: nat, ss: nat, used: nat, budget: int)
    requires ss <= a < |tabs|
    requires used == Span(tabs, ss + 1, a + 1) && used <= budget
    ensures var r := Back(tabs, ss, used, budget);
            && Span(tabs, r + 1, a + 1) <= budget
            && (r == 0 || Span(tabs, r, a + 1) > budget)
    decreases ss
  {
    if ss > 0 {
      SpanFront(tabs, ss, a + 1);
      if used + TabWidth(tabs[ss]) <= budget {
        BackFacts(tabs, a, ss - 1, used + TabWidth(tabs[ss]), budget);
      }
    }
  }

  /** What `ensureActiveTabVisible` needs: an active index and a scroll offset inside the strip. */
  predicate Ready(tabs: seq<Tab>, active: int, scroll: int)
  {
    && 0 <= active && (active < |tabs| || active == 0)
    && (tabs == [] || 0 <= scroll <= |tabs|)
  }

  /**
   * The scroll offset `ensureActiveTabVisible` leaves: `active` when the
   * active tab lies left of the window, the result of the backward walk
   * when it lies at or right of the window's end, else unchanged.
   */
  function ScrollFor(tabs: seq<Tab>, active: int, scroll: int, width: int): (r: int)
    requires Ready(tabs, active, scroll)
    ensures 0 <= r
    ensures tabs != [] ==> r < |tabs|
    ensures tabs == [] ==> r == 0
  {
    var w := VisibleTabs(tabs, scroll, width);
    if active < w.start then active
    else if active >= w.end then Back(tabs, active, 0, Budget(width))
    else scroll
  }

  /** An active tab that is already drawn leaves the scroll offset alone. */
  lemma ScrollKeepsVisible(tabs: seq<Tab>, active: int, scroll: int, width: int)
    requires Ready(tabs, active, scroll) && tabs != []
    requires scroll <= active < VisibleTabs(tabs, scroll, width).end
    ensures ScrollFor(tabs, active, scroll, width) == scroll
  {
  }

  /**
   * An active tab left of the window becomes the window's first tab, and
   * so is drawn.
   */
  lemma ScrollLeftShowsActive(tabs: seq<Tab>, active: int, scroll: int, width: int)
    requires Ready(tabs, active, scroll) && tabs != []
    requires active < scroll
    ensures ScrollFor(tabs, active, scroll, width) == active
    ensures var w := VisibleTabs(tabs, active, width); w.start == active < w.end
  {
    VisibleWindow(tabs, active, Budget(width));
  }

  /**
   * What the right scroll does guarantee. With `r` the new offset and `b`
   * the budget: `r <= active`; the tabs after `r` up to and including the
   * active one fit in `b`; the walk stopped only because tab `r` did not
   * fit or because it reached 0. The active tab is drawn from `r` exactly
   * when `r == active` or the walk reached 0 with every tab through
   * `active` fitting; had the window started at `r + 1` it would be drawn.
   */
  lemma ScrollRightGuarantee(tabs: seq<Tab>, active: int, scroll: int, width: int)
    requires Ready(tabs, active, scroll) && tabs != []
    requires active >= VisibleTabs(tabs, scroll, width).end
    ensures var r := ScrollFor(tabs, active, scroll, width);
            var b := Budget(width);
            && r <= active
            && Span(tabs, r + 1, active + 1) <= b
            && (r == 0 || Span(tabs, r, active + 1) > b)
            && (active < VisibleTabs(tabs, r, width).end <==>
                  r == active || (r == 0 && Span(tabs, 0, active + 1) <= b))
            && (r < active ==> active < VisibleEnd(tabs, r + 1, b))
  {
    var b := Budget(width);
    var r := ScrollFor(tabs, active, scroll, width);
    VisibleWindow(tabs, scroll, b);
    BackFacts(tabs, active, active, 0, b);
    WindowShows(tabs, r, active, b);
    if r < active {
      WindowShows(tabs, r + 1, active, b);
    }
  }

  /**
   * The right scroll can leave the active tab undrawn: width 20, ten tabs
   * with 6-byte titles (8 columns each), active tab 9, offset 0. The walk
   * stops at 7 and the window from 7 is `[7, 9)`.
   */
  lemma RightScrollMissesActive()
    ensures var tabs := seq(10, _ => Tab("abcdef", ""));
            && ScrollFor(tabs, 9, 0, 20) == 7
            && VisibleTabs(tabs, 7, 20) == Range(7, 9)
  {
    var tabs := seq(10, _ => Tab("abcdef", ""));
    assert forall i :: 0 <= i < 10 ==> TabWidth(tabs[i]) == 8;
    assert Span(tabs, 0, 3) == 24 && Span(tabs, 0, 2) == 16;
    VisibleWindowUnique(tabs, 0, 16, 2);
    assert Back(tabs, 7, 16, 16) == 7;
    assert Back(tabs, 9, 0, 16) == 7;
    assert Span(tabs, 7, 10) == 24 && Span(tabs, 7, 9) == 16;
    VisibleWindowUnique(tabs, 7, 16, 9);
  }

  /** Outcome of the click loop. `IndexPanic(i)`: Go indexes `tabs[i]` out of range and panics. */
  datatype Hit = Selected(index: nat) | Missed | IndexPanic(index: nat)

  /** True when column x falls on the tab drawn at `positions[i]` with the width of `tabs[i]`. */
  predicate Inside(positions: seq<int>, tabs: seq<Tab>, x: int, i: nat)
    requires i < |positions| && i < |tabs|
  {
    positions[i] <= x < positions[i] + TabWidth(tabs[i])
  }

  /** The loop passes position index j: x is left of it, or right of tab j's width. */
  predicate Passes(positions: seq<int>, tabs: seq<Tab>, x: int, j: nat)
    requires j < |positions|
  {
    x < positions[j] || (j < |tabs| && x >= positions[j] + TabWidth(tabs[j]))
  }

  /**
   * The click loop from position index i. The range's width is read from
   * `tabs[i]`, the i-th tab of the whole list, and only once
   * `x >= positions[i]` (Go's `&&` short-circuits); when that index is past
   * the last tab, Go panics.
   */
  function HitFrom(positions: seq<int>, tabs: seq<Tab>, x: int, i: nat): (h: Hit)
    ensures h.Selected? ==> i <= h.index < |positions| && h.index < |tabs| &&
                            Inside(positions, tabs, x, h.index)
    ensures h.IndexPanic? ==> i <= h.index < |positions| && |tabs| <= h.index &&
                              positions[h.index] <= x
    ensures !h.Missed? ==> forall j :: i <= j < h.index ==> Passes(positions, tabs, x, j)
    ensures h.Missed? ==> forall j :: i <= j < |positions| ==> Passes(positions, tabs, x, j)
    decreases |positions| - i
  {
    if i >= |positions| then Missed
    else if x >= positions[i] && i >= |tabs| then IndexPanic(i)
    else if x >= positions[i] && x < positions[i] + TabWidth(tabs[i]) then Selected(i)
    else HitFrom(positions, tabs, x, i + 1)
  }

  function HitTest(positions: seq<int>, tabs: seq<Tab>, x: int): Hit
  {
    HitFrom(positions, tabs, x, 0)
  }

  /** With the window at offset 0, a click inside the i-th drawn tab selects tab i. */
  lemma ClickOnDrawnTab(tabs: seq<Tab>, e: nat, i: nat, x: int)
    requires i < e <= |tabs|
    requires Positions(tabs, 0, e)[i] <= x < Positions(tabs, 0, e)[i] + TabWidth(tabs[i])
    ensures HitTest(Positions(tabs, 0, e), tabs, x) == Selected(i)
  {
    var p := Positions(tabs, 0, e);
    var h := HitTest(p, tabs, x);
    assert Inside(p, tabs, x, i);
    assert |p| == e <= |tabs| && !Passes(p, tabs, x, i);
    if h.Selected? && h.index < i {
      PositionsDisjoint(tabs, 0, e, i, h.index, x);
    }
  }

  /**
   * The click assigns the position index, not `start + i`: with the window
   * at `start > 0`, a click at a column inside both the first drawn tab and
   * tab 0's width selects tab 0, which is not drawn.
   */
  lemma ClickSelectsPositionIndex(tabs: seq<Tab>, start: nat, e: nat, x: int)
    requires 0 < start < e <= |tabs|
    requires 0 <= x < TabWidth(tabs[0]) && x < TabWidth(tabs[start])
    ensures HitTest(Positions(tabs, start, e), tabs, x) == Selected(0)
  {
  }

  /**
   * Positions are only refreshed by `View`: after the last of two drawn
   * tabs is removed, a click past the first tab reaches `tabs[1]` and panics.
   */
  lemma StalePositionsPanic()
    ensures var two := [Tab("a", ""), Tab("b", "")];
            Positions(two, 0, 2) == [0, 3] &&
            HitTest(Positions(two, 0, 2), two[..1], 4) == IndexPanic(1)
  {
    var two := [Tab("a", ""), Tab("b", "")];
    assert Positions(two, 0, 2) == [0, 3];
    var one := two[..1];
    assert |one| == 1 && TabWidth(one[0]) == 3;
    assert HitFrom([0, 3], one, 4, 1) == IndexPanic(1);
  }

  /** What `View` reports besides the drawn text: the window and the two scroll indicators. */
  datatype Rendered = Blank | Strip(window: Range, leftArrow: bool, rightArrow: bool)

  class Tabs {
    var tabs: seq<Tab>
    var active: int
    var width: int
    var scrollOffset: int
    /** Column where each drawn tab starts, as recorded by the last `View`. */
    var tabPositions: seq<int>

    /**
     * The active index is a tab's (or 0 without tabs) and the scroll offset
     * is a tab's index; without tabs it is 0, or -1 after `SetScrollOffset`.
     */
    ghost predicate Valid()
      reads this
    {
      && 0 <= active && (active < |tabs| || active == 0)
      && (tabs == [] ==> scrollOffset == 0 || scrollOffset == -1)
      && (tabs != [] ==> 0 <= scrollOffset < |tabs|)
    }

    /**
     * Every state the methods can reach: a valid strip, or a non-empty strip
     * still at the offset -1 that `SetScrollOffset` left on it while it was
     * empty. Only the window computation fails there (it indexes `tabs[-1]`).
     */
    ghost predicate Sound()
      reads this
    {
      && 0 <= active && (active < |tabs| || active == 0)
      && (tabs == [] ==> scrollOffset == 0 || scrollOffset == -1)
      && (tabs != [] ==> -1 <= scrollOffset < |tabs|)
    }

    /** `NewTabs`. */
    constructor (tabs: seq<Tab>)
      ensures Valid()
      ensures this.tabs == tabs && active == 0 && width == 0 && scrollOffset == 0 && tabPositions == []
    {
      this.tabs := tabs;
      active := 0;
      width := 0;
      scrollOffset := 0;
      tabPositions := [];
    }

    /** `getVisibleTabs`. */
    method GetVisibleTabs() returns (r: Range)
      requires tabs == [] || 0 <= scrollOffset <= |tabs|
      ensures r == VisibleTabs(tabs, scrollOffset, width)
    {
      if |tabs| == 0 {
        return Range(0, 0);
      }
      var budget := width - 4;
      if budget < 10 {
        budget := 10;
      }
      var start := scrollOffset;
      var used: nat := 0;
      var end := start;
      while end < |tabs|
        invariant start <= end <= |tabs|
        invariant Grow(tabs, start, end, used, budget) == Grow(tabs, start, start, 0, budget)
        decreases |tabs| - end
      {
        var w := |tabs[end].title| + 2;
        if used + w > budget && end > start {
          break;
        }
        used := used + w;
        end := end + 1;
      }
      r := Range(start, end);
    }

    /** `ensureActiveTabVisible`. */
    method EnsureActiveTabVisible()
      requires Ready(tabs, active, scrollOffset)
      modifies this`scrollOffset
      ensures scrollOffset == ScrollFor(tabs, active, old(scrollOffset), width)
      ensures Valid()
    {
      var visible := GetVisibleTabs();
      if active < visible.start {
        scrollOffset := active;
        return;
      }
      if active >= visible.end {
        var budget := width - 4;
        if budget < 10 {
          budget := 10;
        }
        var used: nat := 0;
        var scrollStart: nat := active;
        while scrollStart > 0
          invariant scrollStart <= active
          invariant Back(tabs, scrollStart, used, budget) == Back(tabs, active, 0, budget)
          decreases scrollStart
        {
          var w := |tabs[scrollStart].title| + 2;
          if used + w > budget {
            break;
          }
          used := used + w;
          scrollStart := scrollStart - 1;
        }
        scrollOffset := scrollStart;
      }
    }

    /** `SetSize`: a new width, then the scroll correction. */
    method SetSize(width: int)
      requires Valid()
      modifies this`width, this`scrollOffset
      ensures Valid()
      ensures this.width == width
      ensures scrollOffset == ScrollFor(tabs, active, old(scrollOffset), width)
    {
      this.width := width;
      EnsureActiveTabVisible();
    }

    /** The active index a message asks for, or `None` when it changes nothing. */
    function Target(msg: Msg): Option<int>
      reads this
    {
      match msg
      case KeyMsg(_, key) => KeyTarget(key, active, |tabs|)
      case MouseMsg(button, x) =>
        if button == MouseLeft then
          (match HitTest(tabPositions, tabs, x)
           case Selected(i) => Some(i)
           case _ => None)
        else None
      case _ => None
    }

    /** The click loop of `Update`. */
    method FindClickedTab(x: int) returns (h: Hit)
      ensures h == HitTest(tabPositions, tabs, x)
    {
      var i := 0;
      while i < |tabPositions|
        invariant 0 <= i <= |tabPositions|
        invariant HitFrom(tabPositions, tabs, x, i) == HitTest(tabPositions, tabs, x)
      {
        var pos := tabPositions[i];
        if x >= pos {
          if i >= |tabs| {
            return IndexPanic(i);
          }
          if x < pos + |tabs[i].title| + 2 {
            return Selected(i);
          }
        }
        i := i + 1;
      }
      h := Missed;
    }

    /**
     * `Update`: keys and left clicks pick a new active tab; every accepted
     * change is followed by the scroll correction. A left click must not
     * reach a stale position past the last tab (Go panics there).
     */
    method Update(msg: Msg)
      requires Sound()
      requires Target(msg).Some? ==> Valid()
      requires msg.MouseMsg? && msg.button == MouseLeft ==> !HitTest(tabPositions, tabs, msg.x).IndexPanic?
      modifies this`active, this`scrollOffset
      ensures Sound()
      ensures Valid() <==> old(Valid()) || old(Target(msg)).Some?
      ensures old(Target(msg)).Some? ==>
                active == old(Target(msg)).value &&
                scrollOffset == ScrollFor(tabs, active, old(scrollOffset), width)
      ensures old(Target(msg)).None? ==> active == old(active) && scrollOffset == old(scrollOffset)
    {
      match msg {
        case KeyMsg(_, key) =>
          if key == "right" || key == "l" {
            if active < |tabs| - 1 {
              active := active + 1;
              EnsureActiveTabVisible();
            }
          } else if key == "left" || key == "h" {
            if active > 0 {
              active := active - 1;
              EnsureActiveTabVisible();
            }
          } else if IsDigitKey(key) {
            var tabNum := key[0] as int - '0' as int - 1;
            if tabNum >= 0 && tabNum < |tabs| {
              active := tabNum;
              EnsureActiveTabVisible();
            }
          }
        case MouseMsg(button, x) =>
          if button == MouseLeft {
            var hit := FindClickedTab(x);
            if hit.Selected? {
              active := hit.index;
              EnsureActiveTabVisible();
            }
          }
        case _ =>
      }
    }

    /**
     * `View`: records where each drawn tab starts and reports the window
     * and the indicators; without tabs it draws nothing and keeps the old
     * positions. A drawn line is cut to `width` bytes, which Go cannot do
     * for a negative width.
     */
    method View() returns (r: Rendered)
      requires Valid()
      requires tabs != [] ==> width >= 0
      modifies this`tabPositions
      ensures tabs == [] ==> r == Blank && tabPositions == old(tabPositions)
      ensures tabs != [] ==>
                var w := VisibleTabs(tabs, scrollOffset, width);
                && w.start <= w.end <= |tabs|
                && tabPositions == Positions(tabs, w.start, w.end)
                && r == Strip(w, scrollOffset > 0, w.end < |tabs|)
    {
      if |tabs| == 0 {
        return Blank;
      }
      tabPositions := [];
      var currentPos := 0;
      var visible := GetVisibleTabs();
      VisibleWindow(tabs, visible.start, Budget(width));
      var i := visible.start;
      while i < visible.end
        invariant visible.start <= i <= visible.end
        invariant tabPositions == Positions(tabs, visible.start, i)
        invariant currentPos == Span(tabs, visible.start, i)
      {
        tabPositions := tabPositions + [currentPos];
        currentPos := currentPos + |tabs[i].title| + 2;
        i := i + 1;
      }
      r := Strip(visible, scrollOffset > 0, visible.end < |tabs|);
    }

    /**
     * `AddTab`. After `SetScrollOffset` on an empty strip the offset is -1,
     * and the first added tab leaves it there: the strip is then no longer
     * valid (the next window computation indexes `tabs[-1]`), yet still sound.
     */
    method AddTab(tab: Tab)
      requires Sound()
      modifies this`tabs
      ensures Sound()
      ensures tabs == old(tabs) + [tab]
      ensures Valid() <==> scrollOffset >= 0
    {
      tabs := tabs + [tab];
    }

    /**
     * `RemoveTab`: drops the tab at `index`, pulls the active index back
     * when it falls off the end, then corrects the scroll offset.
     */
    method RemoveTab(index: int)
      requires Sound()
      requires 0 <= index < |tabs| && |tabs| > 1 ==> Valid()
      modifies this`tabs, this`active, this`scrollOffset
      ensures Sound()
      ensures Valid() <==> old(Valid()) || 0 <= index < |old(tabs)|
      ensures !(0 <= index < |old(tabs)|) ==>
                tabs == old(tabs) && active == old(active) && scrollOffset == old(scrollOffset)
      ensures 0 <= index < |old(tabs)| ==>
                && tabs == old(tabs)[..index] + old(tabs)[index + 1..]
                && active == (if old(active) >= |tabs| && old(active) > 0 then old(active) - 1 else old(active))
                && scrollOffset == ScrollFor(tabs, active, old(scrollOffset), width)
    {
      if index >= 0 && index < |tabs| {
        tabs := tabs[..index] + tabs[index + 1..];
        if active >= |tabs| && active > 0 {
          active := active - 1;
        }
        EnsureActiveTabVisible();
      }
    }

    /** `UpdateTabContent`: replaces one tab's content; titles, and so the layout, stay. */
    method UpdateTabContent(index: int, content: string)
      requires Sound()
      modifies this`tabs
      ensures Sound()
      ensures Valid() <==> old(Valid())
      ensures 0 <= index < |old(tabs)| ==> tabs == old(tabs)[index := Tab(old(tabs)[index].title, content)]
      ensures !(0 <= index < |old(tabs)|) ==> tabs == old(tabs)
    {
      if index >= 0 && index < |tabs| {
        tabs := tabs[index := Tab(tabs[index].title, content)];
      }
    }

    /** `SetActive`: only an index of a tab is accepted, then the scroll correction. */
    method SetActive(index: int)
      requires Sound()
      requires 0 <= index < |tabs| ==> Valid()
      modifies this`active, this`scrollOffset
      ensures Sound()
      ensures Valid() <==> old(Valid()) || 0 <= index < |tabs|
      ensures 0 <= index < |tabs| ==>
                active == index && scrollOffset == ScrollFor(tabs, index, old(scrollOffset), width)
      ensures !(0 <= index < |tabs|) ==> active == old(active) && scrollOffset == old(scrollOffset)
    {
      if index >= 0 && index < |tabs| {
        active := index;
        EnsureActiveTabVisible();
      }
    }

    /** `SetScrollOffset`: clamps into `[0, len - 1]`, which is -1 for an empty strip. */
    method SetScrollOffset(offset: int)
      requires Sound()
      modifies this`scrollOffset
      ensures Valid()
      ensures tabs == [] ==> scrollOffset == -1
      ensures tabs != [] ==> 0 <= scrollOffset < |tabs|
      ensures 0 <= offset < |tabs| ==> scrollOffset == offset
      ensures tabs != [] && offset < 0 ==> scrollOffset == 0
      ensures tabs != [] && offset >= |tabs| ==> scrollOffset == |tabs| - 1
    {
      var o := offset;
      if o < 0 {
        o := 0;
      }
      if o >= |tabs| {
        o := |tabs| - 1;
      }
      scrollOffset := o;
    }
  }

  /**
   * An empty strip given `SetScrollOffset` is left at offset -1; the tab
   * added next keeps it there. Both repairs the methods allow end with a
   * valid strip at offset 0: clamping the offset again, or removing that
   * only tab.
   */
  method OffsetRepairScenario(t: Tab) returns (clamped: int, emptied: int)
    ensures clamped == 0 && emptied == 0
  {
    var s := new Tabs([]);
    s.SetScrollOffset(5);
    s.AddTab(t);
    assert s.scrollOffset == -1 && !s.Valid();
    s.SetScrollOffset(0);
    assert s.Valid();
    clamped := s.scrollOffset;

    var u := new Tabs([]);
    u.SetScrollOffset(5);
    u.AddTab(t);
    u.RemoveTab(0);
    assert u.tabs == [] && u.Valid();
    emptied := u.scrollOffset;
  }
}
