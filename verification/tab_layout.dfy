/**
 * Tabs and their horizontal layout, shared by the scrollable `Tabs` strip
 * and the `TabBar`. A tab is drawn with one column of padding on each
 * side, so it occupies `len(Title) + 2` columns (titles are ASCII).
 */
module TabLayout {

  import opened Wrappers
  import opened Messages

  /** `Tab`: a title and the content shown for it. */
  datatype Tab = Tab(title: string, content: string)

  /** Columns a rendered tab occupies. */
  function TabWidth(t: Tab): nat
  {
    |t.title| + 2
  }

  /** Combined width of `tabs[lo..hi)`. */
  function Span(tabs: seq<Tab>, lo: nat, hi: nat): nat
    requires lo <= hi <= |tabs|
    decreases hi - lo
  {
    if lo == hi then 0 else Span(tabs, lo, hi - 1) + TabWidth(tabs[hi - 1])
  }

  /** A span can be peeled from the front as well as from the back. */
  lemma {:induction false} SpanFront(tabs: seq<Tab>, lo: nat, hi: nat)
    requires lo < hi <= |tabs|
    ensures Span(tabs, lo, hi) == TabWidth(tabs[lo]) + Span(tabs, lo + 1, hi)
    decreases hi - lo
  {
    if hi - 1 > lo {
      SpanFront(tabs, lo, hi - 1);
    }
  }

  /** Spans add up. */
  lemma {:induction false} SpanSplit(tabs: seq<Tab>, lo: nat, mid: nat, hi: nat)
    requires lo <= mid <= hi <= |tabs|
    ensures Span(tabs, lo, hi) == Span(tabs, lo, mid) + Span(tabs, mid, hi)
    decreases hi - mid
  {
    if hi > mid {
      SpanSplit(tabs, lo, mid, hi - 1);
    }
  }

  /** A longer span is at least as wide. */
  lemma SpanMono(tabs: seq<Tab>, lo: nat, a: nat, b: nat)
    requires lo <= a <= b <= |tabs|
    ensures Span(tabs, lo, a) <= Span(tabs, lo, b)
  {
    SpanSplit(tabs, lo, a, b);
  }

  /**
   * The column at which each of `tabs[lo..hi)` starts when they are drawn
   * side by side from column 0: running sums of the widths.
   */
  function Positions(tabs: seq<Tab>, lo: nat, hi: nat): (p: seq<int>)
    requires lo <= hi <= |tabs|
    ensures |p| == hi - lo
    ensures forall i :: 0 <= i < |p| ==> p[i] == Span(tabs, lo, lo + i)
    decreases hi - lo
  {
    if lo == hi then [] else Positions(tabs, lo, hi - 1) + [Span(tabs, lo, hi - 1)]
  }

  /**
   * Drawn tabs do not overlap: a column inside the i-th drawn tab lies past
   * the end of every earlier one.
   */
  lemma PositionsDisjoint(tabs: seq<Tab>, lo: nat, hi: nat, i: nat, j: nat, x: int)
    requires lo <= hi <= |tabs|
    requires j < i < hi - lo
    requires Positions(tabs, lo, hi)[i] <= x
    ensures x >= Positions(tabs, lo, hi)[j] + TabWidth(tabs[lo + j])
  {
    SpanMono(tabs, lo, lo + j + 1, lo + i);
  }

  /**
   * The keyboard rule both tab components share: "right"/"l" and
   * "left"/"h" move one tab without wrapping, "1".."9" jump to that tab.
   * The new active index, or `None` when the key changes nothing.
   */
  function KeyTarget(key: string, active: int, n: int): (r: Option<int>)
    ensures r.Some? && 0 <= active && (active < n || active == 0) ==> 0 <= r.value < n
    ensures r.Some? && (key == "right" || key == "l") ==> r.value == active + 1
    ensures r.Some? && (key == "left" || key == "h") ==> r.value == active - 1
    ensures IsDigitKey(key) ==>
              r == (if DigitIndex(key).value < n then DigitIndex(key) else None)
    ensures key !in {"right", "l", "left", "h"} && !IsDigitKey(key) ==> r == None
  {
    if key == "right" || key == "l" then
      (if active < n - 1 then Some(active + 1) else None)
    else if key == "left" || key == "h" then
      (if active > 0 then Some(active - 1) else None)
    else
      match DigitIndex(key)
      case Some(d) => if 0 <= d < n then Some(d) else None
      case None => None
  }

  /** Arrow keys stop at the ends instead of wrapping. */
  lemma ArrowsSaturate(active: int, n: int)
    requires 0 <= active < n
    ensures KeyTarget("right", active, n) == (if active == n - 1 then None else Some(active + 1))
    ensures KeyTarget("left", active, n) == (if active == 0 then None else Some(active - 1))
  {
  }
}
