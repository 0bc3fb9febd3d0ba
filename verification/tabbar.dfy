/**
 * The `TabBar`: a row of tabs that runs in one of two modes. Standalone it
 * draws its own `tabs`; attached to a `Multiplexer` it draws one label per
 * session, " [n] name " with one column of padding on each side, and
 * navigation makes the chosen session active in the multiplexer.
 */
module TabBarView {

  import opened Wrappers
  import opened Messages
  import opened TabLayout
  import Cyclic
  import Utils
  import Text
  import Mux

  /** What `GetSessionInfo` reports about a session's process: its name and last command. */
  datatype Details = Details(name: string, lastCommand: string)

  /** The name shown for a session: its last command cut to 20 bytes, else its name. */
  function TabName(d: Details): (r: string)
    ensures d.lastCommand == "" ==> r == d.name
    ensures d.lastCommand != "" ==> r == Utils.TruncateString(d.lastCommand, 20) && |r| <= 20
  {
    if d.lastCommand != "" then Utils.TruncateString(d.lastCommand, 20) else d.name
  }

  /** `fmt.Sprintf(" [%d] %s ", i+1, name)`: the 1-based number and the name, padded by one space. */
  function SessionLabel(i: nat, name: string): (r: string)
    ensures |r| == |Utils.NatToDecimal(i + 1)| + |name| + 5
    ensures r[..2] == " [" && r[|r| - |name| - 1..] == name + " "
  {
    " [" + Utils.NatToDecimal(i + 1) + "] " + name + " "
  }

  /**
   * What the tab styles' `Padding(0, 1)` draws for a text: the text with
   * one space on each side, two columns wider.
   */
  function Padded(s: string): (r: string)
    ensures |r| == |s| + 2
    ensures r[0] == ' ' && r[|r| - 1] == ' ' && r[1..|r| - 1] == s
  {
    " " + s + " "
  }

  /** A tab drawn standalone: its title rendered with the padding. */
  function TabLabel(t: Tab): (r: string)
    ensures |r| == TabWidth(t)
    ensures r == Padded(t.title)
  {
    Padded(t.title)
  }

  /** Labels drawn side by side. */
  function Concat(labels: seq<string>): string
  {
    if labels == [] then "" else Concat(labels[..|labels| - 1]) + labels[|labels| - 1]
  }

  lemma {:induction false} ConcatAppend(a: seq<string>, b: seq<string>)
    ensures Concat(a + b) == Concat(a) + Concat(b)
    decreases |b|
  {
    if b != [] {
      var c := a + b;
      assert c[..|c| - 1] == a + b[..|b| - 1];
      assert c[|c| - 1] == b[|b| - 1];
      ConcatAppend(a, b[..|b| - 1]);
      calc {
        Concat(c);
        Concat(a + b[..|b| - 1]) + b[|b| - 1];
        Concat(a) + Concat(b[..|b| - 1]) + b[|b| - 1];
        Concat(a) + Concat(b);
      }
    } else {
      assert a + b == a;
    }
  }

  /** The column at which each label starts: the width of all labels before it. */
  function Starts(labels: seq<string>): (p: seq<int>)
    ensures |p| == |labels|
    ensures forall i :: 0 <= i < |p| ==> p[i] == |Concat(labels[..i])|
  {
    if labels == [] then []
    else
      var init := labels[..|labels| - 1];
      assert forall i :: 0 <= i < |init| ==> init[..i] == labels[..i];
      assert labels[..|labels| - 1] == init;
      Starts(init) + [|Concat(init)|]
  }

  /** The drawn row is the labels before i, label i, then the labels after it. */
  lemma ConcatAround(labels: seq<string>, i: nat)
    requires i < |labels|
    ensures Concat(labels) == Concat(labels[..i]) + labels[i] + Concat(labels[i + 1..])
    ensures Concat(labels[..i + 1]) == Concat(labels[..i]) + labels[i]
  {
    ConcatPrefixStep(labels, i);
    ConcatSplitAt(labels, i + 1);
  }

  /** The labels up to and including i are those before i, then label i. */
  lemma ConcatPrefixStep(labels: seq<string>, i: nat)
    requires i < |labels|
    ensures Concat(labels[..i + 1]) == Concat(labels[..i]) + labels[i]
  {
    var front := labels[..i + 1];
    assert front[..|front| - 1] == labels[..i];
  }

  /** The drawn row splits at any label boundary. */
  lemma ConcatSplitAt(labels: seq<string>, j: nat)
    requires j <= |labels|
    ensures Concat(labels) == Concat(labels[..j]) + Concat(labels[j..])
  {
    assert labels == labels[..j] + labels[j..];
    ConcatAppend(labels[..j], labels[j..]);
  }

  /** Every label after i starts at or after the end of label i. */
  lemma LabelsOrdered(labels: seq<string>, i: nat, j: nat)
    requires i < j < |labels|
    ensures |Concat(labels[..i])| + |labels[i]| <= |Concat(labels[..j])|
  {
    ConcatAround(labels, i);
    assert labels[..j] == labels[..i + 1] + labels[i + 1..j];
    ConcatAppend(labels[..i + 1], labels[i + 1..j]);
  }

  /**
   * Label i occupies columns `[Starts[i], Starts[i] + |labels[i]|)` of the
   * drawn row and holds exactly that label's text; every later label
   * starts at or after its end.
   */
  lemma LabelAt(labels: seq<string>, i: nat)
    requires i < |labels|
    ensures var p := Starts(labels);
            && p[i] + |labels[i]| <= |Concat(labels)|
            && Concat(labels)[p[i]..p[i] + |labels[i]|] == labels[i]
            && forall j :: i < j < |labels| ==> p[i] + |labels[i]| <= p[j]
  {
    var p := Starts(labels);
    ConcatAround(labels, i);
    forall j | i < j < |labels|
      ensures p[i] + |labels[i]| <= p[j]
    {
      LabelsOrdered(labels, i, j);
    }
  }

  /** The labels of the standalone mode, one per tab. */
  function TabLabels(tabs: seq<Tab>): (r: seq<string>)
    ensures |r| == |tabs| && forall i :: 0 <= i < |tabs| ==> r[i] == TabLabel(tabs[i])
  {
    seq(|tabs|, i requires 0 <= i < |tabs| => TabLabel(tabs[i]))
  }

  /**
   * The tabs of the multiplexer mode, one per listed session: the label
   * " [i+1] name " rendered with the padding, or nothing for a session the
   * registry no longer knows (`GetSessionInfo` returns nil).
   */
  function SessionLabels(ids: seq<string>, known: map<string, Mux.Session>, describe: string -> Details): (r: seq<string>)
    ensures |r| == |ids|
    ensures forall i :: 0 <= i < |ids| && ids[i] in known ==>
              r[i] == Padded(SessionLabel(i, TabName(describe(ids[i]))))
    ensures forall i :: 0 <= i < |ids| && ids[i] !in known ==> r[i] == ""
  {
    seq(|ids|, i requires 0 <= i < |ids| =>
      if ids[i] in known then Padded(SessionLabel(i, TabName(describe(ids[i])))) else "")
  }

  /** The drawn row: the labels followed by spaces up to `width` columns. */
  function Row(labels: seq<string>, width: int): (r: string)
    ensures |r| == if width > |Concat(labels)| then width else |Concat(labels)|
    ensures r[..|Concat(labels)|] == Concat(labels)
    ensures forall k :: |Concat(labels)| <= k < |r| ==> r[k] == ' '
  {
    var line := Concat(labels);
    line + Text.Repeat(' ', if width - |line| > 0 then width - |line| else 0)
  }

  /**
   * The click loop: the first position index whose tab has a positive
   * width and whose columns hold x.
   */
  function HitFrom(positions: seq<int>, widths: seq<int>, x: int, i: nat): (h: Option<nat>)
    requires |widths| == |positions|
    ensures h.Some? ==> i <= h.value < |positions| &&
                        widths[h.value] > 0 && positions[h.value] <= x < positions[h.value] + widths[h.value]
    ensures h.Some? ==> forall j :: i <= j < h.value ==>
                          !(widths[j] > 0 && positions[j] <= x < positions[j] + widths[j])
    ensures h.None? ==> forall j :: i <= j < |positions| ==>
                          !(widths[j] > 0 && positions[j] <= x < positions[j] + widths[j])
    decreases |positions| - i
  {
    if i >= |positions| then None
    else if widths[i] > 0 && x >= positions[i] && x < positions[i] + widths[i] then Some(i)
    else HitFrom(positions, widths, x, i + 1)
  }

  /**
   * A click in the first `widths[i]` columns of drawn label i selects that
   * label's index, provided no click width exceeds its label's width.
   */
  lemma ClickOnLabel(labels: seq<string>, widths: seq<int>, i: nat, x: int)
    requires |widths| == |labels| && i < |labels|
    requires forall j :: 0 <= j < |labels| ==> widths[j] <= |labels[j]|
    requires Starts(labels)[i] <= x < Starts(labels)[i] + widths[i]
    ensures HitFrom(Starts(labels), widths, x, 0) == Some(i)
  {
    var p := Starts(labels);
    assert widths[i] > 0 && p[i] <= x < p[i] + widths[i];
    var h := HitFrom(p, widths, x, 0);
    if h.Some? && h.value < i {
      LabelAt(labels, h.value);
    }
  }

  /**
   * A click in the columns of drawn label i past its first `widths[i]`
   * selects nothing, provided every click width lies between 0 and its
   * label's width.
   */
  lemma ClickPastWidth(labels: seq<string>, widths: seq<int>, i: nat, x: int)
    requires |widths| == |labels| && i < |labels|
    requires forall j :: 0 <= j < |labels| ==> 0 <= widths[j] <= |labels[j]|
    requires Starts(labels)[i] + widths[i] <= x < Starts(labels)[i] + |labels[i]|
    ensures HitFrom(Starts(labels), widths, x, 0) == None
  {
    var p := Starts(labels);
    var h := HitFrom(p, widths, x, 0);
    if h.Some? {
      var k := h.value;
      if k < i {
        LabelAt(labels, k);
      } else if k > i {
        LabelAt(labels, i);
      }
    }
  }

  /** `UpdateSessions` keeps the index when it is in range and otherwise moves it to the last session. */
  function ClampIndex(idx: int, n: int): (r: int)
    ensures n > 0 && 0 <= idx ==> 0 <= r < n
    ensures 0 <= idx < n || n <= 0 ==> r == idx
  {
    if idx >= n && n > 0 then n - 1 else idx
  }

  /**
   * Closing the active session when it is the last one makes the first
   * session active in the registry, while the bar's clamped index points
   * at the new last session: with "a", "b", "c" and "c" active, the
   * registry then holds "a" active and the bar shows "b".
   */
  lemma CloseLastActiveDesync()
    ensures var order := ["a", "b", "c"];
            var left := Mux.RemoveFirst(order, "c");
            && left == ["a", "b"]
            && Mux.ActiveAfterRemoval(left, "c", "c") == "a"
            && left[ClampIndex(2, |left|)] == "b"
  {
    var order := ["a", "b", "c"];
    assert order[..2] + order[3..] == ["a", "b"];
    Mux.RemoveFirstAt(order, "c", 2);
  }

  /**
   * The width a click tests for each of n position indices. In
   * multiplexer mode it is the width of the label " [i+1] name " built from
   * the current session list (an empty name when the index or the session
   * is gone); standalone it is the tab's width, or 0 past the last tab.
   */
  function ClickWidths(n: nat, attached: bool, ids: seq<string>, known: map<string, Mux.Session>,
                       tabs: seq<Tab>, describe: string -> Details): (w: seq<int>)
    ensures |w| == n
    ensures forall i :: 0 <= i < n && attached && i < |ids| && ids[i] in known ==>
              w[i] == |SessionLabel(i, TabName(describe(ids[i])))|
    ensures forall i :: 0 <= i < n && attached && !(i < |ids| && ids[i] in known) ==> w[i] == |SessionLabel(i, "")| > 0
    ensures forall i :: 0 <= i < n && !attached ==> w[i] == if i < |tabs| then TabWidth(tabs[i]) else 0
  {
    seq(n, i requires 0 <= i < n =>
      if attached then
        |SessionLabel(i, if i < |ids| && ids[i] in known then TabName(describe(ids[i])) else "")|
      else if i < |tabs| then TabWidth(tabs[i])
      else 0)
  }

  class TabBar {
    var tabs: seq<Tab>
    var active: int
    var width: int
    var height: int
    /** The registry in multiplexer mode, null standalone. */
    const mux: Mux.Multiplexer?
    /** Session ids as last read from the registry. */
    var sessions: seq<string>
    var activeIdx: int
    /** Column where each drawn tab starts, as recorded by the last `View`. */
    var tabPositions: seq<int>

    /** The active tab is a tab's index (or 0 without tabs) and the session index is not negative. */
    ghost predicate Valid()
      reads this
    {
      && 0 <= active && (active < |tabs| || active == 0)
      && 0 <= activeIdx
    }

    /** The attached registry, if any, keeps its own invariant. */
    ghost predicate MuxValid()
      reads this, mux
    {
      mux != null ==> mux.Valid()
    }

    /** `NewTabBar`: standalone. */
    constructor (tabs: seq<Tab>)
      ensures Valid() && MuxValid()
      ensures this.tabs == tabs && active == 0 && mux == null
      ensures sessions == [] && activeIdx == 0 && tabPositions == [] && width == 0 && height == 0
    {
      this.tabs := tabs;
      active := 0;
      width := 0;
      height := 0;
      mux := null;
      sessions := [];
      activeIdx := 0;
      tabPositions := [];
    }

    /** `NewTabBarWithMux`: attached to a registry, with no tabs of its own. */
    constructor WithMux(m: Mux.Multiplexer)
      requires m.Valid()
      ensures Valid() && MuxValid()
      ensures tabs == [] && active == 0 && mux == m
      ensures sessions == [] && activeIdx == 0 && tabPositions == [] && width == 0 && height == 0
    {
      tabs := [];
      active := 0;
      width := 0;
      height := 0;
      mux := m;
      sessions := [];
      activeIdx := 0;
      tabPositions := [];
    }

    /** `SetSize`. */
    method SetSize(width: int, height: int)
      modifies this`width, this`height
      ensures this.width == width && this.height == height
    {
      this.width := width;
      this.height := height;
    }

    /**
     * `UpdateSessions`: in multiplexer mode, re-reads the session order and
     * pulls an index past the end back to the last session.
     */
    method UpdateSessions()
      requires Valid() && MuxValid()
      modifies this`sessions, this`activeIdx
      ensures Valid() && MuxValid()
      ensures mux == null ==> sessions == old(sessions) && activeIdx == old(activeIdx)
      ensures mux != null ==> sessions == mux.order && activeIdx == ClampIndex(old(activeIdx), |sessions|)
      ensures mux != null && sessions != [] ==> activeIdx < |sessions|
    {
      if mux == null {
        return;
      }
      sessions := mux.ListSessions();
      if activeIdx >= |sessions| && |sessions| > 0 {
        activeIdx := |sessions| - 1;
      }
    }

    /** `Init`: the bar's first session sync, which is `UpdateSessions`. */
    method Init()
      requires Valid() && MuxValid()
      modifies this`sessions, this`activeIdx
      ensures Valid() && MuxValid()
      ensures mux == null ==> sessions == old(sessions) && activeIdx == old(activeIdx)
      ensures mux != null ==> sessions == mux.order && activeIdx == ClampIndex(old(activeIdx), |sessions|)
    {
      UpdateSessions();
    }

    /** `GetActiveSessionID`: the session at the index, or "" when the index is out of range. */
    function GetActiveSessionID(): (r: string)
      reads this
      ensures 0 <= activeIdx < |sessions| ==> r == sessions[activeIdx]
      ensures !(0 <= activeIdx < |sessions|) ==> r == ""
    {
      if 0 <= activeIdx < |sessions| then sessions[activeIdx] else ""
    }

    /** The bar points at the registry's active session. */
    ghost predicate InSync()
      reads this, mux
    {
      mux != null && sessions == mux.order && 0 <= activeIdx < |sessions| && mux.active == sessions[activeIdx]
    }

    /**
     * `NextTab`: the next session (multiplexer mode) or tab (standalone),
     * wrapping round; the chosen session is made active in the registry.
     * From a bar in step with the registry this is `NextSession`.
     */
    method NextTab()
      requires Valid() && MuxValid()
      modifies this`active, this`activeIdx, mux
      ensures Valid() && MuxValid()
      ensures mux != null ==> active == old(active) && mux.order == old(mux.order) && mux.sessions == old(mux.sessions)
      ensures mux != null && sessions == [] ==> activeIdx == old(activeIdx) && mux.active == old(mux.active)
      ensures mux != null && sessions != [] ==>
                && activeIdx == Cyclic.Succ(old(activeIdx), |sessions|)
                && mux.active == (if sessions[activeIdx] in mux.sessions then sessions[activeIdx] else old(mux.active))
      ensures mux != null && old(InSync()) ==>
                InSync() && mux.active == Mux.NextActive(mux.order, old(mux.active))
      ensures mux == null ==>
                activeIdx == old(activeIdx) &&
                active == (if tabs == [] then old(active) else Cyclic.Succ(old(active), |tabs|))
    {
      if |sessions| == 0 && |tabs| == 0 {
        return;
      }
      if mux != null {
        if |sessions| > 0 {
          activeIdx := (activeIdx + 1) % |sessions|;
          if activeIdx < |sessions| {
            var _ := mux.SetActive(sessions[activeIdx]);
          }
          if old(InSync()) {
            Mux.NextAt(sessions, old(activeIdx));
          }
        }
      } else {
        if |tabs| > 0 {
          active := (active + 1) % |tabs|;
        }
      }
    }

    /**
     * `PrevTab`: the previous session or tab, wrapping from the first to
     * the last. Go indexes `sessions[activeIdx - 1]` unchecked, so an index
     * more than one past the end would panic.
     */
    method PrevTab()
      requires Valid() && MuxValid()
      requires mux != null && sessions != [] ==> activeIdx <= |sessions|
      modifies this`active, this`activeIdx, mux
      ensures Valid() && MuxValid()
      ensures mux != null ==> active == old(active) && mux.order == old(mux.order) && mux.sessions == old(mux.sessions)
      ensures mux != null && sessions == [] ==> activeIdx == old(activeIdx) && mux.active == old(mux.active)
      ensures mux != null && sessions != [] ==>
                && activeIdx == Cyclic.Pred(old(activeIdx), |sessions|)
                && mux.active == (if sessions[activeIdx] in mux.sessions then sessions[activeIdx] else old(mux.active))
      ensures mux != null && old(InSync()) ==>
                InSync() && mux.active == Mux.PrevActive(mux.order, old(mux.active))
      ensures mux == null ==>
                activeIdx == old(activeIdx) &&
                active == (if tabs == [] then old(active) else Cyclic.Pred(old(active), |tabs|))
    {
      if |sessions| == 0 && |tabs| == 0 {
        return;
      }
      if mux != null {
        if |sessions| > 0 {
          activeIdx := activeIdx - 1;
          if activeIdx < 0 {
            activeIdx := |sessions| - 1;
          }
          var _ := mux.SetActive(sessions[activeIdx]);
          if old(InSync()) {
            Mux.NextAt(sessions, old(activeIdx));
          }
        }
      } else {
        if |tabs| > 0 {
          active := active - 1;
          if active < 0 {
            active := |tabs| - 1;
          }
        }
      }
    }

    /** `SelectTab`: only an index of a listed session (or of a tab, standalone) is accepted. */
    method SelectTab(idx: int)
      requires Valid() && MuxValid()
      modifies this`active, this`activeIdx, mux
      ensures Valid() && MuxValid()
      ensures mux != null ==> active == old(active) && mux.order == old(mux.order) && mux.sessions == old(mux.sessions)
      ensures mux != null && 0 <= idx < |sessions| ==>
                activeIdx == idx &&
                mux.active == (if sessions[idx] in mux.sessions then sessions[idx] else old(mux.active))
      ensures mux != null && !(0 <= idx < |sessions|) ==> activeIdx == old(activeIdx) && mux.active == old(mux.active)
      ensures mux == null ==>
                activeIdx == old(activeIdx) &&
                active == (if 0 <= idx < |tabs| then idx else old(active))
    {
      if mux != null {
        if idx >= 0 && idx < |sessions| {
          activeIdx := idx;
          var _ := mux.SetActive(sessions[activeIdx]);
        }
      } else {
        if idx >= 0 && idx < |tabs| {
          active := idx;
        }
      }
    }

    /** `AddTab`. */
    method AddTab(tab: Tab)
      requires Valid()
      modifies this`tabs
      ensures Valid()
      ensures tabs == old(tabs) + [tab]
    {
      tabs := tabs + [tab];
    }

    /** `RemoveTab`: drops the tab at `index` and pulls the active index back when it falls off the end. */
    method RemoveTab(index: int)
      requires Valid()
      modifies this`tabs, this`active
      ensures Valid()
      ensures !(0 <= index < |old(tabs)|) ==> tabs == old(tabs) && active == old(active)
      ensures 0 <= index < |old(tabs)| ==>
                && tabs == old(tabs)[..index] + old(tabs)[index + 1..]
                && active == (if old(active) >= |tabs| && old(active) > 0 then old(active) - 1 else old(active))
    {
      if index >= 0 && index < |tabs| {
        tabs := tabs[..index] + tabs[index + 1..];
        if active >= |tabs| && active > 0 {
          active := active - 1;
        }
      }
    }

    /** `UpdateTabContent`: replaces one tab's content. */
    method UpdateTabContent(index: int, content: string)
      requires Valid()
      modifies this`tabs
      ensures Valid()
      ensures 0 <= index < |old(tabs)| ==> tabs == old(tabs)[index := Tab(old(tabs)[index].title, content)]
      ensures !(0 <= index < |old(tabs)|) ==> tabs == old(tabs)
    {
      if index >= 0 && index < |tabs| {
        tabs := tabs[index := Tab(tabs[index].title, content)];
      }
    }

    /** The index a left click at column x selects, if any. */
    function ClickHit(x: int, describe: string -> Details): Option<nat>
      reads this`tabPositions, this`sessions, this`tabs, (if mux == null then {} else {mux})`sessions
    {
      HitFrom(tabPositions, CurrentWidths(describe), x, 0)
    }

    function CurrentWidths(describe: string -> Details): (w: seq<int>)
      reads this`tabPositions, this`sessions, this`tabs, (if mux == null then {} else {mux})`sessions
      ensures |w| == |tabPositions|
    {
      ClickWidths(|tabPositions|, mux != null, sessions, if mux != null then mux.sessions else map[], tabs, describe)
    }

    /** The width a click tests at position index i, as the loop body works it out. */
    method ClickWidthAt(i: nat, describe: string -> Details) returns (tabWidth: int)
      requires i < |tabPositions|
      ensures tabWidth == CurrentWidths(describe)[i]
    {
      if mux != null {
        var name := "";
        if i < |sessions| && sessions[i] in mux.sessions {
          name := TabName(describe(sessions[i]));
        }
        tabWidth := |SessionLabel(i, name)|;
      } else {
        if i < |tabs| {
          tabWidth := |tabs[i].title| + 2;
        } else {
          tabWidth := 0;
        }
      }
    }

    /** The click loop of `Update`. */
    method FindClickedTab(x: int, describe: string -> Details) returns (h: Option<nat>)
      ensures h == ClickHit(x, describe)
    {
      var widths := CurrentWidths(describe);
      var i := 0;
      while i < |tabPositions|
        invariant 0 <= i <= |tabPositions|
        invariant HitFrom(tabPositions, widths, x, i) == HitFrom(tabPositions, widths, x, 0)
      {
        var pos := tabPositions[i];
        var tabWidth := ClickWidthAt(i, describe);
        if tabWidth > 0 && x >= pos && x < pos + tabWidth {
          return Some(i);
        }
        i := i + 1;
      }
      h := None;
    }

    /**
     * `Update`. In multiplexer mode the session list is refreshed first.
     * A size message resizes; a session message refreshes; keys move the
     * standalone active tab without wrapping; a left click selects the
     * clicked index (in multiplexer mode also making that session active in
     * the registry). `describe` stands for what each session reports about
     * its process.
     */
    method Update(msg: Msg, describe: string -> Details)
      requires Valid() && MuxValid()
      modifies this, mux
      ensures Valid() && MuxValid()
      ensures tabs == old(tabs) && tabPositions == old(tabPositions)
      ensures mux != null ==> sessions == mux.order && mux.order == old(mux.order) && mux.sessions == old(mux.sessions)
      ensures mux == null ==> sessions == old(sessions)
      ensures msg.WindowSizeMsg? ==> width == msg.width && height == msg.height
      ensures !msg.WindowSizeMsg? ==> width == old(width) && height == old(height)
      ensures msg.KeyMsg? ==>
                active == (match KeyTarget(msg.key, old(active), |tabs|)
                           case Some(t) => t
                           case None => old(active))
      ensures !msg.KeyMsg? && !msg.MouseMsg? ==> active == old(active)
      ensures !msg.MouseMsg? && mux != null ==> activeIdx == ClampIndex(old(activeIdx), |sessions|) && mux.active == old(mux.active)
      ensures !msg.MouseMsg? && mux == null ==> activeIdx == old(activeIdx)
      ensures msg.MouseMsg? ==>
                var h := if msg.button == MouseLeft then ClickHit(msg.x, describe) else None;
                && (h.None? && mux != null ==>
                      active == old(active) && activeIdx == ClampIndex(old(activeIdx), |sessions|) && mux.active == old(mux.active))
                && (h.None? && mux == null ==> active == old(active) && activeIdx == old(activeIdx))
                && (h.Some? && mux != null ==>
                      && active == old(active) && activeIdx == h.value
                      && mux.active == (if h.value < |sessions| then sessions[h.value] else old(mux.active)))
                && (h.Some? && mux == null ==> active == h.value && activeIdx == old(activeIdx))
    {
      if mux != null {
        UpdateSessions();
      }
      match msg {
        case WindowSizeMsg(w, h) =>
          SetSize(w, h);
        case SessionUpdatedMsg =>
          UpdateSessions();
        case KeyMsg(_, key) =>
          PressKey(key);
        case MouseMsg(button, x) =>
          if button == MouseLeft {
            Click(x, describe);
          }
        case _ =>
      }
    }

    /** The key branch of `Update`: arrows and digits move the standalone active tab. */
    method PressKey(key: string)
      requires Valid()
      modifies this`active
      ensures Valid()
      ensures active == (match KeyTarget(key, old(active), |tabs|)
                         case Some(t) => t
                         case None => old(active))
    {
      if key == "right" || key == "l" {
        if active < |tabs| - 1 {
          active := active + 1;
        }
      } else if key == "left" || key == "h" {
        if active > 0 {
          active := active - 1;
        }
      } else if IsDigitKey(key) {
        var tabNum := key[0] as int - '0' as int - 1;
        if tabNum >= 0 && tabNum < |tabs| {
          active := tabNum;
        }
      }
    }

    /** The left-click branch of `Update`. */
    method Click(x: int, describe: string -> Details)
      requires Valid() && MuxValid()
      requires mux != null ==> sessions == mux.order
      modifies this`active, this`activeIdx, (if mux == null then {} else {mux})`active
      ensures Valid() && MuxValid()
      ensures mux != null ==> mux.order == old(mux.order) && mux.sessions == old(mux.sessions)
      ensures ClickHit(x, describe) == old(ClickHit(x, describe))
      ensures var h := ClickHit(x, describe);
              && (h.None? ==> active == old(active) && activeIdx == old(activeIdx) &&
                                (mux != null ==> mux.active == old(mux.active)))
              && (h.Some? && mux != null ==>
                    && active == old(active) && activeIdx == h.value
                    && mux.active == (if h.value < |sessions| then sessions[h.value] else old(mux.active)))
              && (h.Some? && mux == null ==> active == h.value && activeIdx == old(activeIdx))
    {
      var hit := FindClickedTab(x, describe);
      if hit.None? {
        return;
      }
      if mux == null {
        StandaloneHitIsTab(tabPositions, sessions, tabs, describe, x);
      }
      SelectClicked(hit.value);
    }

    /** What a click that hits position index i changes. */
    method SelectClicked(i: nat)
      requires Valid() && MuxValid()
      requires mux == null ==> i < |tabs|
      requires mux != null ==> sessions == mux.order
      modifies this`active, this`activeIdx, (if mux == null then {} else {mux})`active
      ensures Valid() && MuxValid()
      ensures mux != null ==>
                && active == old(active) && activeIdx == i
                && mux.active == (if i < |sessions| then sessions[i] else old(mux.active))
      ensures mux == null ==> active == i && activeIdx == old(activeIdx)
    {
      if mux != null {
        activeIdx := i;
        if i < |sessions| {
          var _ := mux.SetActive(sessions[i]);
        }
      } else {
        active := i;
      }
    }

    /**
     * `View`. Standalone: nothing without tabs, otherwise the tab labels.
     * Multiplexer mode: the session list is re-read and one label is drawn
     * per session. Either way the row is padded with spaces to `width` and
     * the start column of each label is recorded for clicks.
     */
    method View(describe: string -> Details) returns (r: string)
      requires Valid() && MuxValid()
      modifies this`sessions, this`tabPositions
      ensures Valid() && MuxValid()
      ensures mux != null ==>
                var labels := SessionLabels(mux.order, mux.sessions, describe);
                && sessions == mux.order
                && tabPositions == Starts(labels)
                && r == Row(labels, width)
      ensures mux == null && tabs == [] ==> r == "" && tabPositions == old(tabPositions) && sessions == old(sessions)
      ensures mux == null && tabs != [] ==>
                && sessions == old(sessions)
                && tabPositions == Starts(TabLabels(tabs))
                && r == Row(TabLabels(tabs), width)
    {
      var labels: seq<string>;
      if mux != null {
        sessions := mux.ListSessions();
        labels := SessionLabels(sessions, mux.sessions, describe);
      } else {
        if |tabs| == 0 {
          return "";
        }
        labels := TabLabels(tabs);
      }
      var positions, line := DrawLabels(labels);
      tabPositions := positions;
      var pad := width - |line|;
      if pad < 0 {
        pad := 0;
      }
      r := line + Text.Repeat(' ', pad);
    }
  }

  /** The drawing loop of `View`: each label's start column, and the labels side by side. */
  method DrawLabels(labels: seq<string>) returns (positions: seq<int>, line: string)
    ensures positions == Starts(labels) && line == Concat(labels)
  {
    positions := [];
    line := "";
    var i := 0;
    while i < |labels|
      invariant 0 <= i <= |labels|
      invariant positions == Starts(labels[..i])
      invariant line == Concat(labels[..i])
    {
      assert labels[..i + 1][..i] == labels[..i];
      positions := positions + [|line|];
      line := line + labels[i];
      i := i + 1;
    }
    assert labels[..i] == labels;
  }

  /**
   * After a multiplexer-mode `View`, while the listed sessions are still
   * known to the registry: a click in the first `|SessionLabel|` columns of
   * drawn tab i selects session index i, and a click in its last two
   * columns, the padding the click widths leave out, selects nothing.
   */
  lemma SessionClick(ids: seq<string>, known: map<string, Mux.Session>, tabs: seq<Tab>,
                     describe: string -> Details, i: nat, x: int)
    requires forall id :: id in ids ==> id in known
    requires i < |ids|
    ensures var labels := SessionLabels(ids, known, describe);
            var widths := ClickWidths(|ids|, true, ids, known, tabs, describe);
            var p := Starts(labels);
            var w := |SessionLabel(i, TabName(describe(ids[i])))|;
            && |labels[i]| == w + 2
            && (p[i] <= x < p[i] + w ==> HitFrom(p, widths, x, 0) == Some(i))
            && (p[i] + w <= x < p[i] + w + 2 ==> HitFrom(p, widths, x, 0) == None)
  {
    var labels := SessionLabels(ids, known, describe);
    var widths := ClickWidths(|ids|, true, ids, known, tabs, describe);
    var p := Starts(labels);
    var w := |SessionLabel(i, TabName(describe(ids[i])))|;
    assert forall j :: 0 <= j < |labels| ==> 0 <= widths[j] <= |labels[j]| by {
      forall j | 0 <= j < |labels|
        ensures 0 <= widths[j] <= |labels[j]|
      {
        assert ids[j] in known;
      }
    }
    if p[i] <= x < p[i] + w {
      ClickOnLabel(labels, widths, i, x);
    } else if p[i] + w <= x < p[i] + w + 2 {
      ClickPastWidth(labels, widths, i, x);
    }
  }

  /** Two labels side by side start at columns 0 and the first one's width. */
  lemma StartsPair(a: string, b: string)
    ensures Starts([a, b]) == [0, |a|]
  {
    var labels := [a, b];
    assert labels[..0] == [] && labels[..1] == [a];
    assert Concat([a]) == a by {
      assert [a][..0] == [];
    }
  }

  /** The decimal numbers of the first two sessions. */
  lemma FirstNumbers()
    ensures Utils.NatToDecimal(1) == "1" && Utils.NatToDecimal(2) == "2"
  {
    assert Utils.Digit(1) == '1' && Utils.Digit(2) == '2';
  }

  /** The labels of the first two sessions when both are named "shell". */
  lemma ShellLabels()
    ensures SessionLabel(0, "shell") == " [1] shell "
    ensures SessionLabel(1, "shell") == " [2] shell "
  {
    FirstNumbers();
  }

  /** Those labels drawn with the padding. */
  lemma ShellPadded()
    ensures Padded(" [1] shell ") == "  [1] shell  "
    ensures Padded(" [2] shell ") == "  [2] shell  "
  {
  }

  /** The drawn tabs of two sessions both named "shell". */
  lemma ShellTabs(known: map<string, Mux.Session>, describe: string -> Details)
    requires "s1" in known && "s2" in known
    requires describe("s1") == Details("shell", "") && describe("s2") == Details("shell", "")
    ensures SessionLabels(["s1", "s2"], known, describe) == ["  [1] shell  ", "  [2] shell  "]
  {
    ShellLabels();
    ShellPadded();
    assert TabName(describe("s1")) == "shell" && TabName(describe("s2")) == "shell";
    var labels := SessionLabels(["s1", "s2"], known, describe);
    assert labels[0] == "  [1] shell  ";
    assert labels[1] == "  [2] shell  ";
  }

  /** The click widths of two sessions both named "shell". */
  lemma ShellWidths(known: map<string, Mux.Session>, tabs: seq<Tab>, describe: string -> Details)
    requires "s1" in known && "s2" in known
    requires describe("s1") == Details("shell", "") && describe("s2") == Details("shell", "")
    ensures ClickWidths(2, true, ["s1", "s2"], known, tabs, describe) == [11, 11]
  {
    ShellLabels();
    var widths := ClickWidths(2, true, ["s1", "s2"], known, tabs, describe);
    assert widths[0] == 11 && widths[1] == 11;
  }

  /**
   * Two sessions named "shell": the tabs are drawn 13 columns wide from
   * columns 0 and 13, but a click tests only 11 columns of each, so a click
   * at column 11, inside the first tab, selects nothing.
   */
  lemma DeadClickStrip(known: map<string, Mux.Session>, tabs: seq<Tab>, describe: string -> Details)
    requires "s1" in known && "s2" in known
    requires describe("s1") == Details("shell", "") && describe("s2") == Details("shell", "")
    ensures var ids := ["s1", "s2"];
            var labels := SessionLabels(ids, known, describe);
            && labels == ["  [1] shell  ", "  [2] shell  "]
            && Starts(labels) == [0, 13]
            && ClickWidths(2, true, ids, known, tabs, describe) == [11, 11]
            && HitFrom([0, 13], [11, 11], 11, 0) == None
  {
    ShellTabs(known, describe);
    StartsPair("  [1] shell  ", "  [2] shell  ");
    ShellWidths(known, tabs, describe);
  }

  /** A standalone click only ever selects an existing tab. */
  lemma StandaloneHitIsTab(positions: seq<int>, ids: seq<string>, tabs: seq<Tab>, describe: string -> Details, x: int)
    ensures var h := HitFrom(positions, ClickWidths(|positions|, false, ids, map[], tabs, describe), x, 0);
            h.Some? ==> h.value < |tabs|
  {
  }

  /** After a standalone `View`, a click inside the drawn tab i selects tab i. */
  lemma StandaloneClick(tabs: seq<Tab>, ids: seq<string>, known: map<string, Mux.Session>,
                        describe: string -> Details, i: nat, x: int)
    requires i < |tabs|
    requires Starts(TabLabels(tabs))[i] <= x < Starts(TabLabels(tabs))[i] + TabWidth(tabs[i])
    ensures HitFrom(Starts(TabLabels(tabs)), ClickWidths(|tabs|, false, ids, known, tabs, describe), x, 0) == Some(i)
  {
    ClickOnLabel(TabLabels(tabs), ClickWidths(|tabs|, false, ids, known, tabs, describe), i, x);
  }
}
