# terbox core in Dafny

terbox is a terminal multiplexer built on Bubble Tea. It runs several shell
sessions and shows them as tabs, the way a browser shows pages. This
project models its bookkeeping core and proves properties about it:

- **Session registry** (`Mux`, from `internal/mux/mux.go`). It holds a map
  from session id to session, the ids in creation order, and the active id.
  It creates and closes sessions, cycles the active session forwards and
  backwards, and drops sessions that have died.
- **Scrollable tab strip** (`ScrollTabs`, from `internal/ui/tabs.go`). It
  chooses the visible window of tabs greedily and corrects the scroll offset
  after navigation. Clicks are mapped back to tabs through recorded
  positions.
- **Tab bar** (`TabBarView`, from `internal/ui/tabbar.go`). It works
  standalone or attached to a registry. Attached, it draws one label
  " [n] name " per session, with one column of style padding on each side,
  and makes the chosen session active in the registry.
- **Terminal panel** (`TerminalView`, from `internal/ui/terminal.go`). It
  keeps a history trimmed to `maxLines`, an input line being edited, a
  scroll offset, and a fixed-height view.
- **Panel and List** (`PanelView`, `ListView`, from `internal/ui/panel.go` and
  `internal/ui/list.go`). A panel view is cut or padded to a fixed number of
  lines. A list has a bounded cursor and a selection toggled at the cursor.
- **String helpers** (`Utils`, from `internal/utils/strings.go`).

Shared modules:

- `Wrappers`: Option, Result and Outcome.
- `Text`: `strings.Split` on "\n", `strings.Join` and `strings.Repeat`.
- `Cyclic`: wrap-around index arithmetic.
- `Messages`: the Bubble Tea messages the components read.
- `TabLayout`: tab widths and running start columns, used by both tab
  components.

Modelling choices:

- Strings are sequences of bytes, with each `char` standing for one byte.
  Go's `len` is then the length.
- Rendered widths are taken as byte lengths, which assumes ASCII titles
  and names. Command strings are taken as ASCII as well: only the six ASCII
  whitespace bytes separate fields.
- Whatever the operating system decides is a parameter:
  - `started`: whether a session's process starts;
  - `closed`: whether it closes;
  - `alive`: the set of sessions `IsAlive` reports alive;
  - `describe`: each session's name and last command.
- Integer arithmetic uses only non-negative operands of `%` and `/`, where
  Go's truncating operators agree with Dafny's.
- Where Go would panic (a negative slice bound, an out-of-range index), the
  model either requires the caller to avoid it or returns an explicit
  outcome (`ScrollTabs.Hit.IndexPanic`).

Three behaviours of the code are worth knowing; the model follows the code
in each.

1. **The active tab is not always left visible.** The doc comment of
   `ensureActiveTabVisible` (`internal/ui/tabs.go:169`) says it keeps the
   active tab within the visible range. Its right-scroll branch does not
   guarantee this. The backward walk stops at the first tab that does not
   fit, and the window then starts at that tab.
   - `ScrollTabs.ScrollRightGuarantee` states exactly what the branch does
     guarantee.
   - `ScrollTabs.RightScrollMissesActive` proves a counterexample: width 20,
     ten 8-column tabs, active tab 9. This gives offset 7 and the window
     `[7, 9)`.
2. **The first tab of a window is always drawn.** The `end > start` guard
   in `getVisibleTabs` (`internal/ui/tabs.go:160`) draws the window's first
   tab even when it alone is wider than the budget (`ScrollTabs.GrowFacts`).
3. **Attached tab bar clicks miss the last two columns of each tab.**
   Attached, each label is rendered with the styles' `Padding(0, 1)`
   (`internal/ui/tabbar.go:57-63`). The recorded positions advance by the
   padded width (`internal/ui/tabbar.go:172-180`). The click handler,
   though, tests only the unpadded label width
   (`internal/ui/tabbar.go:123-124`). A click on the last two columns of a
   drawn session tab therefore selects nothing.
   - `TabBarView.SessionClick` states both halves for every tab.
   - `TabBarView.DeadClickStrip` gives a concrete case: two sessions named
     "shell", drawn from columns 0 and 13, where a click at column 11 misses.

`truncateStr` in `internal/ui/tabbar.go:232-237` has the same body as
`TruncateString` in `internal/utils/strings.go`, so `Utils.TruncateString`
models both.

## Model

Each method proved against a specification function shares that function
with its row rather than giving it a row of its own:

- `Mux.NextActive`, `Mux.PrevActive` and `Mux.ActiveAfterRemoval` specify
  `NextSession`, `PrevSession` and the active-id update of `CloseSession`
  and `CleanupDeadSessions`.
- `ScrollTabs.VisibleTabs` specifies `GetVisibleTabs`, and
  `ScrollTabs.Tabs.Target` specifies what `Update` selects.
- `TabLayout.TabWidth` gives the `len(Title) + 2` width used by
  `Positions` and `ClickWidths`.
- `TabBarView.TabLabels` specifies the standalone row of `TabBar.View`.
- `ListView.RowsFrom` specifies `List.View`.

| member | source | states |
|---|---|---|
| Mux.Multiplexer.constructor | internal/mux/mux.go:20-26 | A new registry has no sessions, an empty order and no active id. It satisfies the registry invariant. |
| Mux.Multiplexer.CreateSession | internal/mux/mux.go:29-50 | A duplicate id, or a session whose start fails, returns an error and changes nothing. Otherwise the id is added to the map and appended to the order, and it becomes active only when none was. The invariant is kept. |
| Mux.Multiplexer.GetSession | internal/mux/mux.go:53-62 | It returns the session exactly when the id is registered, and SessionNotFound otherwise. |
| Mux.RemoveFirst | internal/mux/mux.go:81-86 | Removing the first occurrence shortens the sequence by one exactly when the id is present. The other ids are kept, and a duplicate-free order loses the id entirely. |
| Mux.RemoveFirstAt | internal/mux/mux.go:81-86 | When the id first occurs at i, removal is the splice `s[..i] + s[i+1..]`, so the remaining ids keep their relative order. |
| Mux.Multiplexer.RemoveFromOrder | internal/mux/mux.go:81-86 | The splice-out loop leaves `order` equal to `RemoveFirst` of the old order. |
| Mux.Multiplexer.CloseSession | internal/mux/mux.go:65-98 | An unknown id returns SessionNotFound, and a failed close returns the error while keeping the entry; neither changes anything. On success the id leaves the map and the order. A closed active id passes to the first remaining id, or to "". The invariant is kept. |
| Mux.Multiplexer.ListSessions | internal/mux/mux.go:101-108 | The listing is the order. Its length is the session count, it has no duplicates, and it holds exactly the registered ids. |
| Mux.OrderCoversKeys | internal/mux/mux.go:191-195 | An order that lists each map key exactly once is as long as the map. |
| Mux.Multiplexer.GetActive | internal/mux/mux.go:111-124 | It returns the active session exactly when the active id is set and registered, and SessionNotFound otherwise. |
| Mux.Multiplexer.SetActive | internal/mux/mux.go:127-137 | Only a registered id becomes active. An unknown id returns SessionNotFound and leaves the active id unchanged. |
| Mux.Multiplexer.GetActiveID | internal/mux/mux.go:140-144 | The active id is "" or a registered id. |
| Mux.Multiplexer.NextSession | internal/mux/mux.go:147-164 | An empty registry fails. Otherwise the id after the active one in order becomes active, wrapping round; an unlisted active id gives the first. |
| Mux.Multiplexer.PrevSession | internal/mux/mux.go:167-188 | An empty registry fails. Otherwise the id before the active one becomes active, wrapping from the first to the last. |
| Mux.NextAt | internal/mux/mux.go:147-188 | From the id at index i, next moves to index `(i+1) % n` and previous moves to `i-1`, or to `n-1` from 0. |
| Mux.PrevUndoesNext | internal/mux/mux.go:147-188 | Previous undoes next, and next undoes previous, for every listed id. |
| Mux.NextIterAt | internal/mux/mux.go:147-164 | k calls of next from index i reach index `SuccIter(i, k, n)`. |
| Mux.NextCycle | internal/mux/mux.go:147-164 | n calls of next over n sessions return to the starting session. |
| Mux.ThreeCycle | internal/mux/mux.go:147-164 | Over the order a, b, c, the next session after a is b, after b is c, and after c is a again. |
| Mux.ThreeSessionScenario | internal/mux/mux.go:147-164 | With sessions a, b, c created in order, the active ids are a, b, c and then a again after three `NextSession` calls. |
| Mux.Multiplexer.SessionCount | internal/mux/mux.go:191-195 | The count equals the length of the order. |
| Mux.Without | internal/mux/mux.go:209-220 | Filtering a set of ids out of the order keeps exactly the other ids, in order and without duplicates. |
| Mux.WithoutThenRemove | internal/mux/mux.go:209-220 | Removing one more id after a filter is the same as filtering that id too. |
| Mux.Multiplexer.CollectDead | internal/mux/mux.go:202-207 | The collected ids are exactly the registered sessions not reported alive, each once. |
| Mux.Multiplexer.RemoveAll | internal/mux/mux.go:209-220 | Each collected id is deleted from the map and spliced out of the order. |
| Mux.Multiplexer.CleanupDeadSessions | internal/mux/mux.go:198-231 | Only the live sessions remain. The order is filtered accordingly. A dead active id passes to the first remaining id, or to "". The invariant is kept. |
| Cyclic.SuccCases | internal/ui/tabbar.go:282 | `(i+1) % n` steps forward by one and wraps only from the last index. |
| Cyclic.PredSucc | internal/ui/tabbar.go:295-316 | The wrapping predecessor of `PrevTab` is the inverse of the successor of `NextTab` on in-range indices, in both directions. |
| Cyclic.SuccCycle | internal/ui/tabbar.go:275-292 | n successor steps on n indices return to the start. |
| Messages.DigitIndex | internal/ui/tabs.go:64-66 | Only the keys "1".."9" name a tab, and the index they name is 0..8. |
| TabLayout.Positions | internal/ui/tabs.go:94-113 | Each drawn tab's recorded start column is the total width of the drawn tabs before it. |
| TabLayout.PositionsDisjoint | internal/ui/tabs.go:101-113 | Drawn tabs do not overlap: a column inside a later tab is past the end of every earlier one. |
| TabLayout.KeyTarget | internal/ui/tabs.go:53-71 | Right/l and left/h move by exactly one and never leave the strip. A digit key selects tab d-1 only when that tab exists. Every other key selects nothing. |
| TabLayout.ArrowsSaturate | internal/ui/tabbar.go:88-96 | The arrow keys stop at the first and last tab instead of wrapping. |
| ScrollTabs.Budget | internal/ui/tabs.go:146-149 | The width available to tabs is `width - 4`, and never less than 10. |
| ScrollTabs.GrowFacts | internal/ui/tabs.go:157-165 | The greedy loop adds at least one tab, fits the tabs it adds in the budget when there are two or more, and stops only where the next tab would overflow. |
| ScrollTabs.VisibleWindow | internal/ui/tabs.go:141-168 | The window from an offset is non-empty while the offset is a tab index. Two or more of its tabs fit in the budget, and the next tab would not fit. |
| ScrollTabs.VisibleWindowUnique | internal/ui/tabs.go:141-168 | Those properties determine the window's end uniquely. |
| ScrollTabs.WindowShows | internal/ui/tabs.go:141-168 | A tab at or after the offset is drawn if and only if it is the first tab of the window or everything from the offset through it fits. |
| ScrollTabs.BackFacts | internal/ui/tabs.go:188-200 | The backward walk ends at an index r where the tabs after r through the active one fit. Either r is 0 or tab r itself does not fit. |
| ScrollTabs.ScrollFor | internal/ui/tabs.go:171-204 | The corrected scroll offset is a tab index, or 0 with no tabs. |
| ScrollTabs.ScrollKeepsVisible | internal/ui/tabs.go:171-204 | When the active tab is already inside the window, the scroll offset is left unchanged. |
| ScrollTabs.ScrollLeftShowsActive | internal/ui/tabs.go:174-178 | An active tab left of the window becomes the window's first tab and is drawn. |
| ScrollTabs.ScrollRightGuarantee | internal/ui/tabs.go:180-203 | After a right scroll to r, the active tab is drawn if and only if r is the active index, or r is 0 and every tab through the active one fits. A window starting at r+1 would always draw it. |
| ScrollTabs.RightScrollMissesActive | internal/ui/tabs.go:180-203 | With width 20, ten 8-column tabs and active tab 9, the offset becomes 7 and the window is `[7, 9)`, which leaves the active tab undrawn. |
| ScrollTabs.HitFrom | internal/ui/tabs.go:75-82 | The click loop selects the first recorded position whose tab range holds x. It panics when the first position it reaches lies past the last tab. Otherwise it misses, and then no position matches. |
| ScrollTabs.ClickOnDrawnTab | internal/ui/tabs.go:75-82 | With the window at offset 0, a click inside drawn tab i selects tab i. |
| ScrollTabs.ClickSelectsPositionIndex | internal/ui/tabs.go:75-80 | With the window scrolled, a click on the first drawn tab selects tab 0 (the position index), which is not drawn. |
| ScrollTabs.StalePositionsPanic | internal/ui/tabs.go:75-77 | Positions from an earlier view outlive a removed tab, and a click then reaches past the last tab. |
| ScrollTabs.Tabs.constructor | internal/ui/tabs.go:23-36 | A new strip has the given tabs, active tab 0, offset 0 and no positions. |
| ScrollTabs.Tabs.GetVisibleTabs | internal/ui/tabs.go:141-168 | The greedy loop returns `[0, 0)` with no tabs, and otherwise the window that `VisibleWindow` characterises. |
| ScrollTabs.Tabs.EnsureActiveTabVisible | internal/ui/tabs.go:171-204 | The loop leaves the offset at `ScrollFor` of the old state and keeps the strip invariant. |
| ScrollTabs.Tabs.SetSize | internal/ui/tabs.go:39-42 | It stores the new width and then corrects the scroll. |
| ScrollTabs.Tabs.FindClickedTab | internal/ui/tabs.go:75-82 | The loop's outcome is the hit test's. |
| ScrollTabs.Tabs.Update | internal/ui/tabs.go:50-86 | A key or a click that selects a tab makes it active and corrects the scroll, which needs a valid strip. Anything else changes neither, and is accepted on a strip left at offset -1. The strip ends valid when it was valid or a tab was selected. |
| ScrollTabs.Tabs.View | internal/ui/tabs.go:89-132 | It records the start column of each tab in the visible window. It reports the window and whether the left and right indicators show. With no tabs it keeps the old positions. |
| ScrollTabs.Tabs.AddTab | internal/ui/tabs.go:220-222 | The tab is appended, on any reachable strip. The strip stays valid exactly when the offset is not the -1 that `SetScrollOffset` leaves on an empty strip. |
| ScrollTabs.Tabs.RemoveTab | internal/ui/tabs.go:225-233 | An out-of-range index changes nothing. Otherwise the tab is spliced out, the active index steps back only when it falls off the end, and the scroll is corrected. Removing the only tab also repairs a strip at offset -1, leaving it valid at offset 0. |
| ScrollTabs.Tabs.UpdateTabContent | internal/ui/tabs.go:236-240 | Only the content of the tab at an in-range index changes, on any reachable strip, whose validity it keeps. |
| ScrollTabs.Tabs.SetActive | internal/ui/tabs.go:248-253 | Only an in-range index becomes active, and the scroll is then corrected. Any other index changes nothing, even on a strip at offset -1. |
| ScrollTabs.Tabs.SetScrollOffset | internal/ui/tabs.go:261-269 | The offset is clamped into `[0, len-1]`, which is -1 for an empty strip. From any reachable strip the result is valid, so this repairs a strip left at offset -1. |
| ScrollTabs.OffsetRepairScenario | internal/ui/tabs.go:220-269 | An empty strip clamped to offset -1 keeps that offset when a tab is added. Clamping the offset again, or removing that tab, gives offset 0. |
| TabBarView.TabName | internal/ui/tabbar.go:167-170 | A session is named by its last command cut to 20 bytes, or by its name when there is no command. |
| TabBarView.SessionLabel | internal/ui/tabbar.go:172 | A label is " [", the 1-based number, "] ", the name and " ", and its width follows from those parts. |
| TabBarView.Padded | internal/ui/tabbar.go:57-63 | The padding style draws a text with one space on each side, two columns wider, with the text in between. |
| TabBarView.TabLabel | internal/ui/tabbar.go:199-206 | A standalone tab is its padded title, `len(Title) + 2` columns wide. |
| TabBarView.SessionLabels | internal/ui/tabbar.go:159-178 | One drawn tab per listed session. A registered session is its padded " [i+1] name " label; a session the registry no longer knows is drawn as nothing. |
| TabBarView.Starts | internal/ui/tabbar.go:197-207 | Each label starts at the total width of the labels before it. |
| TabBarView.LabelAt | internal/ui/tabbar.go:197-210 | Label i occupies its recorded columns of the drawn row and holds exactly its text. Later labels start after it. |
| TabBarView.Row | internal/ui/tabbar.go:209-211 | The row is the labels padded with spaces to `width`, and is never shortened. |
| TabBarView.HitFrom | internal/ui/tabbar.go:107-145 | The click loop selects the first position with a positive width whose range holds x, and otherwise selects nothing. |
| TabBarView.ClickWidths | internal/ui/tabbar.go:108-131 | Attached, a click uses the current label's width, or that of " [n]  " when the session is gone. Standalone it uses the tab's width, or 0 past the last tab. |
| TabBarView.ClickOnLabel | internal/ui/tabbar.go:107-145 | When no click width exceeds its label's width, a click in the first `widths[i]` columns of drawn label i selects index i. |
| TabBarView.ClickPastWidth | internal/ui/tabbar.go:107-145 | When every click width lies between 0 and its label's width, a click in the columns of label i past its first `widths[i]` selects nothing. |
| TabBarView.SessionClick | internal/ui/tabbar.go:104-180 | After an attached view, while every listed session is still registered, drawn tab i is two columns wider than its label. A click in the label's columns selects session index i. A click in the last two columns selects nothing. |
| TabBarView.DeadClickStrip | internal/ui/tabbar.go:104-180 | For two sessions named "shell", the tabs are "  [1] shell  " and "  [2] shell  ", starting at columns 0 and 13. The click widths are 11 and 11, so a click at column 11 selects nothing. |
| TabBarView.StandaloneClick | internal/ui/tabbar.go:125-141 | After a standalone view, a click inside tab i selects tab i. |
| TabBarView.ClampIndex | internal/ui/tabbar.go:226-228 | An index past the end of a non-empty list moves to the last entry. Any other index is kept. |
| TabBarView.CloseLastActiveDesync | internal/ui/tabbar.go:221-229 | Closing the active last session of a, b, c leaves a active in the registry, but the bar's clamped index then shows b. |
| TabBarView.DrawLabels | internal/ui/tabbar.go:156-183 | The drawing loop records each label's start column and concatenates the labels. |
| TabBarView.TabBar.constructor | internal/ui/tabbar.go:34-47 | A standalone bar starts on tab 0 with no sessions and no registry. |
| TabBarView.TabBar.WithMux | internal/ui/tabbar.go:50-65 | An attached bar starts with no tabs, no sessions and index 0. |
| TabBarView.TabBar.SetSize | internal/ui/tabbar.go:215-218 | It stores the width and height. |
| TabBarView.TabBar.Init | internal/ui/tabbar.go:68-71 | The first session sync: attached, the sessions become the registry's order and the index is clamped; standalone, nothing changes. |
| TabBarView.TabBar.UpdateSessions | internal/ui/tabbar.go:221-229 | Attached, the bar's sessions become the registry's order and the index is clamped. Standalone, nothing changes. |
| TabBarView.TabBar.GetActiveSessionID | internal/ui/tabbar.go:333-338 | It returns the session at the index when the index is in range, and "" otherwise. |
| TabBarView.TabBar.NextTab | internal/ui/tabbar.go:275-292 | The index advances with wrap-around, and the chosen session becomes active in the registry. From a bar in step with the registry, this agrees with `NextActive` and keeps the bar in step. |
| TabBarView.TabBar.PrevTab | internal/ui/tabbar.go:295-316 | The index steps back, wrapping to the last entry. From a bar in step with the registry, this agrees with `PrevActive` and keeps the bar in step. |
| TabBarView.TabBar.SelectTab | internal/ui/tabbar.go:319-330 | Only an in-range index is selected. Attached, that session becomes active in the registry. |
| TabBarView.TabBar.AddTab | internal/ui/tabbar.go:253-255 | The tab is appended. |
| TabBarView.TabBar.RemoveTab | internal/ui/tabbar.go:258-265 | An out-of-range index changes nothing. Otherwise the tab is spliced out, and the active index steps back only when it falls off the end. |
| TabBarView.TabBar.UpdateTabContent | internal/ui/tabbar.go:268-272 | Only the content of the tab at an in-range index changes. |
| TabBarView.TabBar.CurrentWidths | internal/ui/tabbar.go:108-131 | There is one click width per recorded position. |
| TabBarView.TabBar.FindClickedTab | internal/ui/tabbar.go:107-145 | The loop's outcome is the hit test's over the current click widths. |
| TabBarView.TabBar.ClickWidthAt | internal/ui/tabbar.go:108-131 | The width the loop tests at position `i` is the current click width of that tab: the session label's width when attached, the title plus two standalone, 0 past the end. |
| TabBarView.TabBar.PressKey | internal/ui/tabbar.go:88-103 | Keys move the standalone active tab as `KeyTarget` says. |
| TabBarView.TabBar.Click | internal/ui/tabbar.go:104-146 | A hit selects that index. Attached, the hit session also becomes active in the registry. A miss changes nothing. |
| TabBarView.TabBar.SelectClicked | internal/ui/tabbar.go:135-142 | Attached, the index becomes `activeIdx` and a known session becomes the registry's active one. Standalone, the index becomes `active`. Nothing else changes. |
| TabBarView.TabBar.Update | internal/ui/tabbar.go:74-149 | Attached, the sessions are refreshed first. Then: a resize sets the size, keys move the active tab, and a left click selects the hit. Other messages change no index. |
| TabBarView.TabBar.View | internal/ui/tabbar.go:152-212 | The row is the drawn tabs (`SessionLabels` attached, `TabLabels` standalone) padded to `width`, and the recorded positions are their start columns. Attached, the sessions are first re-read from the registry. Standalone with no tabs, the row is "". |
| TerminalView.KeepLast | internal/ui/terminal.go:124-126 | Trimming keeps the newest `min(len, m)` lines, in order. |
| TerminalView.KeepLastShrink | internal/ui/terminal.go:212-217 | Trimming to m lines and then to fewer is trimming straight to fewer. |
| TerminalView.KeepLastTail | internal/ui/terminal.go:133-145 | Lines just appended survive a trim whole when they are no more than the cap. |
| TerminalView.OutputKept | internal/ui/terminal.go:133-145 | Output of no more lines than the cap can be read back exactly from the newest history lines. |
| TerminalView.TruncateLine | internal/ui/terminal.go:193-198 | The result is the prefix of the line of length `min(len, width)`. |
| TerminalView.RowCount | internal/ui/terminal.go:77-80 | The view has `max(height - 1, 1)` history rows. |
| TerminalView.FirstRow | internal/ui/terminal.go:84-87 | The first row shown is `max(0, len - rows - scroll)`, which is never past the end. |
| TerminalView.EndRow | internal/ui/terminal.go:88-92 | The shown lines end at most one screen after the first, and never past the end. |
| TerminalView.ViewRows | internal/ui/terminal.go:82-103 | There are exactly `RowCount` rows: the shown lines cut to width, then empty rows. |
| TerminalView.CutLines | internal/ui/terminal.go:94-98 | The result holds one row per line of the window, in order, each cut to the width. |
| TerminalView.PadBlank | internal/ui/terminal.go:100-103 | The rows are kept as they are and followed by empty rows up to exactly the content height. |
| TerminalView.RowsDetermineView | internal/ui/terminal.go:77-103 | Any row list of the content height that shows the window's lines and then blanks is `ViewRows`. |
| TerminalView.InputLine | internal/ui/terminal.go:109-112 | The prompt line is a prefix of "$ input_" no wider than `width`. |
| TerminalView.MaxScroll | internal/ui/terminal.go:176-179 | Scrolling up is bounded by `max(0, len - (height - 1))`. |
| TerminalView.BottomShowsNewest | internal/ui/terminal.go:84-98 | Unscrolled, the last history row shown is the newest line. |
| TerminalView.TopShowsOldest | internal/ui/terminal.go:175-183 | Scrolled fully up with room for history, the oldest line is shown first, and the screen is full when there is enough history. |
| TerminalView.ViewShape | internal/ui/terminal.go:76-115 | With no newline in the history or input, the view is exactly the history rows followed by the prompt line, and every row fits the width. |
| TerminalView.Terminal.constructor | internal/ui/terminal.go:28-35 | A new terminal has one empty history line, no input, no scroll and a cap of 1000. |
| TerminalView.Terminal.SetSize | internal/ui/terminal.go:38-41 | It stores the width and height. |
| TerminalView.Terminal.ExecuteCommand | internal/ui/terminal.go:119-130 | "$ command" is appended as the newest line, the history is trimmed to the cap, and the scroll is reset. With a positive cap, the command is the last line. |
| TerminalView.Terminal.WriteOutput | internal/ui/terminal.go:133-145 | The output's lines, at least one, are appended in order, trimmed to the cap, and the scroll is reset. |
| TerminalView.Terminal.ClearContent | internal/ui/terminal.go:148-152 | Back to one empty line, no input and no scroll. |
| TerminalView.Terminal.SetInputBuffer | internal/ui/terminal.go:160-162 | It replaces the input. |
| TerminalView.Terminal.GetHistory | internal/ui/terminal.go:170-172 | For newline-free history, the joined history splits back into the lines. |
| TerminalView.Terminal.SetMaxLines | internal/ui/terminal.go:212-217 | It sets the cap and trims the history to it at once. |
| TerminalView.Terminal.ScrollUp | internal/ui/terminal.go:175-183 | The offset grows by one only while it is below `MaxScroll`. |
| TerminalView.Terminal.ScrollDown | internal/ui/terminal.go:186-190 | The offset shrinks by one only while it is positive. |
| TerminalView.Terminal.Update | internal/ui/terminal.go:49-73 | Enter runs and clears the input. Backspace drops its last byte when there is one. Up and Down scroll. Any other one-byte key is typed. Non-key messages change nothing. |
| TerminalView.Terminal.View | internal/ui/terminal.go:76-116 | The view is the `ViewRows` joined by newlines, followed by the prompt line. |
| TerminalView.Terminal.VisibleRows | internal/ui/terminal.go:77-103 | The rows the two loops build are exactly `ViewRows` for the current content, width, height and scroll offset. |
| PanelView.LineCount | internal/ui/panel.go:62-65 | A panel shows `max(height, 1)` lines. |
| PanelView.PanelLines | internal/ui/panel.go:68-74 | The lines are a prefix of the content's lines, padded with empty lines to exactly `LineCount`. None contains a newline. |
| PanelView.ViewLineCount | internal/ui/panel.go:61-78 | The view has exactly `max(height, 1)` lines. |
| PanelView.ViewKeepsFittingContent | internal/ui/panel.go:68-77 | Content that already has exactly `height` lines is returned unchanged. |
| PanelView.Panel.constructor | internal/ui/panel.go:26-32 | A new panel has the title and style, no content and size 0 by 0. |
| PanelView.Panel.SetSize | internal/ui/panel.go:35-38 | Only the size changes. |
| PanelView.Panel.SetContent | internal/ui/panel.go:41-43 | Only the content changes. |
| PanelView.Panel.SetStyle | internal/ui/panel.go:46-48 | Only the style changes. |
| PanelView.Panel.View | internal/ui/panel.go:61-78 | The padding loop produces `PanelLines` joined by newlines. |
| ListView.Toggle | internal/ui/list.go:39-46 | Toggling flips whether the cursor index is selected and leaves every other index as it was. |
| ListView.ToggleTwice | internal/ui/list.go:39-46 | Toggling twice restores the selection. |
| ListView.Row | internal/ui/list.go:54-62 | A row starts with '>' exactly at the cursor and shows 'x' in its brackets exactly when selected, followed by the choice. |
| ListView.Rows | internal/ui/list.go:53-63 | There is one row per choice, in order. |
| ListView.ViewRows | internal/ui/list.go:51-65 | With newline-free choices, the view splits into the rows in order, followed by the empty piece after the last newline. |
| ListView.List.constructor | internal/ui/list.go:15-21 | A new list has cursor 0 and an empty selection. |
| ListView.List.Update | internal/ui/list.go:27-49 | Up/k and down/j move the cursor but never past either end. Enter and space toggle the cursor's index. Anything else changes nothing. |
| ListView.List.View | internal/ui/list.go:51-65 | The loop builds the rows, each ended by a newline. |
| Utils.TruncateString | internal/utils/strings.go:9-14 | A string that fits is unchanged. A longer one becomes its first `n-3` bytes followed by "...", exactly n bytes long. |
| Utils.TruncateIdempotent | internal/utils/strings.go:9-14 | Truncating twice equals truncating once. |
| Utils.ParseCommand | internal/utils/strings.go:17-23 | It returns the first whitespace-delimited field, or "" exactly when the input is all whitespace. The result contains no whitespace. |
| Utils.NatToDecimal | internal/utils/strings.go:28 | `%d` gives digits with no leading zero. |
| Utils.DecimalRoundTrip | internal/utils/strings.go:28 | Reading the decimal digits back gives the number. |
| Utils.FormatSessionName | internal/utils/strings.go:26-31 | An empty command gives "shell-" and the decimal index. Otherwise the name is the command truncated to at most 20 bytes. |
| Utils.PadString | internal/utils/strings.go:34-39 | A string at least as long as the target is unchanged. Otherwise spaces are appended to reach exactly the target length. |
| Utils.CenterString | internal/utils/strings.go:42-48 | A string at least as wide as the target is unchanged. Otherwise `(w - len)/2` spaces are prepended and nothing is appended, so the result is at most w bytes. |

## Left out

- `internal/data/session.go` is not part of this model. Process start,
  close and liveness are the parameters `started`, `closed` and `alive`.
  A session's name and last command are the parameter `describe`.
- The registry's read/write lock. Each operation is one atomic step.
- `GetSessionInfo`. The tab bar uses it only to tell whether a session is
  still registered and to read its name and last command. Its timestamp and
  liveness fields are not modelled.
- lipgloss styling: colours, borders, themes (`SetTheme`, `GetTheme`) and
  Unicode cell widths. Widths are byte lengths of ASCII text.
- ScrollTabs.Tabs.View: returns the visible window and the two indicator
  flags rather than the styled line. The "◀ "/" ▶" glyphs, the space
  padding and the byte cut `line[:width]` are not modelled.
- The tab bar's drawn tabs leave out their colours. The `Padding(0, 1)` of
  both tab styles is kept in both modes: " title " standalone, and
  " " + " [n] name " + " " attached, each as wide as lipgloss draws it.
- Utils.ParseCommand: only the six ASCII whitespace bytes separate fields.
  The non-ASCII Unicode spaces that `strings.Fields` also splits on, such as
  U+0085 and U+00A0, do not, so `"ls\u00a0-l"` parses to the whole string
  rather than "ls".
- ScrollTabs.Tabs.Update: requires that a left click does not reach a
  recorded position past the last tab, where Go panics.
  `ScrollTabs.StalePositionsPanic` shows the case.
- Other Go panics are required away:
  - ScrollTabs.Tabs.SetSize, ScrollTabs.Tabs.View, and the scroll
    correction inside Update, RemoveTab and SetActive: require a valid
    strip. On a non-empty strip still at offset -1, Go reads `tabs[-1]`
    and panics;
  - ScrollTabs.Tabs.View: requires width >= 0 for a non-empty strip;
  - TerminalView.Terminal.View: requires width >= 0;
  - TerminalView.Terminal.SetMaxLines: requires a non-negative cap;
  - Utils.TruncateString: requires n >= 3 for strings longer than n;
  - TabBarView.TabBar.PrevTab: requires the index to be at most one past
    the end.
- ListView.List.Update: the Go `List` is a value whose `selected` map is
  shared between copies, so an update also shows through older copies. The
  model has one object updated in place.
- `SetName` on a session, which the application calls after creating it,
  belongs to session.go. The registry's `Session` value keeps the name
  "shell" it was created with.
- The `Init` methods of `Tabs`, `Terminal`, `Panel` and `List`, and
  `Panel.Update`, which return no command and change nothing. `TabBar.Init`
  is modelled: it is `UpdateSessions`.
  Simple getters (`ActiveTab`, `ActiveIndex`, `GetTabs`, `GetScrollOffset`,
  `GetInputBuffer`, `GetContent`, `GetMaxLines`), which read one field.
- `internal/data/config.go`, `internal/ui/app.go`,
  `internal/ui/browser.go` and `main.go`: file I/O, the wall clock, and
  dispatch glue.
