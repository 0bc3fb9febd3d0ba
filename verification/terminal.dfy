/**
 * The `Terminal` panel: a scroll-back of lines capped at `maxLines`, a
 * line being typed, and a view of the newest lines that fit the height,
 * with the prompt line "$ <input>_" underneath.
 */
module TerminalView {

  import opened Messages
  import Text

  /** The newest `m` lines of `s` (all of them when there are at most `m`). */
  function KeepLast(s: seq<string>, m: nat): (r: seq<string>)
    ensures |r| == if |s| <= m then |s| else m
    ensures forall k :: 0 <= k < |r| ==> r[k] == s[|s| - |r| + k]
  {
    if |s| > m then s[|s| - m..] else s
  }

  /** Trimming to m lines and then to fewer is trimming straight to fewer. */
  lemma KeepLastShrink(s: seq<string>, m: nat, m': nat)
    requires m' <= m
    ensures KeepLast(KeepLast(s, m), m') == KeepLast(s, m')
  {
    var a := KeepLast(KeepLast(s, m), m');
    var b := KeepLast(s, m');
    assert |a| == |b|;
    forall k | 0 <= k < |a|
      ensures a[k] == b[k]
    {
    }
  }

  /** Lines just appended survive the trim whole as long as they are no more than the cap. */
  lemma KeepLastTail(s: seq<string>, tail: seq<string>, m: nat)
    requires |tail| <= m
    ensures var r := KeepLast(s + tail, m);
            |r| >= |tail| && r[|r| - |tail|..] == tail
  {
    var r := KeepLast(s + tail, m);
    forall k | 0 <= k < |tail|
      ensures r[|r| - |tail|..][k] == tail[k]
    {
      assert r[|r| - |tail| + k] == (s + tail)[|s| + k];
    }
  }

  /**
   * Output written in one go stays readable in the history: when it has
   * no more lines than the cap, the newest history lines joined by
   * newlines give back the output exactly.
   */
  lemma OutputKept(content: seq<string>, output: string, m: nat)
    requires |Text.Split(output)| <= m
    ensures var lines := Text.Split(output);
            var r := KeepLast(content + lines, m);
            |r| >= |lines| && Text.Join(r[|r| - |lines|..], "\n") == output
  {
    KeepLastTail(content, Text.Split(output), m);
    Text.JoinSplit(output);
  }

  /** `truncateLine`: the first `width` bytes of a longer line. */
  function TruncateLine(line: string, width: nat): (r: string)
    ensures |r| == if |line| <= width then |line| else width
    ensures r == line[..|r|]
  {
    if |line| > width then line[..width] else line
  }

  /** Lines of history shown: the height less the prompt line, at least one. */
  function RowCount(height: int): (n: nat)
    ensures n >= 1 && n >= height - 1
  {
    if height - 1 < 1 then 1 else height - 1
  }

  /** Index of the first history line shown: `scroll` lines above the newest full screen, at least 0. */
  function FirstRow(len: nat, height: int, scroll: nat): (i: nat)
    ensures i <= len
  {
    if len - RowCount(height) - scroll < 0 then 0 else len - RowCount(height) - scroll
  }

  /** One past the last history line shown. */
  function EndRow(len: nat, height: int, scroll: nat): (i: nat)
    ensures FirstRow(len, height, scroll) <= i <= len
    ensures i - FirstRow(len, height, scroll) <= RowCount(height)
  {
    var s := FirstRow(len, height, scroll);
    if s + RowCount(height) > len then len else s + RowCount(height)
  }

  /**
   * The history rows of the view: the shown lines cut to `width`, then
   * empty rows up to `RowCount(height)`.
   */
  function ViewRows(content: seq<string>, width: nat, height: int, scroll: nat): (rows: seq<string>)
    ensures |rows| == RowCount(height)
    ensures var s := FirstRow(|content|, height, scroll);
            var e := EndRow(|content|, height, scroll);
            && (forall k :: 0 <= k < e - s ==> rows[k] == TruncateLine(content[s + k], width))
            && (forall k :: e - s <= k < |rows| ==> rows[k] == "")
  {
    var s := FirstRow(|content|, height, scroll);
    var e := EndRow(|content|, height, scroll);
    seq(e - s, k requires 0 <= k < e - s => TruncateLine(content[s + k], width)) +
    seq(RowCount(height) - (e - s), _ => "")
  }

  /** `ViewRows` is the only row list of its length that shows the window's lines and then blanks. */
  lemma RowsDetermineView(content: seq<string>, width: nat, height: int, scroll: nat, v: seq<string>)
    requires |v| == RowCount(height)
    requires var s := FirstRow(|content|, height, scroll);
             var e := EndRow(|content|, height, scroll);
             && (forall k :: 0 <= k < e - s ==> v[k] == TruncateLine(content[s + k], width))
             && (forall k :: e - s <= k < |v| ==> v[k] == "")
    ensures v == ViewRows(content, width, height, scroll)
  {
    var rows := ViewRows(content, width, height, scroll);
    forall k | 0 <= k < |v|
      ensures v[k] == rows[k]
    {
    }
  }

  /** The lines `content[start..end]`, each cut to `width` (the first loop of `View`). */
  method CutLines(content: seq<string>, start: nat, end: nat, width: nat) returns (lines: seq<string>)
    requires start <= end <= |content|
    ensures |lines| == end - start
    ensures forall k :: 0 <= k < |lines| ==> lines[k] == TruncateLine(content[start + k], width)
  {
    lines := [];
    var i := start;
    while i < end
      invariant start <= i <= end
      invariant |lines| == i - start
      invariant forall k :: 0 <= k < |lines| ==> lines[k] == TruncateLine(content[start + k], width)
    {
      if i >= 0 && i < |content| {
        lines := lines + [TruncateLine(content[i], width)];
      }
      i := i + 1;
    }
  }

  /** Appends empty rows to `lines` until it holds `n` of them (the padding loop of `View`). */
  method PadBlank(lines: seq<string>, n: nat) returns (padded: seq<string>)
    requires |lines| <= n
    ensures |padded| == n
    ensures padded[..|lines|] == lines
    ensures forall k :: |lines| <= k < n ==> padded[k] == ""
  {
    padded := lines;
    while |padded| < n
      invariant |lines| <= |padded| <= n
      invariant padded[..|lines|] == lines
      invariant forall k :: |lines| <= k < |padded| ==> padded[k] == ""
      decreases n - |padded|
    {
      padded := padded + [""];
    }
  }

  /** The prompt line "$ <input>_", cut to `width`. */
  function InputLine(input: string, width: nat): (r: string)
    ensures |r| <= width && |r| <= |input| + 3
    ensures r == ("$ " + input + "_")[..|r|]
  {
    TruncateLine("$ " + input + "_", width)
  }

  /** How far `scrollUp` may go: the lines that do not fit above the prompt, at least 0. */
  function MaxScroll(len: nat, height: int): (m: nat)
    ensures m >= len - (height - 1)
  {
    if len - (height - 1) < 0 then 0 else len - (height - 1)
  }

  /** With the view not scrolled, the newest history line is the last history row shown. */
  lemma BottomShowsNewest(content: seq<string>, width: nat, height: int)
    requires content != []
    ensures var e := EndRow(|content|, height, 0);
            var s := FirstRow(|content|, height, 0);
            && e == |content| && s < e
            && ViewRows(content, width, height, 0)[e - s - 1] == TruncateLine(content[|content| - 1], width)
  {
  }

  /**
   * Scrolled all the way up on a screen with room for history, the first
   * history line is the first row shown; and the rows on screen are then
   * all history lines whenever there are enough of them.
   */
  lemma TopShowsOldest(content: seq<string>, width: nat, height: int)
    requires height >= 2
    ensures FirstRow(|content|, height, MaxScroll(|content|, height)) == 0
    ensures |content| >= RowCount(height) ==> EndRow(|content|, height, MaxScroll(|content|, height)) == RowCount(height)
  {
  }

  /**
   * Every row of the view is at most `width` bytes, and with no newline in
   * the history or the input the view is exactly `RowCount(height) + 1`
   * lines: the history rows, then the prompt.
   */
  lemma ViewShape(content: seq<string>, input: string, width: nat, height: int, scroll: nat)
    requires Text.NoNewlines(content) && '\n' !in input
    ensures var rows := ViewRows(content, width, height, scroll);
            var screen := Text.Join(rows, "\n") + "\n" + InputLine(input, width);
            && Text.Split(screen) == rows + [InputLine(input, width)]
            && forall k :: 0 <= k < |rows| ==> |rows[k]| <= width
  {
    var rows := ViewRows(content, width, height, scroll);
    var line := InputLine(input, width);
    var all := rows + [line];
    Text.JoinSnoc(rows, line, "\n");
    var s := FirstRow(|content|, height, scroll);
    var e := EndRow(|content|, height, scroll);
    forall k | 0 <= k < |all|
      ensures '\n' !in all[k]
    {
      if k < e - s {
        assert rows[k] == content[s + k][..|rows[k]|];
        assert '\n' !in content[s + k];
      } else if k == |rows| {
        assert all[k] == ("$ " + input + "_")[..|line|];
        assert '\n' !in "$ " + input + "_";
      }
    }
    Text.SplitJoin(all);
  }

  class Terminal {
    var width: int
    var height: int
    /** Lines of history, oldest first. */
    var content: seq<string>
    /** The line being typed. */
    var inputBuffer: string
    /** How many lines the view is scrolled up from the newest. */
    var scrollOffset: int
    /** Most lines of history kept. */
    var maxLines: int

    ghost predicate Valid()
      reads this
    {
      scrollOffset >= 0 && maxLines >= 0
    }

    /** `NewTerminal`: one empty line of history, a cap of 1000 lines. */
    constructor ()
      ensures Valid()
      ensures content == [""] && inputBuffer == "" && scrollOffset == 0 && maxLines == 1000
      ensures width == 0 && height == 0
    {
      width := 0;
      height := 0;
      content := [""];
      inputBuffer := "";
      scrollOffset := 0;
      maxLines := 1000;
    }

    /** `SetSize`. */
    method SetSize(width: int, height: int)
      modifies this`width, this`height
      ensures this.width == width && this.height == height
    {
      this.width := width;
      this.height := height;
    }

    /** `ExecuteCommand`: the command is added as "$ <command>", history is trimmed, the view returns to the bottom. */
    method ExecuteCommand(command: string)
      requires Valid()
      modifies this`content, this`scrollOffset
      ensures Valid()
      ensures content == KeepLast(old(content) + ["$ " + command], maxLines)
      ensures |content| <= maxLines && scrollOffset == 0
      ensures maxLines >= 1 ==> content[|content| - 1] == "$ " + command
    {
      content := content + ["$ " + command];
      if |content| > maxLines {
        content := content[|content| - maxLines..];
      }
      scrollOffset := 0;
    }

    /**
     * `WriteOutput`: each line of the output becomes a line of history,
     * history is trimmed, the view returns to the bottom.
     */
    method WriteOutput(output: string)
      requires Valid()
      modifies this`content, this`scrollOffset
      ensures Valid()
      ensures content == KeepLast(old(content) + Text.Split(output), maxLines)
      ensures |content| <= maxLines && scrollOffset == 0
    {
      var lines := Text.Split(output);
      var i := 0;
      while i < |lines|
        invariant 0 <= i <= |lines|
        invariant content == old(content) + lines[..i]
      {
        content := content + [lines[i]];
        i := i + 1;
      }
      assert lines[..i] == lines;
      if |content| > maxLines {
        content := content[|content| - maxLines..];
      }
      scrollOffset := 0;
    }

    /** `ClearContent`: back to one empty line, no input, not scrolled. */
    method ClearContent()
      requires Valid()
      modifies this`content, this`inputBuffer, this`scrollOffset
      ensures Valid()
      ensures content == [""] && inputBuffer == "" && scrollOffset == 0
    {
      content := [""];
      inputBuffer := "";
      scrollOffset := 0;
    }

    /** `SetInputBuffer`. */
    method SetInputBuffer(input: string)
      modifies this`inputBuffer
      ensures inputBuffer == input
    {
      inputBuffer := input;
    }

    /** `GetHistory`: the history lines joined by newlines. */
    function GetHistory(): (r: string)
      reads this
      ensures Text.NoNewlines(content) && content != [] ==> Text.Split(r) == content
    {
      if Text.NoNewlines(content) && content != [] then
        Text.SplitJoin(content);
        Text.Join(content, "\n")
      else
        Text.Join(content, "\n")
    }

    /**
     * `SetMaxLines`: a new cap, and history trimmed to it at once. Go
     * slices from `len - max`, which panics for a negative cap.
     */
    method SetMaxLines(max: int)
      requires Valid() && max >= 0
      modifies this`maxLines, this`content
      ensures Valid()
      ensures maxLines == max && content == KeepLast(old(content), max)
    {
      maxLines := max;
      if |content| > max {
        content := content[|content| - max..];
      }
    }

    /** `scrollUp`: one line further back, up to `MaxScroll`. */
    method ScrollUp()
      requires Valid()
      modifies this`scrollOffset
      ensures Valid()
      ensures scrollOffset == if old(scrollOffset) < MaxScroll(|content|, height) then old(scrollOffset) + 1 else old(scrollOffset)
    {
      var maxScroll := |content| - (height - 1);
      if maxScroll < 0 {
        maxScroll := 0;
      }
      if scrollOffset < maxScroll {
        scrollOffset := scrollOffset + 1;
      }
    }

    /** `scrollDown`: one line towards the newest, stopping at 0. */
    method ScrollDown()
      requires Valid()
      modifies this`scrollOffset
      ensures Valid()
      ensures scrollOffset == if old(scrollOffset) > 0 then old(scrollOffset) - 1 else 0
    {
      if scrollOffset > 0 {
        scrollOffset := scrollOffset - 1;
      }
    }

    /**
     * `Update`: Enter runs the typed line and clears it; Backspace drops
     * its last byte; Up and Down scroll; any other key whose text is one
     * byte is typed. Other messages change nothing.
     */
    method Update(msg: Msg)
      requires Valid()
      modifies this`content, this`inputBuffer, this`scrollOffset
      ensures Valid()
      ensures !msg.KeyMsg? ==> content == old(content) && inputBuffer == old(inputBuffer) && scrollOffset == old(scrollOffset)
      ensures msg.KeyMsg? && msg.keyType == KeyEnter ==>
                content == KeepLast(old(content) + ["$ " + old(inputBuffer)], maxLines) &&
                inputBuffer == "" && scrollOffset == 0
      ensures msg.KeyMsg? && msg.keyType == KeyBackspace ==>
                content == old(content) && scrollOffset == old(scrollOffset) &&
                inputBuffer == if old(inputBuffer) == "" then "" else old(inputBuffer)[..|old(inputBuffer)| - 1]
      ensures msg.KeyMsg? && msg.keyType == KeyUp ==>
                content == old(content) && inputBuffer == old(inputBuffer) &&
                scrollOffset == if old(scrollOffset) < MaxScroll(|content|, height) then old(scrollOffset) + 1 else old(scrollOffset)
      ensures msg.KeyMsg? && msg.keyType == KeyDown ==>
                content == old(content) && inputBuffer == old(inputBuffer) &&
                scrollOffset == if old(scrollOffset) > 0 then old(scrollOffset) - 1 else 0
      ensures msg.KeyMsg? && msg.keyType !in {KeyEnter, KeyBackspace, KeyUp, KeyDown} ==>
                content == old(content) && scrollOffset == old(scrollOffset) &&
                inputBuffer == if |msg.key| == 1 then old(inputBuffer) + msg.key else old(inputBuffer)
    {
      match msg {
        case KeyMsg(keyType, key) =>
          match keyType {
            case KeyEnter =>
              ExecuteCommand(inputBuffer);
              inputBuffer := "";
            case KeyBackspace =>
              if |inputBuffer| > 0 {
                inputBuffer := inputBuffer[..|inputBuffer| - 1];
              }
            case KeyUp =>
              ScrollUp();
            case KeyDown =>
              ScrollDown();
            case _ =>
              if |key| == 1 {
                inputBuffer := inputBuffer + key;
              }
          }
        case _ =>
      }
    }

    /** The history rows of `View`: the shown lines cut to `width`, then empty rows. */
    method VisibleRows() returns (visibleLines: seq<string>)
      requires Valid() && width >= 0
      ensures visibleLines == ViewRows(content, width, height, scrollOffset)
    {
      var contentHeight := height - 1;
      if contentHeight < 1 {
        contentHeight := 1;
      }
      var startIdx := |content| - contentHeight - scrollOffset;
      if startIdx < 0 {
        startIdx := 0;
      }
      var endIdx := startIdx + contentHeight;
      if endIdx > |content| {
        endIdx := |content|;
      }
      assert contentHeight == RowCount(height);
      assert startIdx == FirstRow(|content|, height, scrollOffset);
      assert endIdx == EndRow(|content|, height, scrollOffset);
      visibleLines := CutLines(content, startIdx, endIdx, width);
      visibleLines := PadBlank(visibleLines, contentHeight);
      RowsDetermineView(content, width, height, scrollOffset, visibleLines);
    }

    /**
     * `View`: the history rows and the prompt line, joined by newlines.
     * Lines are cut with `line[:width]`, which Go cannot do for a negative
     * width (the prompt line is always longer than that).
     */
    method View() returns (r: string)
      requires Valid() && width >= 0
      ensures r == Text.Join(ViewRows(content, width, height, scrollOffset), "\n") + "\n" + InputLine(inputBuffer, width)
    {
      var visibleLines := VisibleRows();
      var output := Text.Join(visibleLines, "\n");
      var inputLine := "$ " + inputBuffer + "_";
      if |inputLine| > width {
        inputLine := inputLine[..width];
      }
      r := output + "\n" + inputLine;
    }
  }
}
