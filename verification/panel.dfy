/**
 * The `Panel`: a titled box whose view is its content cut or padded to
 * exactly `max(height, 1)` lines.
 */
module PanelView {

  import Text

  /** A lipgloss style, kept only as an opaque value the panel stores. */
  datatype Style = Style(spec: string)

  /** The number of lines a panel shows: its height, at least one. */
  function LineCount(height: int): (n: nat)
    ensures n >= 1 && n >= height
    ensures height >= 1 ==> n == height
  {
    if height < 1 then 1 else height
  }

  /**
   * The lines of the view: the content's lines, the first `LineCount`
   * of them, followed by empty lines up to `LineCount`.
   */
  function PanelLines(content: string, height: int): (r: seq<string>)
    ensures |r| == LineCount(height)
    ensures var lines := Text.Split(content);
            var kept := if |lines| < |r| then |lines| else |r|;
            && r[..kept] == lines[..kept]
            && forall k :: kept <= k < |r| ==> r[k] == ""
    ensures Text.NoNewlines(r)
  {
    var lines := Text.Split(content);
    var n := LineCount(height);
    if |lines| >= n then lines[..n] else lines + seq(n - |lines|, _ => "")
  }

  /** The view is exactly `max(height, 1)` lines. */
  lemma ViewLineCount(content: string, height: int)
    ensures |Text.Split(Text.Join(PanelLines(content, height), "\n"))| == LineCount(height)
  {
    Text.SplitJoin(PanelLines(content, height));
  }

  /** Content that already has exactly `height` lines is shown unchanged. */
  lemma ViewKeepsFittingContent(content: string, height: int)
    requires height >= 1 && |Text.Split(content)| == height
    ensures Text.Join(PanelLines(content, height), "\n") == content
  {
    var lines := Text.Split(content);
    assert PanelLines(content, height) == lines[..height];
    assert lines[..height] == lines;
    Text.JoinSplit(content);
  }

  class Panel {
    var title: string
    var content: string
    var width: int
    var height: int
    var style: Style

    /** `NewPanelWithTheme`: the title and the theme's panel style, no content, size 0 by 0. */
    constructor (title: string, style: Style)
      ensures this.title == title && this.style == style
      ensures content == "" && width == 0 && height == 0
    {
      this.title := title;
      this.style := style;
      content := "";
      width := 0;
      height := 0;
    }

    /** `SetSize`: changes the size only. */
    method SetSize(width: int, height: int)
      modifies this`width, this`height
      ensures this.width == width && this.height == height
    {
      this.width := width;
      this.height := height;
    }

    /** `SetContent`: changes the content only. */
    method SetContent(content: string)
      modifies this`content
      ensures this.content == content
    {
      this.content := content;
    }

    /** `SetStyle`: changes the style only. */
    method SetStyle(style: Style)
      modifies this`style
      ensures this.style == style
    {
      this.style := style;
    }

    /** `View`: the content cut or padded to `max(height, 1)` lines, joined by newlines. */
    method View() returns (r: string)
      ensures r == Text.Join(PanelLines(content, height), "\n")
    {
      var contentHeight := height;
      if contentHeight < 1 {
        contentHeight := 1;
      }
      var lines := Text.Split(content);
      if |lines| > contentHeight {
        lines := lines[..contentHeight];
      }
      ghost var kept := lines;
      while |lines| < contentHeight
        invariant |kept| <= |lines| <= contentHeight
        invariant lines[..|kept|] == kept
        invariant forall k :: |kept| <= k < |lines| ==> lines[k] == ""
        decreases contentHeight - |lines|
      {
        lines := lines + [""];
      }
      assert lines == PanelLines(content, height);
      r := Text.Join(lines, "\n");
    }
  }
}
