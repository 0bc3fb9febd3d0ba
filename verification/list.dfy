/**
 * The `List`: choices with a cursor that stops at both ends and a set of
 * selected indices that Enter or Space toggles at the cursor.
 */
module ListView {

  import opened Messages
  import Text

  /** The selection after toggling index c. */
  function Toggle(selected: set<int>, c: int): (r: set<int>)
    ensures c in r <==> c !in selected
    ensures forall i :: i != c ==> (i in r <==> i in selected)
  {
    if c in selected then selected - {c} else selected + {c}
  }

  /** Toggling the same index twice restores the selection. */
  lemma ToggleTwice(selected: set<int>, c: int)
    ensures Toggle(Toggle(selected, c), c) == selected
  {
  }

  /** `fmt.Sprintf("%s [%s] %s", cursor, checked, choice)`: one row, without its newline. */
  function Row(choice: string, atCursor: bool, isSelected: bool): (r: string)
    ensures |r| == |choice| + 6
    ensures r[0] == (if atCursor then '>' else ' ')
    ensures r[3] == (if isSelected then 'x' else ' ')
    ensures r[6..] == choice
  {
    [if atCursor then '>' else ' '] + " [" + [if isSelected then 'x' else ' '] + "] " + choice
  }

  /** The view from row i on: each row followed by a newline. */
  function RowsFrom(choices: seq<string>, cursor: int, selected: set<int>, i: nat): string
    requires i <= |choices|
    decreases |choices| - i
  {
    if i == |choices| then ""
    else Row(choices[i], cursor == i, i in selected) + "\n" + RowsFrom(choices, cursor, selected, i + 1)
  }

  /** The rows of the view, one per choice. */
  function Rows(choices: seq<string>, cursor: int, selected: set<int>): (r: seq<string>)
    ensures |r| == |choices|
    ensures forall i :: 0 <= i < |choices| ==> r[i] == Row(choices[i], cursor == i, i in selected)
  {
    seq(|choices|, i requires 0 <= i < |choices| => Row(choices[i], cursor == i, i in selected))
  }

  /**
   * With newline-free choices, the view splits into one row per choice,
   * in order, and a final empty piece after the last newline; the row of
   * choice i starts with '>' exactly when i is the cursor and shows "[x]"
   * exactly when i is selected.
   */
  lemma {:induction false} ViewRows(choices: seq<string>, cursor: int, selected: set<int>, i: nat)
    requires i <= |choices| && Text.NoNewlines(choices)
    ensures Text.Split(RowsFrom(choices, cursor, selected, i)) == Rows(choices, cursor, selected)[i..] + [""]
    decreases |choices| - i
  {
    var rows := Rows(choices, cursor, selected);
    if i == |choices| {
    } else {
      ViewRows(choices, cursor, selected, i + 1);
      var row := rows[i];
      assert '\n' !in row by {
        assert row[6..] == choices[i];
        assert '\n' !in choices[i];
        assert forall k :: 0 <= k < 6 ==> row[k] != '\n';
        assert row == row[..6] + row[6..];
      }
      Text.SplitAt(row, RowsFrom(choices, cursor, selected, i + 1));
      assert rows[i..] == [row] + rows[i + 1..];
    }
  }

  class List {
    var choices: seq<string>
    var cursor: int
    var selected: set<int>

    /** The cursor is a choice's index, or 0 when there are none. */
    ghost predicate Valid()
      reads this
    {
      0 <= cursor && (cursor < |choices| || cursor == 0)
    }

    /** `NewList`: cursor on the first choice, nothing selected. */
    constructor (choices: seq<string>)
      ensures Valid()
      ensures this.choices == choices && cursor == 0 && selected == {}
    {
      this.choices := choices;
      cursor := 0;
      selected := {};
    }

    /**
     * `Update`: up/k and down/j move the cursor without leaving the list;
     * enter/space toggles the cursor's index; nothing else changes anything.
     */
    method Update(msg: Msg)
      requires Valid()
      modifies this`cursor, this`selected
      ensures Valid()
      ensures msg.KeyMsg? && (msg.key == "up" || msg.key == "k") ==>
                cursor == (if old(cursor) > 0 then old(cursor) - 1 else old(cursor)) && selected == old(selected)
      ensures msg.KeyMsg? && (msg.key == "down" || msg.key == "j") ==>
                cursor == (if old(cursor) < |choices| - 1 then old(cursor) + 1 else old(cursor)) && selected == old(selected)
      ensures msg.KeyMsg? && (msg.key == "enter" || msg.key == " ") ==>
                cursor == old(cursor) && selected == Toggle(old(selected), cursor)
      ensures !(msg.KeyMsg? && msg.key in {"up", "k", "down", "j", "enter", " "}) ==>
                cursor == old(cursor) && selected == old(selected)
    {
      match msg {
        case KeyMsg(_, key) =>
          if key == "up" || key == "k" {
            if cursor > 0 {
              cursor := cursor - 1;
            }
          } else if key == "down" || key == "j" {
            if cursor < |choices| - 1 {
              cursor := cursor + 1;
            }
          } else if key == "enter" || key == " " {
            if cursor in selected {
              selected := selected - {cursor};
            } else {
              selected := selected + {cursor};
            }
          }
        case _ =>
      }
    }

    /** `View`: one row per choice, each ended by a newline. */
    method View() returns (s: string)
      ensures s == RowsFrom(choices, cursor, selected, 0)
    {
      s := "";
      var i := 0;
      while i < |choices|
        invariant 0 <= i <= |choices|
        invariant s + RowsFrom(choices, cursor, selected, i) == RowsFrom(choices, cursor, selected, 0)
      {
        s := s + Row(choices[i], cursor == i, i in selected) + "\n";
        i := i + 1;
      }
    }
  }
}
