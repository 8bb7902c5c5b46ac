/**
 * The metadata editor of a cell: a three-row text view showing the
 * cluster name (row 0), the cell name (row 1) and a row of seven colour
 * blocks (row 2).  Text typed into row 1 becomes the cell's name, a click
 * on a colour block becomes its colour, and some keys are swallowed.
 */
module MetadataEdit {

  import opened Wrappers
  import opened CellItemView
  import UnitGrid

  /**
   * The width of the label in front of the data in every row:
   * `"cell name:"` plus three non-breaking spaces and a space, and
   * `"cell color: "` plus two non-breaking spaces.
   */
  const LabelWidth: nat := 14

  const NameRowLabel: string := "cell name:\U{A0}\U{A0}\U{A0} "

  /**
   * The plain text of row 1 for a cell named `name`, for a name that the
   * rich-text display shows verbatim (see `ShownVerbatim`).
   */
  function NameRowText(name: string): (r: string)
    ensures |r| == LabelWidth + |name|
  {
    NameRowLabel + name
  }

  /** `QString::remove(0, n)`: drops the first `n` characters, all of them when there are fewer. */
  function RemoveLeading(s: string, n: nat): (r: string)
    ensures |s| <= n ==> r == []
    ensures n < |s| ==> |r| == |s| - n && forall i | 0 <= i < |r| :: r[i] == s[n + i]
  {
    if |s| <= n then [] else s[n..]
  }

  /** The characters HTML treats as white space. */
  predicate IsHtmlSpace(c: char)
  {
    c == ' ' || c == '\t' || c == '\n' || c == '\r' || c == '\U{000C}'
  }

  /**
   * A name that the display shows as it is.  The name goes into the rich
   * text of the view unescaped, so `<` opens markup, `&` opens an entity,
   * and white space collapses to single spaces and is dropped at the ends
   * of the paragraph (the name follows the label's own space).  A name
   * free of all three is shown character for character.
   */
  predicate ShownVerbatim(name: string)
  {
    forall i | 0 <= i < |name| ::
      && name[i] != '<' && name[i] != '&'
      && (IsHtmlSpace(name[i]) ==>
            name[i] == ' ' && 0 < i < |name| - 1 && !IsHtmlSpace(name[i - 1]))
  }

  /** A name holding markup is not shown as it is, so it does not come back from the display. */
  lemma MarkupIsNotShownVerbatim()
    ensures !ShownVerbatim("x<b>y")
    ensures !ShownVerbatim("a  b")
    ensures ShownVerbatim("a b")
  {
    assert "x<b>y"[1] == '<';
    assert "a  b"[2] == ' ' && IsHtmlSpace("a  b"[1]);
    var ab := "a b";
    assert ab[0] == 'a' && ab[1] == ' ' && ab[2] == 'b' && |ab| == 3;
  }

  /**
   * Reading the name back from the displayed name row gives the name, for a
   * name the display shows verbatim: display and edit agree on the label width.
   */
  lemma NameRowRoundTrip(name: string)
    requires ShownVerbatim(name)
    ensures RemoveLeading(NameRowText(name), LabelWidth) == name
  {
    var text := NameRowText(name);
    if name == [] {
      assert |text| == LabelWidth;
    } else {
      assert text[LabelWidth..] == name;
    }
  }

  /**
   * The colour row: the label, then for each of the seven colours a
   * separator and a block two characters wide, so block `k` occupies
   * columns `15 + 3k` and `16 + 3k`; a click selects the colour `(col - 15) / 3`.
   */
  function ColourOfColumn(col: int): (r: Option<int>)
    ensures r.Some? <==> 15 <= col <= 35
    ensures r.Some? ==> 0 <= r.value < 7
  {
    if 15 <= col <= 35 then Some((col - 15) / 3) else None
  }

  /** Both columns of the block of colour `k` select colour `k`. */
  lemma BlockColumnsSelectTheirColour(k: int)
    requires 0 <= k < 7
    ensures ColourOfColumn(15 + 3 * k) == Some(k) && ColourOfColumn(16 + 3 * k) == Some(k)
  {
    UnitGrid.DivModUnique(3 * k, 3, k, 0);
    UnitGrid.DivModUnique(3 * k + 1, 3, k, 1);
  }

  /** The assignments of `mousePressEvent` that turn a click in the colour row into a colour. */
  method ClickedColour(oldColor: int, col: int) returns (color: int)
    ensures ColourOfColumn(col).Some? ==> color == ColourOfColumn(col).value
    ensures ColourOfColumn(col).None? ==> color == oldColor
  {
    color := oldColor;
    if col == 15 || col == 16 || col == 17 {
      color := 0;
    }
    if col == 18 || col == 19 || col == 20 {
      color := 1;
    }
    if col == 21 || col == 22 || col == 23 {
      color := 2;
    }
    if col == 24 || col == 25 || col == 26 {
      color := 3;
    }
    if col == 27 || col == 28 || col == 29 {
      color := 4;
    }
    if col == 30 || col == 31 || col == 32 {
      color := 5;
    }
    if col == 33 || col == 34 || col == 35 {
      color := 6;
    }
  }

  datatype Key = KeyDown | KeyUp | KeyEnter | KeyReturn | KeyPageDown | KeyLeft | KeyRight
               | KeyDelete | KeyBackspace | OtherKey(code: int)

  /**
   * The keys the widget swallows, written as a rule rather than as the
   * sequence of assignments that computes it.  `rowLen` is the length of
   * the cursor's block including its separator; when `rowLen > 37` only
   * Left, Delete, Backspace, Down from row 0 and Up from row 1 pass; otherwise PageDown, Enter, Return, Left in the label, Down
   * from row 1 and Right at the end of the row are swallowed.
   */
  predicate Forbidden(key: Key, row: int, col: int, rowLen: int)
  {
    if rowLen > 37 then
      !(key == KeyLeft || key == KeyDelete || key == KeyBackspace || (row == 0 && key == KeyDown) || (row == 1 && key == KeyUp))
    else
      key == KeyPageDown || key == KeyEnter || key == KeyReturn || (col < 15 && key == KeyLeft)
      || (row == 1 && key == KeyDown) || (col + 1 == rowLen && key == KeyRight)
  }

  /** Enter, Return and PageDown never reach the text view, in any row. */
  lemma LineBreaksAndPagingNeverPass(row: int, col: int, rowLen: int)
    ensures Forbidden(KeyEnter, row, col, rowLen) && Forbidden(KeyReturn, row, col, rowLen)
    ensures Forbidden(KeyPageDown, row, col, rowLen)
  {
  }

  /** When `rowLen > 37` Left passes even inside the label, where a shorter row swallows it. */
  lemma LongRowLetsLeftThrough(row: int, col: int, rowLen: int)
    requires col < 15
    ensures rowLen > 37 ==> !Forbidden(KeyLeft, row, col, rowLen)
    ensures rowLen <= 37 ==> Forbidden(KeyLeft, row, col, rowLen)
  {
  }

  /** The assignments of `keyPressEvent` that decide whether a key is swallowed. */
  method ForbiddenCombination(key: Key, row: int, col: int, rowLen: int) returns (forbiddenCombination: bool)
    ensures forbiddenCombination <==> Forbidden(key, row, col, rowLen)
  {
    forbiddenCombination := false;
    if key == KeyPageDown {
      forbiddenCombination := true;
    }
    if key == KeyEnter {
      forbiddenCombination := true;
    }
    if key == KeyReturn {
      forbiddenCombination := true;
    }
    if col < 15 {
      if key == KeyLeft {
        forbiddenCombination := true;
      }
    }
    if row == 1 {
      if key == KeyDown {
        forbiddenCombination := true;
      }
    }
    if col + 1 == rowLen && key == KeyRight {
      forbiddenCombination := true;
    }
    if rowLen > 37 {
      forbiddenCombination := true;
      if key == KeyLeft {
        forbiddenCombination := false;
      }
      if key == KeyDelete {
        forbiddenCombination := false;
      }
      if key == KeyBackspace {
        forbiddenCombination := false;
      }
      if row == 0 && key == KeyDown {
        forbiddenCombination := false;
      }
      if row == 1 && key == KeyUp {
        forbiddenCombination := false;
      }
    }
  }

  /**
   * The editor: whether a cluster and a cell are being edited, the cell's
   * metadata, and how many times the other editors have been notified.
   */
  class MetadataEditor {
    var clusterPresent: bool
    var cell: Option<CellMetadata>
    var notifications: nat

    constructor (clusterPresent: bool, cell: Option<CellMetadata>)
      ensures this.clusterPresent == clusterPresent && this.cell == cell && notifications == 0
    {
      this.clusterPresent := clusterPresent;
      this.cell := cell;
      notifications := 0;
    }

    predicate Editing()
      reads this
    {
      clusterPresent && cell.Some?
    }

    /**
     * `updateModel`, with the cursor in row `row` of a block reading
     * `blockText`: the text after the label becomes the name when the
     * cursor is in the name row.
     */
    method UpdateModel(row: int, blockText: string)
      modifies this
      ensures clusterPresent == old(clusterPresent)
      ensures !old(Editing()) ==> cell == old(cell) && notifications == old(notifications)
      ensures old(Editing()) ==>
                cell == Some(if row == 1 then old(cell).value.(name := RemoveLeading(blockText, LabelWidth)) else old(cell).value)
                && notifications == old(notifications) + 1
    {
      if !clusterPresent || cell.None? {
        return;
      }
      var currentText := RemoveLeading(blockText, LabelWidth);
      if row == 1 {
        cell := Some(cell.value.(name := currentText));
      }
      notifications := notifications + 1;
    }

    /**
     * `mousePressEvent`: the model is updated from where the cursor was,
     * then a click at `(row, col)` in the colour row selects a colour.
     */
    method MousePress(cursorRow: int, cursorText: string, row: int, col: int)
      modifies this
      ensures clusterPresent == old(clusterPresent)
      ensures !old(Editing()) ==> cell == old(cell) && notifications == old(notifications)
      ensures old(Editing()) ==>
                var edited := old(cell).value;
                var name := if cursorRow == 1 then RemoveLeading(cursorText, LabelWidth) else edited.name;
                var colour := if row == 2 && ColourOfColumn(col).Some? then ColourOfColumn(col).value else edited.color;
                cell == Some(CellMetadata(colour, name))
                && notifications == old(notifications) + (if row == 2 then 2 else 1)
    {
      UpdateModel(cursorRow, cursorText);
      if row == 2 {
        if !clusterPresent || cell.None? {
          return;
        }
        var metadata := cell.value;
        var colour := ClickedColour(metadata.color, col);
        metadata := metadata.(color := colour);
        cell := Some(metadata);
        notifications := notifications + 1;
      }
    }

    /**
     * `keyPressEvent`: the vertical and line-break keys first update the
     * model; the key is then forwarded to the text view unless forbidden.
     */
    method KeyPress(key: Key, row: int, col: int, rowLen: int, blockText: string) returns (forwarded: bool)
      modifies this
      ensures forwarded <==> !Forbidden(key, row, col, rowLen)
      ensures clusterPresent == old(clusterPresent)
      ensures key !in {KeyDown, KeyUp, KeyEnter, KeyReturn} || !old(Editing()) ==>
                cell == old(cell) && notifications == old(notifications)
      ensures key in {KeyDown, KeyUp, KeyEnter, KeyReturn} && old(Editing()) ==>
                cell == Some(if row == 1 then old(cell).value.(name := RemoveLeading(blockText, LabelWidth)) else old(cell).value)
                && notifications == old(notifications) + 1
    {
      if key == KeyDown || key == KeyUp || key == KeyEnter || key == KeyReturn {
        UpdateModel(row, blockText);
      }
      var forbiddenCombination := ForbiddenCombination(key, row, col, rowLen);
      forwarded := !forbiddenCombination;
    }
  }
}
