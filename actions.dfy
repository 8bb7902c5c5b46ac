/**
 * The action controller of the editor: the token-memory clipboard (hex
 * text with a space after every byte) and the bookkeeping that decides,
 * after every change to the selection, which editor actions are enabled.
 */
module Actions {

  import opened Wrappers
  import opened CellItemView

  type Byte = b: int | 0 <= b < 256

  type Nibble = n: int | 0 <= n < 16

  /*
   * Hex text, as `QByteArray::toHex` writes it and `QByteArray::fromHex`
   * reads it (section 8 of RFC 4648, lower-case digits on output, either
   * case on input).
   */

  const HexDigits: string := "0123456789abcdef"

  function HexDigit(n: int): (c: char)
    requires 0 <= n < 16
  {
    HexDigits[n]
  }

  /** The value of a hex digit of either case; `None` for any other character, which `fromHex` skips. */
  function HexValue(c: char): Option<Nibble>
  {
    if '0' <= c <= '9' then Some(c as int - '0' as int)
    else if 'a' <= c <= 'f' then Some(c as int - 'a' as int + 10)
    else if 'A' <= c <= 'F' then Some(c as int - 'A' as int + 10)
    else None
  }

  lemma HexDigitValue(n: int)
    requires 0 <= n < 16
    ensures HexValue(HexDigit(n)) == Some(n)
  {
  }

  /** `toHex`: two lower-case digits per byte, high nibble first. */
  function ToHex(bytes: seq<Byte>): (r: string)
    ensures |r| == 2 * |bytes|
  {
    if bytes == [] then []
    else
      var last := bytes[|bytes| - 1];
      ToHex(bytes[..|bytes| - 1]) + [HexDigit(last / 16), HexDigit(last % 16)]
  }

  /** The values of the hex digits of `s`, in order, every other character skipped. */
  function DigitValues(s: string): seq<Nibble>
  {
    if s == [] then []
    else
      var v := HexValue(s[|s| - 1]);
      DigitValues(s[..|s| - 1]) + (if v.Some? then [v.value] else [])
  }

  /**
   * Bytes from digit values paired from the end, as `fromHex` pairs them:
   * with an odd number of digits the first one stands alone.
   */
  function FromDigits(d: seq<Nibble>): (r: seq<Byte>)
    ensures |r| == (|d| + 1) / 2
  {
    if d == [] then []
    else if |d| == 1 then [d[0]]
    else FromDigits(d[..|d| - 2]) + [ByteOf(d[|d| - 2], d[|d| - 1])]
  }

  function ByteOf(high: Nibble, low: Nibble): Byte
  {
    high * 16 + low
  }

  lemma FromDigitsPair(d: seq<Nibble>, high: Nibble, low: Nibble)
    ensures FromDigits(d + [high, low]) == FromDigits(d) + [ByteOf(high, low)]
  {
    var e := d + [high, low];
    assert e[..|e| - 2] == d;
  }

  /** `fromHex`. */
  function FromHex(s: string): seq<Byte>
  {
    FromDigits(DigitValues(s))
  }

  lemma {:induction false} DigitValuesAppend(a: string, b: string)
    ensures DigitValues(a + b) == DigitValues(a) + DigitValues(b)
    decreases |b|
  {
    if b == [] {
      assert a + b == a;
    } else {
      var b' := b[..|b| - 1];
      assert (a + b)[..|a + b| - 1] == a + b';
      DigitValuesAppend(a, b');
    }
  }

  /** The digit values of one byte's two hex digits. */
  lemma DigitValuesOfPair(b: Byte)
    ensures DigitValues([HexDigit(b / 16), HexDigit(b % 16)]) == [b / 16, b % 16]
  {
    var pair := [HexDigit(b / 16), HexDigit(b % 16)];
    HexDigitValue(b / 16);
    HexDigitValue(b % 16);
    assert [HexDigit(b / 16)][..0] == [];
    assert DigitValues([HexDigit(b / 16)]) == [b / 16];
    assert pair[..1] == [HexDigit(b / 16)];
  }

  lemma SplitAt<T>(s: seq<T>, i: nat)
    requires i <= |s|
    ensures s[..i] + s[i..] == s
  {
  }

  lemma InitAndLast<T>(s: seq<T>)
    requires s != []
    ensures s[..|s| - 1] + [s[|s| - 1]] == s
  {
  }

  /** Decoding what `toHex` wrote gives the bytes back. */
  lemma {:induction false} HexRoundTrip(bytes: seq<Byte>)
    ensures FromHex(ToHex(bytes)) == bytes
    decreases |bytes|
  {
    if bytes != [] {
      var init, last := bytes[..|bytes| - 1], bytes[|bytes| - 1];
      var hex, pair := ToHex(init), [HexDigit(last / 16), HexDigit(last % 16)];
      assert ToHex(bytes) == hex + pair;
      HexRoundTrip(init);
      DigitValuesAppend(hex, pair);
      DigitValuesOfPair(last);
      var d := DigitValues(hex);
      assert DigitValues(hex + pair) == d + [last / 16, last % 16];
      FromDigitsPair(d, last / 16, last % 16);
      assert ByteOf(last / 16, last % 16) == last;
      assert FromDigits(d) == init;
      InitAndLast(bytes);
    }
  }

  /*
   * Spaces in the clipboard text.
   */

  /** `QString::remove(QChar(' '))`. */
  function RemoveSpaces(s: string): string
  {
    if s == [] then []
    else RemoveSpaces(s[..|s| - 1]) + (if s[|s| - 1] == ' ' then [] else [s[|s| - 1]])
  }

  lemma {:induction false} RemoveSpacesAppend(a: string, b: string)
    ensures RemoveSpaces(a + b) == RemoveSpaces(a) + RemoveSpaces(b)
    decreases |b|
  {
    if b == [] {
      assert a + b == a;
    } else {
      var b' := b[..|b| - 1];
      assert (a + b)[..|a + b| - 1] == a + b';
      RemoveSpacesAppend(a, b');
    }
  }

  /** Text without spaces is left as it is. */
  lemma {:induction false} RemoveSpacesOfSpaceless(s: string)
    requires ' ' !in s
    ensures RemoveSpaces(s) == s
  {
    if s != [] {
      RemoveSpacesOfSpaceless(s[..|s| - 1]);
    }
  }

  /** Spaces are not hex digits: `fromHex` reads the same digits with or without them. */
  lemma {:induction false} SpacesAreNoDigits(s: string)
    ensures DigitValues(RemoveSpaces(s)) == DigitValues(s)
  {
    if s != [] {
      var init := s[..|s| - 1];
      SpacesAreNoDigits(init);
      var tail := if s[|s| - 1] == ' ' then [] else [s[|s| - 1]];
      DigitValuesAppend(RemoveSpaces(init), tail);
    }
  }

  /** `toHex` writes no spaces. */
  lemma {:induction false} HexHasNoSpaces(bytes: seq<Byte>)
    ensures ' ' !in ToHex(bytes)
  {
    if bytes != [] {
      HexHasNoSpaces(bytes[..|bytes| - 1]);
    }
  }

  function Spaces(n: nat): (r: string)
    ensures |r| == n && forall i | 0 <= i < n :: r[i] == ' '
  {
    if n == 0 then [] else Spaces(n - 1) + [' ']
  }

  lemma {:induction false} RemoveSpacesOfSpaces(n: nat)
    ensures RemoveSpaces(Spaces(n)) == []
  {
    if n > 0 {
      RemoveSpacesOfSpaces(n - 1);
      assert Spaces(n)[..n - 1] == Spaces(n - 1);
    }
  }

  /**
   * `QByteArray::insert(i, ch)`: inserts at `i`, first padding with spaces
   * up to `i` when the array is shorter.
   */
  function Insert(s: string, i: nat, c: char): (r: string)
    ensures |r| == (if i <= |s| then |s| else i) + 1
    ensures r[i] == c
    ensures i <= |s| ==> r[..i] == s[..i] && r[i + 1..] == s[i..]
  {
    if i <= |s| then s[..i] + [c] + s[i..] else s + Spaces(i - |s|) + [c]
  }

  lemma RemoveSpacesAroundSpace(a: string, b: string)
    ensures RemoveSpaces(a + [' '] + b) == RemoveSpaces(a + b)
  {
    RemoveSpacesAppend(a + [' '], b);
    RemoveSpacesAppend(a, b);
    assert (a + [' '])[..|a|] == a;
  }

  /** Inserting a space, padding or not, leaves the text without spaces as it was. */
  lemma InsertedSpaceIsRemoved(s: string, i: nat)
    ensures RemoveSpaces(Insert(s, i, ' ')) == RemoveSpaces(s)
  {
    if i <= |s| {
      SpaceInsertedWithin(s, i);
    } else {
      SpaceInsertedBeyond(s, i);
    }
  }

  lemma SpaceInsertedWithin(s: string, i: nat)
    requires i <= |s|
    ensures RemoveSpaces(s[..i] + [' '] + s[i..]) == RemoveSpaces(s)
  {
    var a, b := s[..i], s[i..];
    SplitAt(s, i);
    RemoveSpacesAroundSpace(a, b);
  }

  lemma SpaceInsertedBeyond(s: string, i: nat)
    requires |s| < i
    ensures RemoveSpaces(s + Spaces(i - |s|) + [' ']) == RemoveSpaces(s)
  {
    var k := i - |s|;
    assert Spaces(k) + [' '] == Spaces(k + 1);
    assert s + Spaces(k) + [' '] == s + Spaces(k + 1);
    RemoveSpacesAppend(s, Spaces(k + 1));
    RemoveSpacesOfSpaces(k + 1);
    assert RemoveSpaces(s) + [] == RemoveSpaces(s);
  }

  /** Two-character groups separated by single spaces. */
  function SpacedPairs(s: string): string
    decreases |s|
  {
    if |s| <= 2 then s else s[..2] + " " + SpacedPairs(s[2..])
  }

  /** Every group of an even-length text appears three characters apart, a space after all but the last. */
  lemma {:induction false} SpacedPairsLayout(s: string)
    requires |s| >= 2 && |s| % 2 == 0
    ensures |SpacedPairs(s)| == 3 * (|s| / 2) - 1
    ensures forall k | 0 <= k < |s| / 2 ::
              SpacedPairs(s)[3 * k] == s[2 * k] && SpacedPairs(s)[3 * k + 1] == s[2 * k + 1]
    ensures forall k | 0 <= k < |s| / 2 - 1 :: SpacedPairs(s)[3 * k + 2] == ' '
    decreases |s|
  {
    if |s| > 2 {
      var rest := s[2..];
      SpacedPairsLayout(rest);
      var r := SpacedPairs(s);
      assert r == s[..2] + " " + SpacedPairs(rest);
      forall k | 1 <= k < |s| / 2
        ensures r[3 * k] == s[2 * k] && r[3 * k + 1] == s[2 * k + 1]
      {
        assert r[3 * k] == SpacedPairs(rest)[3 * (k - 1)];
        assert r[3 * k + 1] == SpacedPairs(rest)[3 * (k - 1) + 1];
      }
      forall k | 1 <= k < |s| / 2 - 1
        ensures r[3 * k + 2] == ' '
      {
        assert r[3 * k + 2] == SpacedPairs(rest)[3 * (k - 1) + 2];
      }
    }
  }

  /** The number of hex characters the copy loop spaces out: 255 bytes' worth before the last one. */
  const SpacedLength: nat := 512

  /** One step of the copy loop: inserting before a pair extends the spaced suffix by that pair. */
  lemma SpaceStep(hex: string, index: nat)
    requires 2 <= index <= 510 && index % 2 == 0 && |hex| >= SpacedLength
    ensures hex[..index] + " " + SpacedPairs(hex[index..SpacedLength]) ==
            hex[..index - 2] + SpacedPairs(hex[index - 2..SpacedLength])
  {
    var s := hex[index - 2..SpacedLength];
    assert s[..2] == hex[index - 2..index] && s[2..] == hex[index..SpacedLength];
    assert hex[..index] == hex[..index - 2] + hex[index - 2..index];
  }

  /** The copy loop's invariant, kept by one insertion. */
  predicate SpacedFrom(hex: string, text: string, index: nat)
    requires index <= SpacedLength
  {
    |hex| >= SpacedLength ==> text == hex[..index] + SpacedPairs(hex[index..SpacedLength]) + hex[SpacedLength..]
  }

  lemma SpaceOutStep(hex: string, text: string, index: nat)
    requires 2 <= index <= 510 && index % 2 == 0
    requires SpacedFrom(hex, text, index)
    ensures SpacedFrom(hex, Insert(text, index, ' '), index - 2)
  {
    if |hex| >= SpacedLength {
      var tail := SpacedPairs(hex[index..SpacedLength]) + hex[SpacedLength..];
      assert text == hex[..index] + tail;
      assert Insert(text, index, ' ') == hex[..index] + " " + tail;
      SpaceStep(hex, index);
    }
  }

  /**
   * The copy loop of `onCopyToClipboard`: a space is inserted at 510, 508,
   * ..., 2, from the back so that the indices still ahead stay valid.
   */
  method SpaceOutHex(hex: string) returns (text: string)
    ensures RemoveSpaces(text) == RemoveSpaces(hex)
    ensures |hex| >= SpacedLength ==> text == SpacedPairs(hex[..SpacedLength]) + hex[SpacedLength..]
  {
    text := hex;
    var index := 255 * 2;
    SpacedAtStart(hex);
    while index > 0
      invariant 0 <= index <= 510 && index % 2 == 0
      invariant CopyLoopInvariant(hex, text, index)
      decreases index
    {
      CopyLoopStep(hex, text, index);
      text := Insert(text, index, ' ');
      index := index - 2;
    }
    SpacedAtEnd(hex, text);
  }

  /** What the copy loop keeps: the same text without spaces, and the pairs from `index` on spaced out. */
  predicate CopyLoopInvariant(hex: string, text: string, index: nat)
    requires index <= SpacedLength
  {
    RemoveSpaces(text) == RemoveSpaces(hex) && SpacedFrom(hex, text, index)
  }

  lemma CopyLoopStep(hex: string, text: string, index: nat)
    requires 2 <= index <= 510 && index % 2 == 0
    requires CopyLoopInvariant(hex, text, index)
    ensures CopyLoopInvariant(hex, Insert(text, index, ' '), index - 2)
  {
    InsertedSpaceIsRemoved(text, index);
    SpaceOutStep(hex, text, index);
  }

  /** Before the first insertion only the last pair counts as spaced out. */
  lemma SpacedAtStart(hex: string)
    ensures CopyLoopInvariant(hex, hex, 510)
  {
    if |hex| >= SpacedLength {
      assert SpacedPairs(hex[510..SpacedLength]) == hex[510..SpacedLength];
      assert hex == hex[..510] + hex[510..SpacedLength] + hex[SpacedLength..];
    }
  }

  /** After the last insertion every pair is spaced out. */
  lemma SpacedAtEnd(hex: string, text: string)
    requires CopyLoopInvariant(hex, text, 0)
    ensures RemoveSpaces(text) == RemoveSpaces(hex)
    ensures |hex| >= SpacedLength ==> text == SpacedPairs(hex[..SpacedLength]) + hex[SpacedLength..]
  {
    if |hex| >= SpacedLength {
      assert hex[..0] == [];
      assert hex[0..SpacedLength] == hex[..SpacedLength];
    }
  }

  /** `onCopyToClipboard`: the token memory as hex text with the bytes spaced out. */
  method CopyToClipboard(tokenMemory: seq<Byte>) returns (text: string)
    ensures FromHex(RemoveSpaces(text)) == tokenMemory
    ensures FromHex(text) == tokenMemory
    ensures |tokenMemory| >= 256 ==> text == SpacedPairs(ToHex(tokenMemory)[..SpacedLength]) + ToHex(tokenMemory)[SpacedLength..]
  {
    var tokenMemoryInHex := ToHex(tokenMemory);
    text := SpaceOutHex(tokenMemoryInHex);
    HexHasNoSpaces(tokenMemory);
    RemoveSpacesOfSpaceless(tokenMemoryInHex);
    HexRoundTrip(tokenMemory);
    SpacesAreNoDigits(text);
  }

  /** A token's memory, overwritten in place by a paste. */
  class TokenMemory {
    var data: seq<Byte>

    constructor (data: seq<Byte>)
      ensures this.data == data
    {
      this.data := data;
    }
  }

  /**
   * `onPasteFromClipboard`: the memory is overwritten with the decoded
   * clipboard text before its size is checked, so a paste of the wrong
   * size still changes the memory; only the notification is skipped.
   */
  method PasteFromClipboard(token: TokenMemory, clipboardText: string, tokenMemorySize: int) returns (notified: bool)
    modifies token
    ensures token.data == FromHex(RemoveSpaces(clipboardText))
    ensures notified <==> |token.data| == tokenMemorySize
  {
    var newTokenMemoryInHex := RemoveSpaces(clipboardText);
    token.data := FromHex(newTokenMemoryInHex);
    if tokenMemorySize != |token.data| {
      return false;
    }
    notified := true;
  }

  /*
   * Selection flags and the enabled state of the actions.
   */

  datatype Receiver = DataEditor | Simulation | VisualEditor | ActionControllerReceiver

  datatype ActionFlags = ActionFlags(
    editMode: bool,
    entitySelected: bool,
    entityCopied: bool,
    cellWithTokenSelected: bool,
    cellWithFreeTokenSelected: bool,
    tokenCopied: bool,
    collectionSelected: bool,
    collectionCopied: bool,
    cellsSelected: bool)

  /** The enabled state of each of the editor's actions. */
  datatype EnabledActions = EnabledActions(
    itemView: bool,
    glowEffect: bool,
    showCellInfo: bool,
    centerSelection: bool,
    newCell: bool,
    newParticle: bool,
    copyEntity: bool,
    pasteEntity: bool,
    deleteEntity: bool,
    newToken: bool,
    copyToken: bool,
    pasteToken: bool,
    deleteToken: bool,
    copyToClipboard: bool,
    pasteFromClipboard: bool,
    newRectangle: bool,
    newHexagon: bool,
    newParticles: bool,
    loadCol: bool,
    saveCol: bool,
    copyCol: bool,
    pasteCol: bool,
    deleteSel: bool,
    deleteCol: bool,
    colorizeSel: bool,
    generateBranchNumbers: bool,
    randomizeCellFunctions: bool,
    removeFreeCellConnections: bool,
    randomMultiplier: bool,
    gridMultiplier: bool)

  /**
   * The table of `updateActionsEnableState`: which actions the selection
   * flags enable; `zoomAllowsItemView` is the zoom comparison for the item view.
   */
  function EnableTable(f: ActionFlags, zoomAllowsItemView: bool): EnabledActions
  {
    EnabledActions(
      itemView := zoomAllowsItemView,
      glowEffect := !f.editMode,
      showCellInfo := f.editMode,
      centerSelection := f.editMode,
      newCell := true,
      newParticle := true,
      copyEntity := f.editMode && f.entitySelected,
      pasteEntity := f.editMode && f.entityCopied,
      deleteEntity := f.editMode && f.entitySelected,
      newToken := f.editMode && f.cellWithFreeTokenSelected,
      copyToken := f.editMode && f.cellWithTokenSelected,
      pasteToken := f.editMode && f.entitySelected && f.tokenCopied,
      deleteToken := f.editMode && f.cellWithTokenSelected,
      copyToClipboard := f.editMode && f.cellWithTokenSelected,
      pasteFromClipboard := f.editMode && f.cellWithTokenSelected,
      newRectangle := true,
      newHexagon := true,
      newParticles := true,
      loadCol := true,
      saveCol := f.editMode && f.collectionSelected,
      copyCol := f.editMode && f.collectionSelected,
      pasteCol := f.collectionCopied,
      deleteSel := f.editMode && f.collectionSelected,
      deleteCol := f.editMode && f.collectionSelected,
      colorizeSel := f.collectionSelected,
      generateBranchNumbers := f.cellsSelected,
      randomizeCellFunctions := f.cellsSelected,
      removeFreeCellConnections := f.cellsSelected,
      randomMultiplier := f.collectionSelected,
      gridMultiplier := f.collectionSelected)
  }

  /** Outside edit mode no entity, token or collection-editing action is enabled. */
  lemma EditingActionsNeedEditMode(f: ActionFlags, zoomAllowsItemView: bool)
    requires !f.editMode
    ensures var t := EnableTable(f, zoomAllowsItemView);
            !t.copyEntity && !t.pasteEntity && !t.deleteEntity
            && !t.newToken && !t.copyToken && !t.pasteToken && !t.deleteToken
            && !t.copyToClipboard && !t.pasteFromClipboard
            && !t.saveCol && !t.copyCol && !t.deleteSel && !t.deleteCol
  {
  }

  /** The creation actions and loading a collection are enabled whatever the flags. */
  lemma CreationActionsAlwaysEnabled(f: ActionFlags, zoomAllowsItemView: bool)
    ensures var t := EnableTable(f, zoomAllowsItemView);
            t.newCell && t.newParticle && t.newRectangle && t.newHexagon && t.newParticles && t.loadCol
  {
  }

  /** Exactly one of the glow effect and the cell info is available: the first in run mode, the second in edit mode. */
  lemma GlowEffectOrCellInfo(f: ActionFlags, zoomAllowsItemView: bool)
    ensures var t := EnableTable(f, zoomAllowsItemView);
            t.glowEffect != t.showCellInfo && (t.showCellInfo <==> f.editMode)
  {
  }

  /** The clipboard actions are available exactly when a token can be copied or deleted. */
  lemma ClipboardFollowsTokenSelection(f: ActionFlags, zoomAllowsItemView: bool)
    ensures var t := EnableTable(f, zoomAllowsItemView);
            t.copyToClipboard == t.pasteFromClipboard == t.copyToken == t.deleteToken
            && (t.copyToken <==> f.editMode && f.cellWithTokenSelected)
  {
  }

  /** Pasting a collection depends on nothing but whether one was copied. */
  lemma PasteCollectionDependsOnlyOnCopy(f: ActionFlags, g: ActionFlags, zoom1: bool, zoom2: bool)
    requires f.collectionCopied == g.collectionCopied
    ensures EnableTable(f, zoom1).pasteCol == EnableTable(g, zoom2).pasteCol
  {
  }

  /** A set holding one element holds no other. */
  lemma SingletonHoldsOne(s: set<nat>, x: nat, y: nat)
    requires |s| == 1 && x in s && y in s
    ensures x == y
  {
    var rest := s - {x};
    assert s == rest + {x};
    assert |rest| == 0;
    assert y in rest <==> x != y;
  }

  /** The editor's action model: the selection flags and the enabled state of every action. */
  class ActionModel {
    var flags: ActionFlags
    var enabled: EnabledActions

    constructor (flags: ActionFlags, enabled: EnabledActions)
      ensures this.flags == flags && this.enabled == enabled
    {
      this.flags := flags;
      this.enabled := enabled;
    }

    /**
     * `updateActionsEnableState`: the enabled state of every action, one
     * assignment per action as in the source, the table of `EnableTable`.
     */
    method UpdateActionsEnableState(zoomAllowsItemView: bool)
      modifies this
      ensures flags == old(flags)
      ensures enabled == EnableTable(flags, zoomAllowsItemView)
    {
      var editMode := flags.editMode;
      var entitySelected := flags.entitySelected;
      var entityCopied := flags.entityCopied;
      var cellWithTokenSelected := flags.cellWithTokenSelected;
      var cellWithFreeTokenSelected := flags.cellWithFreeTokenSelected;
      var tokenCopied := flags.tokenCopied;
      var collectionSelected := flags.collectionSelected;
      var collectionCopied := flags.collectionCopied;
      var cellsSelected := flags.cellsSelected;

      var actionItemView := zoomAllowsItemView;
      var actionGlowEffect := !editMode;
      var actionShowCellInfo := editMode;
      var actionCenterSelection := editMode;
      var actionNewCell := true;
      var actionNewParticle := true;
      var actionCopyEntity := editMode && entitySelected;
      var actionPasteEntity := editMode && entityCopied;
      var actionDeleteEntity := editMode && entitySelected;
      var actionNewToken := editMode && cellWithFreeTokenSelected;
      var actionCopyToken := editMode && cellWithTokenSelected;
      var actionPasteToken := editMode && entitySelected && tokenCopied;
      var actionDeleteToken := editMode && cellWithTokenSelected;
      var actionCopyToClipboard := editMode && cellWithTokenSelected;
      var actionPasteFromClipboard := editMode && cellWithTokenSelected;
      var actionNewRectangle := true;
      var actionNewHexagon := true;
      var actionNewParticles := true;
      var actionLoadCol := true;
      var actionSaveCol := editMode && collectionSelected;
      var actionCopyCol := editMode && collectionSelected;
      var actionPasteCol := collectionCopied;
      var actionDeleteSel := editMode && collectionSelected;
      var actionDeleteCol := editMode && collectionSelected;
      var actionColorizeSel := collectionSelected;
      var actionGenerateBranchNumbers := cellsSelected;
      var actionRandomizeCellFunctions := cellsSelected;
      var actionRemoveFreeCellConnections := cellsSelected;
      var actionRandomMultiplier := collectionSelected;
      var actionGridMultiplier := collectionSelected;
      enabled := EnabledActions(
        actionItemView,
        actionGlowEffect,
        actionShowCellInfo,
        actionCenterSelection,
        actionNewCell,
        actionNewParticle,
        actionCopyEntity,
        actionPasteEntity,
        actionDeleteEntity,
        actionNewToken,
        actionCopyToken,
        actionPasteToken,
        actionDeleteToken,
        actionCopyToClipboard,
        actionPasteFromClipboard,
        actionNewRectangle,
        actionNewHexagon,
        actionNewParticles,
        actionLoadCol,
        actionSaveCol,
        actionCopyCol,
        actionPasteCol,
        actionDeleteSel,
        actionDeleteCol,
        actionColorizeSel,
        actionGenerateBranchNumbers,
        actionRandomizeCellFunctions,
        actionRemoveFreeCellConnections,
        actionRandomMultiplier,
        actionGridMultiplier);
    }

    /**
     * `receivedNotifications`: when addressed, the selection flags are
     * recomputed from the selected cells and particles, then the enabled
     * state of every action.  `cells` is the repository's cell descriptions.
     */
    method ReceivedNotifications(targets: set<Receiver>, selectedCells: set<nat>, selectedParticles: set<nat>,
                                 cells: map<nat, CellDescription>, cellMaxToken: int, zoomAllowsItemView: bool)
      requires selectedCells <= cells.Keys
      modifies this
      ensures ActionControllerReceiver !in targets ==> flags == old(flags) && enabled == old(enabled)
      ensures ActionControllerReceiver in targets ==>
                var single := |selectedCells| == 1 && |selectedParticles| == 0;
                && flags.editMode == old(flags).editMode
                && flags.entityCopied == old(flags).entityCopied
                && flags.tokenCopied == old(flags).tokenCopied
                && flags.collectionCopied == old(flags).collectionCopied
                && (flags.entitySelected <==> |selectedCells| == 1 || |selectedParticles| == 1)
                && (flags.collectionSelected <==> |selectedCells| > 0 || |selectedParticles| > 0)
                && (flags.cellsSelected <==> |selectedCells| > 0)
                && (flags.cellWithTokenSelected <==>
                      single && exists id | id in selectedCells :: GetNumToken(cells[id]) > 0)
                && (flags.cellWithFreeTokenSelected <==>
                      single && exists id | id in selectedCells ::
                        cells[id].tokens.Some? && cellMaxToken - |cells[id].tokens.value| > 0)
                && enabled == EnableTable(flags, zoomAllowsItemView)
    {
      if ActionControllerReceiver !in targets {
        return;
      }
      var numCells := |selectedCells|;
      var numParticles := |selectedParticles|;
      var tokenOfSelectedCell := 0;
      var freeTokenOfSelectedCell := 0;
      if numCells == 1 && numParticles == 0 {
        var selectedCellId :| selectedCellId in selectedCells;
        var tokens := cells[selectedCellId].tokens;
        if tokens.Some? {
          tokenOfSelectedCell := |tokens.value|;
          freeTokenOfSelectedCell := cellMaxToken - tokenOfSelectedCell;
        }
        forall id | id in selectedCells ensures id == selectedCellId {
          SingletonHoldsOne(selectedCells, id, selectedCellId);
        }
      }
      flags := flags.(
        entitySelected := numCells == 1 || numParticles == 1,
        cellWithTokenSelected := tokenOfSelectedCell > 0,
        cellWithFreeTokenSelected := freeTokenOfSelectedCell > 0,
        collectionSelected := numCells > 0 || numParticles > 0,
        cellsSelected := numCells > 0);
      UpdateActionsEnableState(zoomAllowsItemView);
    }
  }
}
