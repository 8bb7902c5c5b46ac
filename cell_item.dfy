/**
 * The editor's view of one cell: the values it reads off the cell
 * description (colour code, connectability, token count, branch number,
 * connected ids), the palette colour it paints the cell in, and how that
 * colour's lightness is adapted to the focus state.
 */
module CellItemView {

  import UnitGrid

  import opened Wrappers

  /** A connection as far as the view needs it: the id of the cell at the other end. */
  datatype ConnectionDescription = ConnectionDescription(cellId: nat)

  /** A token's memory bytes. */
  datatype TokenDescription = TokenDescription(data: seq<int>)

  datatype CellMetadata = CellMetadata(color: int, name: string)

  /** The optional fields of a cell description the view reads. */
  datatype CellDescription = CellDescription(
    id: nat,
    connections: Option<seq<ConnectionDescription>>,
    maxConnections: Option<int>,
    tokens: Option<seq<TokenDescription>>,
    tokenBranchNumber: Option<int>,
    metadata: Option<CellMetadata>)

  /** The cell's connections, none when the field is absent. */
  function ConnectionsOf(desc: CellDescription): (r: seq<ConnectionDescription>)
    ensures desc.connections.None? ==> r == []
    ensures desc.connections.Some? ==> r == desc.connections.value
  {
    if desc.connections.Some? then desc.connections.value else []
  }

  /**
   * `getColorCode`: the metadata colour as the `uint8_t` the getter returns,
   * 0 without metadata (a default `CellMetadata` has colour 0).
   */
  function GetColorCode(desc: CellDescription): (r: int)
    ensures 0 <= r < 256
    ensures desc.metadata.None? ==> r == 0
    ensures desc.metadata.Some? && 0 <= desc.metadata.value.color < 256 ==> r == desc.metadata.value.color
  {
    var color := if desc.metadata.Some? then desc.metadata.value.color else 0;
    color % 256
  }

  /** Colour codes that differ by a multiple of 256 are the same code. */
  lemma ColorCodeWraps(desc: CellDescription, k: int)
    requires desc.metadata.Some?
    ensures var m := desc.metadata.value;
            GetColorCode(desc.(metadata := Some(m.(color := m.color + 256 * k)))) == GetColorCode(desc)
  {
    var c := desc.metadata.value.color;
    assert c == (c / 256) * 256 + c % 256;
    assert c + 256 * k == (c / 256 + k) * 256 + c % 256;
    UnitGrid.DivModUnique(c + 256 * k, 256, c / 256 + k, c % 256);
  }

  /**
   * The paint colour: the seven `if`s of `paint` pick the palette entry
   * whose index is the colour code modulo 7.
   */
  method SelectPaletteColor<C>(palette: seq<C>, desc: CellDescription) returns (color: C)
    requires |palette| == 7
    ensures color == palette[GetColorCode(desc) % 7]
    ensures exists i | 0 <= i < 7 :: color == palette[i]
  {
    var colorCode := GetColorCode(desc) % 7;
    color := palette[0];
    if colorCode == 1 {
      color := palette[1];
    }
    if colorCode == 2 {
      color := palette[2];
    }
    if colorCode == 3 {
      color := palette[3];
    }
    if colorCode == 4 {
      color := palette[4];
    }
    if colorCode == 5 {
      color := palette[5];
    }
    if colorCode == 6 {
      color := palette[6];
    }
  }

  /** `getBranchNumber`: the token branch number, 0 when absent. */
  function GetBranchNumber(desc: CellDescription): (r: int)
    ensures desc.tokenBranchNumber.None? ==> r == 0
    ensures desc.tokenBranchNumber.Some? ==> r == desc.tokenBranchNumber.value
  {
    if desc.tokenBranchNumber.Some? then desc.tokenBranchNumber.value else 0
  }

  /** `getNumToken`: the number of tokens on the cell, 0 when the field is absent. */
  function GetNumToken(desc: CellDescription): (r: nat)
    ensures desc.tokens.None? ==> r == 0
    ensures desc.tokens.Some? ==> r == |desc.tokens.value|
  {
    if desc.tokens.Some? then |desc.tokens.value| else 0
  }

  /** The `int` to `size_t` conversion of the comparison in `isConnectable`: modulo 2^64. */
  function ToSizeT(m: int): (r: int)
    ensures 0 <= r < 0x1_0000_0000_0000_0000
    ensures 0 <= m < 0x1_0000_0000_0000_0000 ==> r == m
  {
    m % 0x1_0000_0000_0000_0000
  }

  /**
   * `isConnectable`: the number of connections (a `size_t`) is below the
   * maximum (an `int`, converted to `size_t` for the comparison), both
   * defaulting to 0.
   */
  function IsConnectable(desc: CellDescription): (r: bool)
  {
    var numConnections := |ConnectionsOf(desc)|;
    var maxConnections := if desc.maxConnections.Some? then desc.maxConnections.value else 0;
    numConnections < ToSizeT(maxConnections)
  }

  /** A cell with no maximum is never connectable, whatever its connections. */
  lemma WithoutMaximumNeverConnectable(desc: CellDescription)
    requires desc.maxConnections.None?
    ensures !IsConnectable(desc)
  {
    assert ToSizeT(0) == 0;
  }

  /** For a non-negative maximum, connectable means: fewer connections than the maximum. */
  lemma ConnectableBelowMaximum(desc: CellDescription)
    requires desc.maxConnections.Some? && 0 <= desc.maxConnections.value < 0x8000_0000
    ensures IsConnectable(desc) <==> |ConnectionsOf(desc)| < desc.maxConnections.value
  {
    assert ToSizeT(desc.maxConnections.value) == desc.maxConnections.value;
  }

  /**
   * A negative maximum wraps to a huge unsigned value, so any cell with
   * fewer than 2^63 connections counts as connectable.
   */
  lemma NegativeMaximumWrapsAround(desc: CellDescription)
    requires desc.maxConnections.Some? && -0x8000_0000 <= desc.maxConnections.value < 0
    requires |ConnectionsOf(desc)| < 0x8000_0000_0000_0000
    ensures IsConnectable(desc)
  {
    var m := desc.maxConnections.value;
    UnitGrid.DivModUnique(m, 0x1_0000_0000_0000_0000, -1, m + 0x1_0000_0000_0000_0000);
  }

  /** `getConnectedIds`: the ids at the other end of the connections, in order. */
  method GetConnectedIds(desc: CellDescription) returns (result: seq<nat>)
    ensures desc.connections.None? ==> result == []
    ensures |result| == |ConnectionsOf(desc)|
    ensures forall i | 0 <= i < |result| :: result[i] == ConnectionsOf(desc)[i].cellId
  {
    result := [];
    if desc.connections.None? {
      return;
    }
    var connections := desc.connections.value;
    for i := 0 to |connections|
      invariant |result| == i
      invariant forall j | 0 <= j < i :: result[j] == connections[j].cellId
    {
      result := result + [connections[i].cellId];
    }
  }

  /*
   * Lightness adaptation.
   */

  datatype FocusState = NoFocus | FocusCell | FocusCluster

  /** A lightness as `QColor::getHsl` reports it. */
  type Lightness = l: int | 0 <= l <= 255

  /** A colour in hue, saturation, lightness. */
  datatype Hsl = Hsl(h: int, s: int, l: Lightness)

  function Max(a: int, b: int): int { if a >= b then a else b }
  function Min(a: int, b: int): int { if a <= b then a else b }

  /**
   * The fill lightness for a focus state: a cell that cannot take more
   * connections is dimmed by 30, a focused cell is drawn at 190, a cell of
   * the focused cluster is brightened by 20 over its dimmed lightness.
   */
  function FocusLightness(l: Lightness, connectable: bool, focus: FocusState): Lightness
  {
    var dimmed := if connectable then l else Max(0, l - 30);
    match focus
    case NoFocus => dimmed
    case FocusCell => 190
    case FocusCluster => Min(255, dimmed + 20)
  }

  /** The boundary lightness for a focus state: darker without focus, lighter with it. */
  function BoundaryLightness(l: Lightness, focus: FocusState): Lightness
  {
    match focus
    case NoFocus => Max(0, l - 60)
    case FocusCluster => Min(255, l + 15)
    case FocusCell => 255
  }

  /** Both adaptations keep the order of lightnesses: a lighter colour never comes out darker. */
  lemma AdaptationsAreMonotone(l1: Lightness, l2: Lightness, connectable: bool, focus: FocusState)
    requires l1 <= l2
    ensures FocusLightness(l1, connectable, focus) <= FocusLightness(l2, connectable, focus)
    ensures BoundaryLightness(l1, focus) <= BoundaryLightness(l2, focus)
  {
  }

  /** A connectable cell is never filled darker than a non-connectable one of the same colour. */
  lemma ConnectableNeverDarker(l: Lightness, focus: FocusState)
    ensures FocusLightness(l, false, focus) <= FocusLightness(l, true, focus)
  {
  }

  /** The boundary gets lighter with more focus: no focus, then the cluster, then the cell. */
  lemma BoundaryFollowsFocus(l: Lightness)
    ensures BoundaryLightness(l, NoFocus) <= l <= BoundaryLightness(l, FocusCluster) <= BoundaryLightness(l, FocusCell)
  {
  }

  /**
   * A cell item: the description it shows and its focus state.
   */
  class CellItem {
    var desc: CellDescription
    var focusState: FocusState

    /**
     * The constructor stores the description, as `update` does.  The focus
     * state a new item starts with is declared with the class's fields,
     * outside this model, so it is a parameter here.
     */
    constructor (desc: CellDescription, focusState: FocusState)
      ensures this.desc == desc && this.focusState == focusState
    {
      this.desc := desc;
      this.focusState := focusState;
    }

    /** `setFocusState`: the focus state changes and the description stays. */
    method SetFocusState(focusState: FocusState)
      modifies this
      ensures this.focusState == focusState && desc == old(desc)
    {
      this.focusState := focusState;
    }

    /** `adaptColorForFocus`: only the lightness changes. */
    method AdaptColorForFocus(color: Hsl) returns (r: Hsl)
      ensures r.h == color.h && r.s == color.s
      ensures r.l == FocusLightness(color.l, IsConnectable(desc), focusState)
    {
      var h, s, l := color.h, color.s, color.l;
      if !IsConnectable(desc) {
        l := Max(0, l - 30);
      }
      if focusState == FocusCell {
        l := 190;
      }
      if focusState == FocusCluster {
        l := Min(255, l + 20);
      }
      r := Hsl(h, s, l);
    }

    /** `adaptColorForBoundary`: only the lightness changes. */
    method AdaptColorForBoundary(color: Hsl) returns (r: Hsl)
      ensures r.h == color.h && r.s == color.s
      ensures r.l == BoundaryLightness(color.l, focusState)
    {
      r := color;
      var h, s, l := color.h, color.s, color.l;
      if focusState == NoFocus {
        l := Max(0, l - 60);
        r := Hsl(h, s, l);
      }
      if focusState == FocusCluster {
        l := Min(255, l + 15);
        r := Hsl(h, s, l);
      }
      if focusState == FocusCell {
        r := Hsl(h, s, 255);
      }
    }
  }
}
