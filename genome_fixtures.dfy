/**
 * The two genomes the mutation tests start from: a nested chain of fifteen
 * five-cell sub-genomes under a twelve-cell top level, once with a cell of
 * every function type at the top, once with one colour per nesting level.
 *
 * Encoding to bytes is the `encode` parameter (it gives the byte length of
 * the buffer a cell list encodes to), the default-constructed cell
 * description is `base`, the draws of `std::rand()` are `draws`, and the
 * default modes of a constructor and an injector description are
 * `defaultMode` and `injectorMode`.  The chain starts from the empty byte
 * buffer, whose length is 0.
 */
module GenomeFixtures {
  import opened Wrappers
  import opened GenomeModel
  import opened MutationChecks
  import opened MutationProperties

  /** `genomeCellColors`, in order. */
  const CellColors: seq<int> := [1, 4, 5]

  /** The genome buffer a cell list is encoded to. */
  function Encoded(encode: seq<Cell> -> nat, cells: seq<Cell>): (g: Genome)
    ensures g.cells == cells
  {
    Genome(encode(cells), cells)
  }

  /** A default cell description with the given function and colour. */
  function Described(base: Cell, f: Option<CellFunction>, color: int): (c: Cell)
    ensures c.color == color && c.cellFunction == f
    ensures WithoutFunction(c) == WithoutFunction(base.(color := color))
  {
    base.(color := color, cellFunction := f)
  }

  /** One nesting level: a neuron, a transmitter, a plain cell, a self-copying constructor and a constructor of `sub`. */
  function Level(base: Cell, colors: seq<int>, sub: Genome, mode: int, defaultMode: int): (cells: seq<Cell>)
    requires |colors| == 5
    ensures |cells| == 5
    ensures forall k | 0 <= k < 5 :: cells[k].color == colors[k]
    ensures forall k | 0 <= k < 4 :: !HasSubGenome(cells[k])
    ensures HasSubGenome(cells[4]) && SubGenomeOf(cells[4]) == sub
  {
    [ Described(base, Some(Neuron([])), colors[0]),
      Described(base, Some(Transmitter([])), colors[1]),
      Described(base, None, colors[2]),
      Described(base, Some(Constructor(MakeGenomeCopy, defaultMode, [])), colors[3]),
      Described(base, Some(Constructor(Embedded(sub), mode, [])), colors[4]) ]
  }

  /*
   * Nesting depth: the length of the longest chain of embedded genomes,
   * counting every genome level that holds a cell.
   */

  function CellDepth(c: Cell): nat
    decreases c, 0
  {
    if HasSubGenome(c) then 1 + Depth(SubGenomeOf(c)) else 1
  }

  function DepthUpTo(g: Genome, n: nat): nat
    requires n <= |g.cells|
    decreases g, n
  {
    if n == 0 then 0
    else if DepthUpTo(g, n - 1) < CellDepth(g.cells[n - 1]) then CellDepth(g.cells[n - 1])
    else DepthUpTo(g, n - 1)
  }

  function Depth(g: Genome): nat
    decreases g, |g.cells| + 1
  {
    DepthUpTo(g, |g.cells|)
  }

  lemma {:induction false} DepthUpToIsLargestCellDepth(g: Genome, n: nat)
    requires n <= |g.cells|
    ensures forall k | 0 <= k < n :: CellDepth(g.cells[k]) <= DepthUpTo(g, n)
    ensures n == 0 || exists k | 0 <= k < n :: DepthUpTo(g, n) == CellDepth(g.cells[k])
  {
    if n > 0 {
      DepthUpToIsLargestCellDepth(g, n - 1);
    }
  }

  /** The depth of a non-empty genome is the largest depth of its cells. */
  lemma DepthIsLargestCellDepth(g: Genome)
    ensures forall k | 0 <= k < |g.cells| :: CellDepth(g.cells[k]) <= Depth(g)
    ensures |g.cells| == 0 || exists k | 0 <= k < |g.cells| :: Depth(g) == CellDepth(g.cells[k])
  {
    DepthUpToIsLargestCellDepth(g, |g.cells|);
  }

  /** Every genome level at every depth has a single colour. */
  predicate UniformPerLevel(g: Genome)
    decreases g
  {
    forall k | 0 <= k < |g.cells| ::
      && g.cells[k].color == g.cells[0].color
      && (HasSubGenome(g.cells[k]) ==> UniformPerLevel(SubGenomeOf(g.cells[k])))
  }

  /** A new level over `sub` is as deep as `sub` plus one and keeps the fixture colours. */
  lemma LevelFacts(encode: seq<Cell> -> nat, base: Cell, colors: seq<int>, sub: Genome, mode: int, defaultMode: int)
    requires |colors| == 5 && forall k | 0 <= k < 5 :: colors[k] in FixtureColors
    requires ColorsWithin(Rollout(sub), FixtureColors)
    ensures var g := Encoded(encode, Level(base, colors, sub, mode, defaultMode));
            ColorsWithin(Rollout(g), FixtureColors) && Depth(g) == Depth(sub) + 1
  {
    var g := Encoded(encode, Level(base, colors, sub, mode, defaultMode));
    RolloutColors(g, FixtureColors);
    DepthIsLargestCellDepth(g);
  }

  /** The function types of the top-level cells, in order. */
  function TopLevelTypes(g: Genome): (r: seq<FunctionType>)
    ensures |r| == |g.cells| && forall k | 0 <= k < |g.cells| :: r[k] == TypeOf(g.cells[k])
  {
    seq(|g.cells|, k requires 0 <= k < |g.cells| => TypeOf(g.cells[k]))
  }

  /** The function types of the multi-function genome's top-level cells, in order. */
  const MultiFunctionTypes: seq<FunctionType> := [
    NeuronType, TransmitterType, NoFunction, ConstructorType, ConstructorType, SensorType,
    NerveType, AttackerType, InjectorType, MuscleType, DefenderType, PlaceholderType]

  /** Every function type, and a cell without one, occurs at the top level of the multi-function genome. */
  lemma MultiFunctionTypesCoverAll(t: FunctionType)
    ensures t in MultiFunctionTypes
  {
    var k := match t
      case NeuronType => 0 case TransmitterType => 1 case NoFunction => 2 case ConstructorType => 3
      case SensorType => 5 case NerveType => 6 case AttackerType => 7 case InjectorType => 8
      case MuscleType => 9 case DefenderType => 10 case PlaceholderType => 11;
    assert MultiFunctionTypes[k] == t;
  }

  /** The top level of the multi-function genome, over the nested chain `sub`. */
  function MultiFunctionTop(base: Cell, sub: Genome, defaultMode: int, injectorMode: int): (cells: seq<Cell>)
    ensures |cells| == 12
    ensures HasSubGenome(cells[4]) && SubGenomeOf(cells[4]) == sub
    ensures HasSubGenome(cells[8]) && SubGenomeOf(cells[8]) == sub
    ensures forall k | 0 <= k < 12 && k != 4 && k != 8 :: !HasSubGenome(cells[k])
  {
    [ Described(base, Some(Neuron([])), CellColors[0]),
      Described(base, Some(Transmitter([])), CellColors[1]),
      Described(base, None, CellColors[0]),
      Described(base, Some(Constructor(MakeGenomeCopy, defaultMode, [])), CellColors[1]),
      Described(base, Some(Constructor(Embedded(sub), defaultMode, [])), CellColors[0]),
      Described(base, Some(Sensor([])), CellColors[2]),
      Described(base, Some(Nerve([])), CellColors[1]),
      Described(base, Some(Attacker([])), CellColors[0]),
      Described(base, Some(Injector(Embedded(sub), injectorMode, [])), CellColors[0]),
      Described(base, Some(Muscle([])), CellColors[2]),
      Described(base, Some(Defender([])), CellColors[2]),
      Described(base, Some(Placeholder([])), CellColors[0]) ]
  }

  /** The top level of the uniform-colour genome: every cell in the first fixture colour. */
  function UniformTop(base: Cell, sub: Genome, defaultMode: int, injectorMode: int): (cells: seq<Cell>)
    ensures |cells| == 12
    ensures forall k | 0 <= k < 12 :: cells[k].color == CellColors[0]
    ensures TypeOf(cells[4]) == ConstructorType && TypeOf(cells[8]) == InjectorType
    ensures HasSubGenome(cells[4]) && SubGenomeOf(cells[4]) == sub
    ensures HasSubGenome(cells[8]) && SubGenomeOf(cells[8]) == sub
    ensures forall k | 0 <= k < 12 && k != 4 && k != 8 :: !HasSubGenome(cells[k])
  {
    var c := CellColors[0];
    [ Described(base, Some(Neuron([])), c),
      Described(base, Some(Transmitter([])), c),
      Described(base, None, c),
      Described(base, Some(Constructor(MakeGenomeCopy, defaultMode, [])), c),
      Described(base, Some(Constructor(Embedded(sub), defaultMode, [])), c),
      Described(base, Some(Sensor([])), c),
      Described(base, Some(Nerve([])), c),
      Described(base, Some(Attacker([])), c),
      Described(base, Some(Injector(Embedded(sub), injectorMode, [])), c),
      Described(base, Some(Muscle([])), c),
      Described(base, Some(Defender([])), c),
      Described(base, Some(Placeholder([])), c) ]
  }

  /** Every cell of the multi-function top level has a fixture colour and the function type of its place. */
  lemma MultiFunctionTopCells(base: Cell, sub: Genome, defaultMode: int, injectorMode: int)
    ensures var cells := MultiFunctionTop(base, sub, defaultMode, injectorMode);
            && (forall k | 0 <= k < 12 :: cells[k].color in FixtureColors)
            && (forall k | 0 <= k < 12 :: TypeOf(cells[k]) == MultiFunctionTypes[k])
  {
  }

  /** A top level over a chain of fixture colours keeps them and adds one level of depth. */
  lemma TopLevelFacts(g: Genome, sub: Genome)
    requires |g.cells| == 12 && forall k | 0 <= k < 12 :: g.cells[k].color in FixtureColors
    requires HasSubGenome(g.cells[4]) && SubGenomeOf(g.cells[4]) == sub
    requires HasSubGenome(g.cells[8]) && SubGenomeOf(g.cells[8]) == sub
    requires forall k | 0 <= k < 12 && k != 4 && k != 8 :: !HasSubGenome(g.cells[k])
    requires ColorsWithin(Rollout(sub), FixtureColors)
    ensures ColorsWithin(Rollout(g), FixtureColors)
    ensures Depth(g) == Depth(sub) + 1
  {
    RolloutColors(g, FixtureColors);
    DepthIsLargestCellDepth(g);
    assert CellDepth(g.cells[4]) == Depth(sub) + 1;
  }

  /** What the multi-function top level over a chain of fixture colours satisfies. */
  lemma MultiFunctionTopFacts(encode: seq<Cell> -> nat, base: Cell, sub: Genome, defaultMode: int, injectorMode: int)
    requires ColorsWithin(Rollout(sub), FixtureColors)
    ensures var g := Encoded(encode, MultiFunctionTop(base, sub, defaultMode, injectorMode));
            && ColorsWithin(Rollout(g), FixtureColors)
            && Depth(g) == Depth(sub) + 1
            && InsertPreserved(g, g) && DeleteAsWritten(g, g)
            && TopLevelTypes(g) == MultiFunctionTypes
  {
    var g := Encoded(encode, MultiFunctionTop(base, sub, defaultMode, injectorMode));
    MultiFunctionTopCells(base, sub, defaultMode, injectorMode);
    assert TopLevelTypes(g) == MultiFunctionTypes by {
      assert |TopLevelTypes(g)| == |MultiFunctionTypes|;
      assert forall k | 0 <= k < 12 :: TopLevelTypes(g)[k] == MultiFunctionTypes[k];
    }
    TopLevelFacts(g, sub);
    InsertSelfIffFixtureColors(g);
    DeleteAsWrittenSelfIsColorCheck(g);
  }

  /** `createGenomeWithMultipleCellsWithDifferentFunctions`. */
  method BuildMultiFunctionGenome(encode: seq<Cell> -> nat, base: Cell, draws: seq<nat>, defaultMode: int, injectorMode: int)
    returns (g: Genome)
    requires |draws| == 15
    ensures |g.cells| == 12
    ensures TopLevelTypes(g) == MultiFunctionTypes
    ensures ColorsWithin(Rollout(g), FixtureColors)
    ensures Depth(g) == 16
    ensures InsertPreserved(g, g) && DeleteAsWritten(g, g)
  {
    var subGenome := Genome(0, []);
    for i := 0 to 15
      invariant ColorsWithin(Rollout(subGenome), FixtureColors)
      invariant Depth(subGenome) == i
    {
      var colors := [CellColors[0], CellColors[1], CellColors[2], CellColors[2], CellColors[0]];
      LevelFacts(encode, base, colors, subGenome, draws[i] % 100, defaultMode);
      subGenome := Encoded(encode, Level(base, colors, subGenome, draws[i] % 100, defaultMode));
    }
    MultiFunctionTopFacts(encode, base, subGenome, defaultMode, injectorMode);
    g := Encoded(encode, MultiFunctionTop(base, subGenome, defaultMode, injectorMode));
  }

  /** `createGenomeWithUniformColorPerSubgenome`. */
  method BuildUniformColorGenome(encode: seq<Cell> -> nat, base: Cell, draws: seq<nat>, defaultMode: int, injectorMode: int)
    returns (g: Genome)
    requires |draws| == 15
    ensures |g.cells| == 12
    ensures forall k | 0 <= k < 12 :: g.cells[k].color == CellColors[0]
    ensures UniformPerLevel(g)
    ensures ColorsWithin(Rollout(g), FixtureColors)
    ensures Depth(g) == 16
    ensures ColorPreserved(g, g, {1, 2, 3, 4, 5})
  {
    var subGenome := Genome(0, []);
    for i := 0 to 15
      invariant ColorsWithin(Rollout(subGenome), FixtureColors)
      invariant Depth(subGenome) == i
      invariant UniformPerLevel(subGenome)
    {
      var color := CellColors[i % |CellColors|];
      var colors := [color, color, color, color, color];
      LevelFacts(encode, base, colors, subGenome, draws[i] % 100, defaultMode);
      subGenome := Encoded(encode, Level(base, colors, subGenome, draws[i] % 100, defaultMode));
    }
    g := Encoded(encode, UniformTop(base, subGenome, defaultMode, injectorMode));
    TopLevelFacts(g, subGenome);
    ColorSelfIffColorsAllowed(g, {1, 2, 3, 4, 5});
  }
}
