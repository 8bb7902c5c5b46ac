/**
 * The decoded genome tree that the mutation checks reason about.
 *
 * A genome buffer is represented by the number of bytes it occupies and the
 * cells it decodes to; decoding is therefore field access, and the byte
 * length is an abstract measure carried along with the cells.  A
 * Constructor or Injector either copies its own enclosing genome
 * ("make genome copy") or embeds a nested genome buffer of its own.
 */
module GenomeModel {

  import opened Wrappers

  /** A genome buffer of `size` bytes that decodes to `cells`. */
  datatype Genome = Genome(size: nat, cells: seq<Cell>)

  /** What a Constructor or Injector builds from. */
  datatype SubGenome = MakeGenomeCopy | Embedded(genome: Genome)

  /**
   * The closed variant of cell functions.  `params` stands for the
   * function-local data (neuron weights and biases, sensor settings, ...),
   * which the checks only ever compare as a whole.
   */
  datatype CellFunction =
    | Neuron(params: seq<real>)
    | Transmitter(params: seq<real>)
    | Sensor(params: seq<real>)
    | Nerve(params: seq<real>)
    | Attacker(params: seq<real>)
    | Muscle(params: seq<real>)
    | Defender(params: seq<real>)
    | Placeholder(params: seq<real>)
    | Constructor(genome: SubGenome, mode: int, params: seq<real>)
    | Injector(genome: SubGenome, mode: int, params: seq<real>)

  /** The result of `getCellFunctionType`: `NoFunction` for a cell without one. */
  datatype FunctionType =
    | NoFunction | NeuronType | TransmitterType | SensorType | NerveType | AttackerType
    | MuscleType | DefenderType | PlaceholderType | ConstructorType | InjectorType

  datatype Cell = Cell(
    color: int,
    referenceAngle: real,
    numRequiredAdditionalConnections: int,
    executionOrderNumber: int,
    inputExecutionOrderNumber: int,
    outputBlocked: bool,
    energy: real,
    cellFunction: Option<CellFunction>)

  function TypeOf(c: Cell): FunctionType
  {
    match c.cellFunction
    case None => NoFunction
    case Some(f) =>
      match f
      case Neuron(_) => NeuronType
      case Transmitter(_) => TransmitterType
      case Sensor(_) => SensorType
      case Nerve(_) => NerveType
      case Attacker(_) => AttackerType
      case Muscle(_) => MuscleType
      case Defender(_) => DefenderType
      case Placeholder(_) => PlaceholderType
      case Constructor(_, _, _) => ConstructorType
      case Injector(_, _, _) => InjectorType
  }

  predicate IsConstructorOrInjector(c: Cell)
  {
    c.cellFunction.Some? && (c.cellFunction.value.Constructor? || c.cellFunction.value.Injector?)
  }

  /** `isMakeGenomeCopy()`: present only for Constructor and Injector cells. */
  function MakeCopyFlag(c: Cell): Option<bool>
  {
    if IsConstructorOrInjector(c) then Some(c.cellFunction.value.genome.MakeGenomeCopy?) else None
  }

  predicate IsMakeCopy(c: Cell)
  {
    IsConstructorOrInjector(c) && c.cellFunction.value.genome.MakeGenomeCopy?
  }

  /** `getSubGenome()` is present exactly for a Constructor or Injector with an embedded genome. */
  predicate HasSubGenome(c: Cell)
  {
    IsConstructorOrInjector(c) && c.cellFunction.value.genome.Embedded?
  }

  function SubGenomeOf(c: Cell): Genome
    requires HasSubGenome(c)
  {
    c.cellFunction.value.genome.genome
  }

  /** `setSubGenome({})`: the embedded genome is replaced by an empty buffer. */
  function WithEmptySubGenome(c: Cell): (r: Cell)
    requires HasSubGenome(c)
    ensures HasSubGenome(r) && SubGenomeOf(r) == Genome(0, [])
    ensures TypeOf(r) == TypeOf(c) && r.(cellFunction := None) == c.(cellFunction := None)
  {
    var f := c.cellFunction.value;
    c.(cellFunction := Some(f.(genome := Embedded(Genome(0, [])))))
  }

  /** The cell compared "with its cell function reset". */
  function WithoutFunction(c: Cell): Cell
  {
    c.(cellFunction := None)
  }

  /** The element a cell contributes to a rollout (its sub-genome emptied). */
  function Flattened(c: Cell): (r: Cell)
    ensures !HasSubGenome(r) || SubGenomeOf(r).cells == []
    ensures WithoutFunction(r) == WithoutFunction(c) && TypeOf(r) == TypeOf(c)
  {
    if HasSubGenome(c) then WithEmptySubGenome(c) else c
  }

  /*
   * Rollout: every cell of the genome tree, with every embedded sub-genome
   * inlined in front of its owner and the owner's own buffer emptied.
   */

  function CellRollout(c: Cell): set<Cell>
    decreases c, 0
  {
    if HasSubGenome(c) then Rollout(SubGenomeOf(c)) + {WithEmptySubGenome(c)} else {c}
  }

  function RolloutUpTo(g: Genome, n: nat): set<Cell>
    requires n <= |g.cells|
    decreases g, n
  {
    if n == 0 then {} else RolloutUpTo(g, n - 1) + CellRollout(g.cells[n - 1])
  }

  function Rollout(g: Genome): set<Cell>
    decreases g, |g.cells| + 1
  {
    RolloutUpTo(g, |g.cells|)
  }

  /**
   * The recursive `rollout` of the source: it walks the cells in order,
   * first rolling out a cell's sub-genome into the accumulator and then
   * inserting the cell itself with that sub-genome emptied.
   */
  method RolloutInto(input: Genome, result: set<Cell>) returns (acc: set<Cell>)
    ensures acc == result + Rollout(input)
    decreases input
  {
    acc := result;
    for i := 0 to |input.cells|
      invariant acc == result + RolloutUpTo(input, i)
    {
      var cell := input.cells[i];
      if HasSubGenome(cell) {
        acc := RolloutInto(SubGenomeOf(cell), acc);
        acc := acc + {WithEmptySubGenome(cell)};
      } else {
        acc := acc + {cell};
      }
    }
  }

  lemma {:induction false} RolloutUpToMembers(g: Genome, n: nat, x: Cell)
    requires n <= |g.cells|
    ensures x in RolloutUpTo(g, n) <==> exists k :: 0 <= k < n && x in CellRollout(g.cells[k])
    decreases n
  {
    if n > 0 {
      RolloutUpToMembers(g, n - 1, x);
      if x in CellRollout(g.cells[n - 1]) {
        assert 0 <= n - 1 < n && x in CellRollout(g.cells[n - 1]);
      }
    }
  }

  /** A cell is in the rollout iff it is in the rollout of one of the top-level cells. */
  lemma RolloutMembers(g: Genome, x: Cell)
    ensures x in Rollout(g) <==> exists k :: 0 <= k < |g.cells| && x in CellRollout(g.cells[k])
  {
    RolloutUpToMembers(g, |g.cells|, x);
  }

  /*
   * Paths address a cell at any nesting depth: the first index selects a
   * top-level cell, each further index a cell of the sub-genome embedded in
   * the cell selected so far.
   */
  function CellAt(g: Genome, path: seq<nat>): Option<Cell>
    decreases g
  {
    if path == [] || path[0] >= |g.cells| then None
    else if |path| == 1 then Some(g.cells[path[0]])
    else if HasSubGenome(g.cells[path[0]]) then CellAt(SubGenomeOf(g.cells[path[0]]), path[1..])
    else None
  }

  /** Every cell at every depth ends up in the rollout, with its sub-genome emptied. */
  lemma {:induction false} RolloutContainsEveryNestedCell(g: Genome, path: seq<nat>)
    requires CellAt(g, path).Some?
    ensures Flattened(CellAt(g, path).value) in Rollout(g)
    decreases g
  {
    var c := g.cells[path[0]];
    RolloutMembers(g, Flattened(CellAt(g, path).value));
    if |path| == 1 {
      assert Flattened(c) in CellRollout(c);
    } else {
      RolloutContainsEveryNestedCell(SubGenomeOf(c), path[1..]);
      assert Flattened(CellAt(g, path).value) in CellRollout(c);
    }
  }

  /** Every element of a rollout is the flattened form of a cell at some path. */
  lemma {:induction false} RolloutOnlyHoldsNestedCells(g: Genome, x: Cell)
    requires x in Rollout(g)
    ensures exists path :: CellAt(g, path).Some? && x == Flattened(CellAt(g, path).value)
    decreases g
  {
    RolloutMembers(g, x);
    var k :| 0 <= k < |g.cells| && x in CellRollout(g.cells[k]);
    var c := g.cells[k];
    if HasSubGenome(c) && x in Rollout(SubGenomeOf(c)) {
      RolloutOnlyHoldsNestedCells(SubGenomeOf(c), x);
      var p :| CellAt(SubGenomeOf(c), p).Some? && x == Flattened(CellAt(SubGenomeOf(c), p).value);
      assert CellAt(g, [k] + p) == CellAt(SubGenomeOf(c), p) by {
        assert ([k] + p)[1..] == p;
      }
    } else {
      assert CellAt(g, [k]) == Some(c);
    }
  }

  /** No element of a rollout carries a non-empty sub-genome. */
  lemma {:induction false} RolloutHasNoNestedCells(g: Genome, x: Cell)
    requires x in Rollout(g)
    ensures HasSubGenome(x) ==> SubGenomeOf(x) == Genome(0, [])
  {
    RolloutOnlyHoldsNestedCells(g, x);
  }

  /** A predicate holds of all of a rollout iff it holds of each top-level cell's part. */
  lemma RolloutForall(g: Genome, colors: set<int>)
    ensures (forall x | x in Rollout(g) :: x.color in colors) <==>
            (forall k | 0 <= k < |g.cells| :: forall x | x in CellRollout(g.cells[k]) :: x.color in colors)
  {
    forall x | x in Rollout(g) { RolloutMembers(g, x); }
    forall k, x | 0 <= k < |g.cells| && x in CellRollout(g.cells[k]) ensures x in Rollout(g) {
      RolloutMembers(g, x);
    }
  }

  /** All colours of a set of cells lie in `colors`. */
  predicate ColorsWithin(cells: set<Cell>, colors: set<int>)
  {
    forall x | x in cells :: x.color in colors
  }

  /** The rollout's colours are the colours of every top-level cell and of every embedded sub-genome's rollout. */
  lemma RolloutColors(g: Genome, colors: set<int>)
    ensures ColorsWithin(Rollout(g), colors) <==>
            forall k | 0 <= k < |g.cells| ::
              g.cells[k].color in colors &&
              (HasSubGenome(g.cells[k]) ==> ColorsWithin(Rollout(SubGenomeOf(g.cells[k])), colors))
  {
    RolloutForall(g, colors);
    forall k | 0 <= k < |g.cells| && HasSubGenome(g.cells[k])
      ensures WithEmptySubGenome(g.cells[k]).color == g.cells[k].color
    {
    }
  }
}
