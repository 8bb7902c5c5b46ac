/**
 * The relations by which the mutation tests judge a mutated genome against
 * the original, one per mutation kind, and what each of them guarantees.
 *
 * Each relation takes two genome buffers (see GenomeModel) and decides
 * whether the second may have been produced from the first by the mutation
 * kind in question.  The loops of the source only return early, so each
 * relation is a conjunction (or, for the "some matching cell" searches, a
 * disjunction) over the cells.
 */
module MutationChecks {
  import opened Wrappers
  import opened GenomeModel

  /** `genomeCellColors`: the only colours the fixture genomes use. */
  const FixtureColors: set<int> := {1, 4, 5}

  /** Cells agree in what Properties mutation must keep. */
  predicate PropertiesKept(e: Cell, a: Cell)
  {
    && TypeOf(e) == TypeOf(a)
    && e.color == a.color
    && e.referenceAngle == a.referenceAngle
    && e.numRequiredAdditionalConnections == a.numRequiredAdditionalConnections
  }

  /** `comparePropertiesMutation`. */
  predicate PropertiesPreserved(expected: Genome, actual: Genome)
    decreases expected
  {
    && expected.size == actual.size
    && |expected.cells| == |actual.cells|
    && forall i | 0 <= i < |expected.cells| ::
         && PropertiesKept(expected.cells[i], actual.cells[i])
         && (IsConstructorOrInjector(expected.cells[i]) ==>
               && MakeCopyFlag(expected.cells[i]) == MakeCopyFlag(actual.cells[i])
               && (HasSubGenome(expected.cells[i]) ==>
                     PropertiesPreserved(SubGenomeOf(expected.cells[i]), SubGenomeOf(actual.cells[i]))))
  }

  /** Function types whose cells NeuronData mutation may touch. */
  predicate NeuronDataMayDiffer(t: FunctionType)
  {
    t == NeuronType || t == ConstructorType || t == InjectorType
  }

  /** `compareNeuronDataMutation`. */
  predicate NeuronDataPreserved(expected: Genome, actual: Genome)
    decreases expected
  {
    && expected.size == actual.size
    && |expected.cells| == |actual.cells|
    && forall i | 0 <= i < |expected.cells| ::
         && TypeOf(expected.cells[i]) == TypeOf(actual.cells[i])
         && (!NeuronDataMayDiffer(TypeOf(expected.cells[i])) ==> expected.cells[i] == actual.cells[i])
         && expected.cells[i].color == actual.cells[i].color
         && (IsConstructorOrInjector(expected.cells[i]) ==>
               && MakeCopyFlag(expected.cells[i]) == MakeCopyFlag(actual.cells[i])
               && (HasSubGenome(expected.cells[i]) ==>
                     NeuronDataPreserved(SubGenomeOf(expected.cells[i]), SubGenomeOf(actual.cells[i]))))
  }

  /**
   * `createCompareClone`: the structural fields zeroed and an embedded
   * sub-genome blanked, so that what is left must not change.
   */
  function CompareClone(c: Cell): (r: Cell)
    ensures TypeOf(r) == TypeOf(c) && MakeCopyFlag(r) == MakeCopyFlag(c)
    ensures r.color == c.color && r.energy == c.energy && r.outputBlocked == c.outputBlocked
    ensures r.executionOrderNumber == c.executionOrderNumber
    ensures r.inputExecutionOrderNumber == c.inputExecutionOrderNumber
    ensures r.referenceAngle == 0.0 && r.numRequiredAdditionalConnections == 0
  {
    var base := c.(referenceAngle := 0.0, numRequiredAdditionalConnections := 0);
    if HasSubGenome(c) then base.(cellFunction := WithEmptySubGenome(c).cellFunction) else base
  }

  /** `compareStructureMutation`. */
  predicate StructurePreserved(expected: Genome, actual: Genome)
    decreases expected
  {
    && expected.size == actual.size
    && |expected.cells| == |actual.cells|
    && forall i | 0 <= i < |expected.cells| ::
         && CompareClone(expected.cells[i]) == CompareClone(actual.cells[i])
         && (IsConstructorOrInjector(expected.cells[i]) ==>
               && MakeCopyFlag(expected.cells[i]) == MakeCopyFlag(actual.cells[i])
               && (HasSubGenome(expected.cells[i]) ==>
                     StructurePreserved(SubGenomeOf(expected.cells[i]), SubGenomeOf(actual.cells[i]))))
  }

  function Abs(x: real): real
  {
    if x < 0.0 then -x else x
  }

  /** The per-cell test of `compareCellFunctionMutation`; `nearZero` is NEAR_ZERO. */
  predicate ScalarsKept(e: Cell, a: Cell, nearZero: real)
  {
    && Abs(e.referenceAngle - a.referenceAngle) <= nearZero
    && Abs(e.energy - a.energy) <= nearZero
    && e.color == a.color
    && e.numRequiredAdditionalConnections == a.numRequiredAdditionalConnections
    && e.executionOrderNumber == a.executionOrderNumber
    && e.inputExecutionOrderNumber == a.inputExecutionOrderNumber
    && e.outputBlocked == a.outputBlocked
  }

  /** `compareCellFunctionMutation`: top-level cell count and scalars only. */
  predicate CellFunctionPreserved(expected: Genome, actual: Genome, nearZero: real)
  {
    && |expected.cells| == |actual.cells|
    && forall i | 0 <= i < |expected.cells| :: ScalarsKept(expected.cells[i], actual.cells[i], nearZero)
  }

  /** Two cells are equal once their cell functions are reset. */
  predicate SameIgnoringFunction(x: Cell, y: Cell)
  {
    WithoutFunction(x) == WithoutFunction(y)
  }

  /**
   * The match `compareInsertMutation` asks for between a cell `b` of the
   * "before" genome and a cell `a` of the "after" genome: equal apart from
   * the cell function and, for a Constructor or Injector `b`, both copying
   * their enclosing genome or both embedding genomes that again pass the
   * insertion check.
   */
  predicate InsertMatch(b: Cell, a: Cell)
    decreases b, 0
  {
    && SameIgnoringFunction(b, a)
    && (IsConstructorOrInjector(b) ==>
          || (IsMakeCopy(b) && IsMakeCopy(a))
          || (HasSubGenome(b) && HasSubGenome(a) && InsertPreserved(SubGenomeOf(b), SubGenomeOf(a))))
  }

  /** `compareInsertMutation`: every "before" cell has a match among the "after" cells. */
  predicate InsertPreserved(before: Genome, after: Genome)
    decreases before, 1
  {
    && ColorsWithin(Rollout(after), FixtureColors)
    && forall i | 0 <= i < |before.cells| ::
         exists j | 0 <= j < |after.cells| :: InsertMatch(before.cells[i], after.cells[j])
  }

  /**
   * The match `compareDeleteMutation` asks for between a cell `b` of the
   * "before" genome and a cell `a` of the "after" genome, as written: the
   * nested check passes `b`'s sub-genome as both of its arguments.
   */
  predicate DeleteMatchAsWritten(b: Cell, a: Cell)
    decreases b, 0
  {
    && SameIgnoringFunction(b, a)
    && (IsConstructorOrInjector(a) ==>
          || (IsMakeCopy(a) && IsMakeCopy(b))
          || (HasSubGenome(b) && DeleteAsWritten(SubGenomeOf(b), SubGenomeOf(b))))
  }

  /** `compareDeleteMutation` as written: every "after" cell has a match among the "before" cells. */
  predicate DeleteAsWritten(before: Genome, after: Genome)
    decreases before, 1
  {
    && ColorsWithin(Rollout(after), FixtureColors)
    && forall i | 0 <= i < |after.cells| ::
         exists j | 0 <= j < |before.cells| :: DeleteMatchAsWritten(before.cells[j], after.cells[i])
  }

  /** The deletion match as evidently intended: the nested check relates `b`'s sub-genome to `a`'s. */
  predicate DeleteMatch(b: Cell, a: Cell)
    decreases b, 0
  {
    && SameIgnoringFunction(b, a)
    && (IsConstructorOrInjector(a) ==>
          || (IsMakeCopy(a) && IsMakeCopy(b))
          || (HasSubGenome(b) && HasSubGenome(a) && DeletePreserved(SubGenomeOf(b), SubGenomeOf(a))))
  }

  /** `compareDeleteMutation` as evidently intended. */
  predicate DeletePreserved(before: Genome, after: Genome)
    decreases before, 1
  {
    && ColorsWithin(Rollout(after), FixtureColors)
    && forall i | 0 <= i < |after.cells| ::
         exists j | 0 <= j < |before.cells| :: DeleteMatch(before.cells[j], after.cells[i])
  }

  /** `compareTranslateMutation`. */
  predicate TranslatePreserved(before: Genome, after: Genome)
  {
    Rollout(before) == Rollout(after)
  }

  /** A cell with colour and cell function reset, as `compareColorMutation` compares it. */
  function WithoutColorAndFunction(c: Cell): Cell
  {
    c.(color := 0, cellFunction := None)
  }

  /**
   * `compareColorMutation`.  The cells are zipped with boost::combine, which
   * stops at the end of the "before" range; the zip is taken up to the
   * shorter of the two.
   */
  predicate ColorPreserved(before: Genome, after: Genome, allowedColors: set<int>)
    decreases before
  {
    forall i | 0 <= i < |before.cells| && i < |after.cells| ::
      && WithoutColorAndFunction(before.cells[i]) == WithoutColorAndFunction(after.cells[i])
      && after.cells[i].color in allowedColors
      && (HasSubGenome(before.cells[i]) && HasSubGenome(after.cells[i]) ==>
            ColorPreserved(SubGenomeOf(before.cells[i]), SubGenomeOf(after.cells[i]), allowedColors))
  }
}
