/**
 * What the mutation relations guarantee: reflexivity, what each one forces
 * at every nesting depth, how the flattened cell sets of the two genomes
 * relate, and where the relations differ from one another.
 */
module MutationProperties {
  import opened Wrappers
  import opened GenomeModel
  import opened MutationChecks

  /* ---------------------------------------------------------------- */
  /* Reflexivity                                                       */
  /* ---------------------------------------------------------------- */

  lemma {:induction false} PropertiesReflexive(g: Genome)
    ensures PropertiesPreserved(g, g)
    decreases g
  {
    forall i | 0 <= i < |g.cells| && HasSubGenome(g.cells[i])
      ensures PropertiesPreserved(SubGenomeOf(g.cells[i]), SubGenomeOf(g.cells[i]))
    {
      PropertiesReflexive(SubGenomeOf(g.cells[i]));
    }
  }

  lemma {:induction false} NeuronDataReflexive(g: Genome)
    ensures NeuronDataPreserved(g, g)
    decreases g
  {
    forall i | 0 <= i < |g.cells| && HasSubGenome(g.cells[i])
      ensures NeuronDataPreserved(SubGenomeOf(g.cells[i]), SubGenomeOf(g.cells[i]))
    {
      NeuronDataReflexive(SubGenomeOf(g.cells[i]));
    }
  }

  lemma {:induction false} StructureReflexive(g: Genome)
    ensures StructurePreserved(g, g)
    decreases g
  {
    forall i | 0 <= i < |g.cells| && HasSubGenome(g.cells[i])
      ensures StructurePreserved(SubGenomeOf(g.cells[i]), SubGenomeOf(g.cells[i]))
    {
      StructureReflexive(SubGenomeOf(g.cells[i]));
    }
  }

  lemma CellFunctionReflexive(g: Genome, nearZero: real)
    requires nearZero >= 0.0
    ensures CellFunctionPreserved(g, g, nearZero)
  {
  }

  /** Translation compares two sets, so it is an equivalence relation. */
  lemma TranslateIsEquivalence(a: Genome, b: Genome, c: Genome)
    ensures TranslatePreserved(a, a)
    ensures TranslatePreserved(a, b) ==> TranslatePreserved(b, a)
    ensures TranslatePreserved(a, b) && TranslatePreserved(b, c) ==> TranslatePreserved(a, c)
  {
  }

  /** Colour mutation relates a genome to itself iff every colour it reaches is allowed. */
  lemma {:induction false} ColorSelfIffColorsAllowed(g: Genome, allowedColors: set<int>)
    ensures ColorPreserved(g, g, allowedColors) <==> ColorsWithin(Rollout(g), allowedColors)
    decreases g
  {
    RolloutColors(g, allowedColors);
    forall i | 0 <= i < |g.cells| && HasSubGenome(g.cells[i])
      ensures ColorPreserved(SubGenomeOf(g.cells[i]), SubGenomeOf(g.cells[i]), allowedColors)
          <==> ColorsWithin(Rollout(SubGenomeOf(g.cells[i])), allowedColors)
    {
      ColorSelfIffColorsAllowed(SubGenomeOf(g.cells[i]), allowedColors);
    }
  }

  /** Insertion relates a genome to itself iff all its colours are fixture colours. */
  lemma {:induction false} InsertSelfIffFixtureColors(g: Genome)
    ensures InsertPreserved(g, g) <==> ColorsWithin(Rollout(g), FixtureColors)
    decreases g
  {
    if ColorsWithin(Rollout(g), FixtureColors) {
      RolloutColors(g, FixtureColors);
      forall i | 0 <= i < |g.cells|
        ensures InsertMatch(g.cells[i], g.cells[i])
      {
        if HasSubGenome(g.cells[i]) {
          InsertSelfIffFixtureColors(SubGenomeOf(g.cells[i]));
        }
      }
    }
  }

  /* ---------------------------------------------------------------- */
  /* What each relation forces at every nesting depth                  */
  /* ---------------------------------------------------------------- */

  lemma {:induction false} PropertiesAtEveryDepth(e: Genome, a: Genome, path: seq<nat>)
    requires PropertiesPreserved(e, a) && CellAt(e, path).Some?
    ensures CellAt(a, path).Some?
    ensures PropertiesKept(CellAt(e, path).value, CellAt(a, path).value)
    ensures MakeCopyFlag(CellAt(e, path).value) == MakeCopyFlag(CellAt(a, path).value)
    decreases e
  {
    var i := path[0];
    if |path| > 1 {
      PropertiesAtEveryDepth(SubGenomeOf(e.cells[i]), SubGenomeOf(a.cells[i]), path[1..]);
    }
  }

  lemma {:induction false} NeuronDataAtEveryDepth(e: Genome, a: Genome, path: seq<nat>)
    requires NeuronDataPreserved(e, a) && CellAt(e, path).Some?
    ensures CellAt(a, path).Some?
    ensures TypeOf(CellAt(e, path).value) == TypeOf(CellAt(a, path).value)
    ensures CellAt(e, path).value.color == CellAt(a, path).value.color
    ensures !NeuronDataMayDiffer(TypeOf(CellAt(e, path).value)) ==> CellAt(e, path) == CellAt(a, path)
    decreases e
  {
    var i := path[0];
    if |path| > 1 {
      NeuronDataAtEveryDepth(SubGenomeOf(e.cells[i]), SubGenomeOf(a.cells[i]), path[1..]);
    }
  }

  lemma {:induction false} StructureAtEveryDepth(e: Genome, a: Genome, path: seq<nat>)
    requires StructurePreserved(e, a) && CellAt(e, path).Some?
    ensures CellAt(a, path).Some?
    ensures CompareClone(CellAt(e, path).value) == CompareClone(CellAt(a, path).value)
    ensures TypeOf(CellAt(e, path).value) == TypeOf(CellAt(a, path).value)
    ensures CellAt(e, path).value.color == CellAt(a, path).value.color
    ensures CellAt(e, path).value.energy == CellAt(a, path).value.energy
    ensures CellAt(e, path).value.executionOrderNumber == CellAt(a, path).value.executionOrderNumber
    ensures CellAt(e, path).value.inputExecutionOrderNumber == CellAt(a, path).value.inputExecutionOrderNumber
    ensures CellAt(e, path).value.outputBlocked == CellAt(a, path).value.outputBlocked
    decreases e
  {
    var i := path[0];
    if |path| > 1 {
      StructureAtEveryDepth(SubGenomeOf(e.cells[i]), SubGenomeOf(a.cells[i]), path[1..]);
    }
  }

  /** Where both genomes have a cell at the same path, colour mutation kept all but its colour. */
  lemma {:induction false} ColorAtEveryDepth(b: Genome, a: Genome, allowedColors: set<int>, path: seq<nat>)
    requires ColorPreserved(b, a, allowedColors)
    requires CellAt(b, path).Some? && CellAt(a, path).Some?
    ensures WithoutColorAndFunction(CellAt(b, path).value) == WithoutColorAndFunction(CellAt(a, path).value)
    ensures CellAt(a, path).value.color in allowedColors
    decreases b
  {
    var i := path[0];
    if |path| > 1 {
      ColorAtEveryDepth(SubGenomeOf(b.cells[i]), SubGenomeOf(a.cells[i]), allowedColors, path[1..]);
    }
  }

  /* ---------------------------------------------------------------- */
  /* Flattened containment for insertion and deletion                  */
  /* ---------------------------------------------------------------- */

  /** After an accepted insertion every old cell, at any depth, survives (cell function ignored). */
  lemma {:induction false} InsertKeepsEveryCell(before: Genome, after: Genome, x: Cell)
    requires InsertPreserved(before, after) && x in Rollout(before)
    ensures exists y :: y in Rollout(after) && SameIgnoringFunction(x, y)
    decreases before
  {
    RolloutMembers(before, x);
    var k :| 0 <= k < |before.cells| && x in CellRollout(before.cells[k]);
    var b := before.cells[k];
    var j :| 0 <= j < |after.cells| && InsertMatch(b, after.cells[j]);
    var aj := after.cells[j];
    var y: Cell;
    if HasSubGenome(b) && x in Rollout(SubGenomeOf(b)) {
      InsertKeepsEveryCell(SubGenomeOf(b), SubGenomeOf(aj), x);
      y :| y in Rollout(SubGenomeOf(aj)) && SameIgnoringFunction(x, y);
    } else {
      y := Flattened(aj);
    }
    assert y in CellRollout(aj);
    RolloutMembers(after, y);
  }

  /** After an accepted deletion every remaining cell, at any depth, was there before. */
  lemma {:induction false} DeleteKeepsOnlyOldCells(before: Genome, after: Genome, x: Cell)
    requires DeletePreserved(before, after) && x in Rollout(after)
    ensures exists y :: y in Rollout(before) && SameIgnoringFunction(x, y)
    decreases before
  {
    RolloutMembers(after, x);
    var k :| 0 <= k < |after.cells| && x in CellRollout(after.cells[k]);
    var a := after.cells[k];
    var j :| 0 <= j < |before.cells| && DeleteMatch(before.cells[j], a);
    var bj := before.cells[j];
    var y: Cell;
    if HasSubGenome(a) && x in Rollout(SubGenomeOf(a)) {
      DeleteKeepsOnlyOldCells(SubGenomeOf(bj), SubGenomeOf(a), x);
      y :| y in Rollout(SubGenomeOf(bj)) && SameIgnoringFunction(x, y);
    } else {
      y := Flattened(bj);
    }
    assert y in CellRollout(bj);
    RolloutMembers(before, y);
  }

  /* ---------------------------------------------------------------- */
  /* compareDeleteMutation as written                                  */
  /* ---------------------------------------------------------------- */

  /** Relating a genome to itself, the as-written deletion check is only a colour check. */
  lemma {:induction false} DeleteAsWrittenSelfIsColorCheck(g: Genome)
    ensures DeleteAsWritten(g, g) <==> ColorsWithin(Rollout(g), FixtureColors)
    decreases g
  {
    if ColorsWithin(Rollout(g), FixtureColors) {
      RolloutColors(g, FixtureColors);
      forall i | 0 <= i < |g.cells|
        ensures DeleteMatchAsWritten(g.cells[i], g.cells[i])
      {
        if HasSubGenome(g.cells[i]) {
          DeleteAsWrittenSelfIsColorCheck(SubGenomeOf(g.cells[i]));
        }
      }
    }
  }

  /**
   * The as-written deletion match never looks into the "after" cell's
   * sub-genome: its nested step only checks the colours of the "before"
   * cell's own sub-genome.
   */
  lemma DeleteAsWrittenNestedStepIsColorCheck(b: Cell, a: Cell)
    ensures DeleteMatchAsWritten(b, a) <==>
      && SameIgnoringFunction(b, a)
      && (IsConstructorOrInjector(a) ==>
            || (IsMakeCopy(a) && IsMakeCopy(b))
            || (HasSubGenome(b) && ColorsWithin(Rollout(SubGenomeOf(b)), FixtureColors)))
  {
    if HasSubGenome(b) {
      DeleteAsWrittenSelfIsColorCheck(SubGenomeOf(b));
    }
  }

  /** A plain cell of the given colour and reference angle. */
  function PlainCell(color: int, referenceAngle: real): Cell
  {
    Cell(color, referenceAngle, 0, 0, 0, false, 0.0, None)
  }

  /** A colour-4 constructor cell embedding `sub`. */
  function ConstructorCell(sub: Genome): Cell
  {
    Cell(4, 0.0, 0, 0, 0, false, 0.0, Some(Constructor(Embedded(sub), 0, [])))
  }

  /** The rollout of a one-cell genome is that cell's rollout. */
  lemma RolloutOfOneCell(size: nat, c: Cell)
    ensures Rollout(Genome(size, [c])) == CellRollout(c)
  {
    var g := Genome(size, [c]);
    assert RolloutUpTo(g, 1) == RolloutUpTo(g, 0) + CellRollout(g.cells[0]);
  }

  /** A constructor whose sub-genome holds one plain cell of reference angle 0.0. */
  function OriginalGenome(): Genome
  {
    Genome(10, [ConstructorCell(Genome(5, [PlainCell(1, 0.0)]))])
  }

  /** The same shape, the nested cell's reference angle changed to 1.0. */
  function InventedGenome(): Genome
  {
    Genome(10, [ConstructorCell(Genome(5, [PlainCell(1, 1.0)]))])
  }

  lemma OriginalAndInventedRollouts()
    ensures Rollout(OriginalGenome()) ==
            {PlainCell(1, 0.0), WithEmptySubGenome(ConstructorCell(Genome(5, [PlainCell(1, 0.0)])))}
    ensures Rollout(InventedGenome()) ==
            {PlainCell(1, 1.0), WithEmptySubGenome(ConstructorCell(Genome(5, [PlainCell(1, 1.0)])))}
  {
    RolloutOfOneCell(5, PlainCell(1, 0.0));
    RolloutOfOneCell(5, PlainCell(1, 1.0));
    RolloutOfOneCell(10, ConstructorCell(Genome(5, [PlainCell(1, 0.0)])));
    RolloutOfOneCell(10, ConstructorCell(Genome(5, [PlainCell(1, 1.0)])));
  }

  lemma OriginalSubGenomePassesAsWritten()
    ensures DeleteAsWritten(Genome(5, [PlainCell(1, 0.0)]), Genome(5, [PlainCell(1, 0.0)]))
  {
    RolloutOfOneCell(5, PlainCell(1, 0.0));
    DeleteAsWrittenSelfIsColorCheck(Genome(5, [PlainCell(1, 0.0)]));
  }

  lemma ConstructorCellsMatch(b: Cell, a: Cell)
    requires b == ConstructorCell(Genome(5, [PlainCell(1, 0.0)]))
    requires a == ConstructorCell(Genome(5, [PlainCell(1, 1.0)]))
    ensures SameIgnoringFunction(b, a) && IsConstructorOrInjector(a)
    ensures HasSubGenome(b) && SubGenomeOf(b) == Genome(5, [PlainCell(1, 0.0)])
  {
  }

  lemma ConstructorCellsMatchAsWritten()
    ensures DeleteMatchAsWritten(OriginalGenome().cells[0], InventedGenome().cells[0])
  {
    var b := OriginalGenome().cells[0];
    var a := InventedGenome().cells[0];
    OriginalSubGenomePassesAsWritten();
    ConstructorCellsMatch(b, a);
  }

  lemma InventedColorsAllowed()
    ensures ColorsWithin(Rollout(InventedGenome()), FixtureColors)
  {
    OriginalAndInventedRollouts();
  }

  lemma DeleteAsWrittenAcceptsInventedGenome()
    ensures DeleteAsWritten(OriginalGenome(), InventedGenome())
  {
    ConstructorCellsMatchAsWritten();
    InventedColorsAllowed();
  }

  lemma DeletePreservedRejectsInventedGenome()
    ensures !DeletePreserved(OriginalGenome(), InventedGenome())
  {
    var subB := Genome(5, [PlainCell(1, 0.0)]);
    var subA := Genome(5, [PlainCell(1, 1.0)]);
    assert !DeleteMatch(subB.cells[0], subA.cells[0]);
    assert !DeletePreserved(subB, subA);
  }

  /** The invented genome holds a cell that matches no cell of the original at any depth. */
  lemma InventedCellIsNew()
    ensures PlainCell(1, 1.0) in Rollout(InventedGenome())
    ensures forall y | y in Rollout(OriginalGenome()) :: !SameIgnoringFunction(PlainCell(1, 1.0), y)
  {
    OriginalAndInventedRollouts();
  }

  /**
   * The as-written deletion check accepts a nested cell that did not exist
   * before, which the intended check rejects.
   */
  lemma DeleteAsWrittenAcceptsInventedNestedCell()
    ensures DeleteAsWritten(OriginalGenome(), InventedGenome())
    ensures !DeletePreserved(OriginalGenome(), InventedGenome())
    ensures PlainCell(1, 1.0) in Rollout(InventedGenome())
    ensures forall y | y in Rollout(OriginalGenome()) :: !SameIgnoringFunction(PlainCell(1, 1.0), y)
  {
    InventedCellIsNew();
    DeleteAsWrittenAcceptsInventedGenome();
    DeletePreservedRejectsInventedGenome();
  }

  /* ---------------------------------------------------------------- */
  /* Translation                                                       */
  /* ---------------------------------------------------------------- */

  /** The rollout of a sequence of top-level cells. */
  ghost function CellsRollout(cells: seq<Cell>): set<Cell>
  {
    if cells == [] then {} else CellsRollout(cells[..|cells| - 1]) + CellRollout(cells[|cells| - 1])
  }

  lemma {:induction false} RolloutUpToIsCellsRollout(g: Genome, n: nat)
    requires n <= |g.cells|
    ensures RolloutUpTo(g, n) == CellsRollout(g.cells[..n])
  {
    if n > 0 {
      RolloutUpToIsCellsRollout(g, n - 1);
      assert g.cells[..n][..n - 1] == g.cells[..n - 1];
    }
  }

  lemma {:induction false} CellsRolloutAppend(p: seq<Cell>, q: seq<Cell>)
    ensures CellsRollout(p + q) == CellsRollout(p) + CellsRollout(q)
    decreases |q|
  {
    if q != [] {
      CellsRolloutAppend(p, q[..|q| - 1]);
      assert (p + q)[..|p + q| - 1] == p + q[..|q| - 1];
    } else {
      assert p + q == p;
    }
  }

  lemma RolloutIsCellsRollout(g: Genome)
    ensures Rollout(g) == CellsRollout(g.cells)
  {
    RolloutUpToIsCellsRollout(g, |g.cells|);
    assert g.cells[..|g.cells|] == g.cells;
  }

  /** Reordering the top-level cells is an accepted translation. */
  lemma TranslateAllowsReordering(g: Genome, h: Genome)
    requires multiset(g.cells) == multiset(h.cells)
    ensures TranslatePreserved(g, h)
  {
    forall x | x in Rollout(g) ensures x in Rollout(h) {
      RolloutMembers(g, x);
      var k :| 0 <= k < |g.cells| && x in CellRollout(g.cells[k]);
      assert g.cells[k] in multiset(h.cells);
      var m :| 0 <= m < |h.cells| && h.cells[m] == g.cells[k];
      RolloutMembers(h, x);
    }
    forall x | x in Rollout(h) ensures x in Rollout(g) {
      RolloutMembers(h, x);
      var k :| 0 <= k < |h.cells| && x in CellRollout(h.cells[k]);
      assert h.cells[k] in multiset(g.cells);
      var m :| 0 <= m < |g.cells| && g.cells[m] == h.cells[k];
      RolloutMembers(g, x);
    }
  }

  lemma CellsRolloutOfOne(c: Cell)
    ensures CellsRollout([c]) == CellRollout(c)
  {
    assert [c][..0] == [];
  }

  /** `p`, then `c`, then `q`, rolled out. */
  lemma CellsRolloutAround(p: seq<Cell>, c: Cell, q: seq<Cell>)
    ensures CellsRollout(p + [c] + q) == CellsRollout(p) + CellRollout(c) + CellsRollout(q)
  {
    CellsRolloutAppend(p + [c], q);
    CellsRolloutAppend(p, [c]);
    CellsRolloutOfOne(c);
  }

  /**
   * Promoting an embedded sub-genome to the parent level, right behind its
   * owner (whose own buffer becomes empty), is an accepted translation; so,
   * by symmetry, is the reverse move.
   */
  lemma TranslateAllowsPromotion(size1: nat, size2: nat, p: seq<Cell>, c: Cell, q: seq<Cell>)
    requires HasSubGenome(c)
    ensures TranslatePreserved(
              Genome(size1, p + [c] + q),
              Genome(size2, p + [WithEmptySubGenome(c)] + SubGenomeOf(c).cells + q))
  {
    var s := SubGenomeOf(c);
    var e := WithEmptySubGenome(c);
    RolloutIsCellsRollout(Genome(size1, p + [c] + q));
    RolloutIsCellsRollout(Genome(size2, p + [e] + s.cells + q));
    RolloutIsCellsRollout(s);
    CellsRolloutAround(p, c, q);
    assert CellRollout(c) == Rollout(s) + {e};
    assert p + [e] + s.cells + q == p + [e] + (s.cells + q);
    CellsRolloutAround(p, e, s.cells + q);
    CellsRolloutAppend(s.cells, q);
    assert CellRollout(e) == {e} by {
      assert WithEmptySubGenome(e) == e;
      assert Rollout(Genome(0, [])) == {};
    }
  }

  /* ---------------------------------------------------------------- */
  /* How the relations differ                                          */
  /* ---------------------------------------------------------------- */

  /** Properties, NeuronData and Structure reject any change of byte length. */
  lemma ByteLengthIsChecked(e: Genome, a: Genome)
    requires e.size != a.size
    ensures !PropertiesPreserved(e, a) && !NeuronDataPreserved(e, a) && !StructurePreserved(e, a)
  {
  }

  /** The cells with their cell functions (and so their sub-genomes) reset. */
  function WithoutFunctions(cells: seq<Cell>): (r: seq<Cell>)
    ensures |r| == |cells|
    ensures forall k | 0 <= k < |cells| :: r[k] == WithoutFunction(cells[k])
  {
    seq(|cells|, k requires 0 <= k < |cells| => WithoutFunction(cells[k]))
  }

  /**
   * The CellFunction check neither looks at the byte length nor at any
   * cell function, hence at no sub-genome.
   */
  lemma CellFunctionIgnoresLengthAndSubGenomes(e: Genome, a: Genome, size: nat, nearZero: real)
    ensures CellFunctionPreserved(e, a, nearZero) <==>
            CellFunctionPreserved(e, Genome(size, WithoutFunctions(a.cells)), nearZero)
  {
  }

  /**
   * Properties and Structure are incomparable: the first lets energy
   * change, the second lets the reference angle change.
   */
  lemma PropertiesAndStructureAreIncomparable()
    ensures var g := Genome(1, [PlainCell(1, 0.0)]);
            var energyChanged := Genome(1, [PlainCell(1, 0.0).(energy := 1.0)]);
            var angleChanged := Genome(1, [PlainCell(1, 1.0)]);
            && PropertiesPreserved(g, energyChanged) && !StructurePreserved(g, energyChanged)
            && StructurePreserved(g, angleChanged) && !PropertiesPreserved(g, angleChanged)
  {
    var c := PlainCell(1, 0.0);
    var energyChanged := Genome(1, [c.(energy := 1.0)]);
    assert CompareClone(c).energy != CompareClone(energyChanged.cells[0]).energy;
    assert CompareClone(c) == CompareClone(PlainCell(1, 1.0));
  }
}
