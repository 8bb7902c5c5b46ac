# alien: mutation checks, test helpers and editor logic in Dafny

This project models parts of alien, an artificial-life simulator with a
GPU engine and a Qt editor. It covers:

- **Genome mutation checks.** The engine tests decide whether a mutated
  genome still keeps what a mutation must keep. A genome is a sequence
  of cells. A Constructor or Injector cell either carries a nested genome
  or makes a copy of its own genome. The relations covered are
  `comparePropertiesMutation`, `compareNeuronDataMutation`,
  `compareStructureMutation`, `compareCellFunctionMutation`,
  `compareInsertMutation`, `compareDeleteMutation`,
  `compareTranslateMutation` and `compareColorMutation`. Also covered:
  the `rollout` flattening they rely on, and the two fixture genomes the
  tests build.
- **Integration-test helpers.** These are the id-keyed maps over cells,
  clusters and particles, the before/after join of cells by id, and the
  `checkCompatibility` overloads.
- **Toroidal universe.** The wrap of positions into the universe and the
  grid of compartments.
- **Image rendering from the GPU model.** This covers alpha blending of a
  pixel and the five-pixel stamp of a cell.
- **Editor logic.** This covers:
  - the cell item's palette choice, defaults, connectability and focus
    lightness;
  - the metadata editor's colour row, name row and swallowed keys;
  - the action controller's hex clipboard for token memory and its
    action-enable table.

A genome's bytes are represented as `Genome(size, cells)`: the byte
length of the buffer and the cells it decodes to. The binary codec
itself is not modelled.

Module layout:

| module | models |
|---|---|
| `Wrappers` | the `Option` type shared by the other modules |
| `GenomeModel` | cells, cell functions, nested genomes, `rollout` |
| `MutationChecks` | the `compare*Mutation` relations |
| `MutationProperties` | lemmas relating those relations |
| `GenomeFixtures` | the two fixture genomes |
| `TestHelper` | the integration-test helper maps and the before/after join |
| `Compatibility` | `checkCompatibility` |
| `UnitGrid` | wrap and compartments |
| `ImageRender` | `colorPixel` and image creation |
| `CellItemView` | the cell item |
| `MetadataEdit` | the metadata editor |
| `Actions` | the action controller |

The code was followed throughout. Where it departs from what it
evidently means to do, the departure is modelled as written and listed
under "## Findings".

## Model

| member | source | states |
|---|---|---|
| GenomeModel.CellRollout | source/EngineTests/MutationTests.cpp:89-98 | The cells one top-level cell contributes: its sub-genome's rollout plus the emptied clone, or the cell itself. Its contents are stated by RolloutMembers and RolloutContainsEveryNestedCell |
| GenomeModel.RolloutUpTo | source/EngineTests/MutationTests.cpp:88-99 | The rollout of the first n cells, as the loop has built it after n iterations. RolloutInto's loop invariant is stated with it |
| GenomeModel.Rollout | source/EngineTests/MutationTests.cpp:87-100 | The set `rollout` leaves in an empty accumulator. RolloutContainsEveryNestedCell and RolloutOnlyHoldsNestedCells characterise it as exactly the flattened nested cells |
| GenomeModel.WithEmptySubGenome | source/EngineTests/MutationTests.cpp:92-94 | The clone inserted for a cell with a sub-genome has the same function type and fields, and its sub-genome is empty |
| GenomeModel.Flattened | source/EngineTests/MutationTests.cpp:89-97 | A rolled-out cell never carries a non-empty sub-genome. Apart from that it equals the original cell, with the same function type |
| GenomeModel.RolloutInto | source/EngineTests/MutationTests.cpp:87-100 | The recursive `rollout` that inserts into a set accumulator adds exactly the flattened cells of every nesting level to what the set held |
| GenomeModel.RolloutMembers | source/EngineTests/MutationTests.cpp:89-99 | A cell is in a genome's rollout iff it is in the rollout of one of its top-level cells |
| GenomeModel.RolloutContainsEveryNestedCell | source/EngineTests/MutationTests.cpp:87-100 | Every cell at any nesting path ends up in the rollout, with its sub-genome emptied |
| GenomeModel.RolloutOnlyHoldsNestedCells | source/EngineTests/MutationTests.cpp:87-100 | Every member of the rollout is the flattened form of a cell at some nesting path. With the previous row, the rollout is exactly the set of nested cells |
| GenomeModel.RolloutHasNoNestedCells | source/EngineTests/MutationTests.cpp:92-94 | No element of a rollout carries a non-empty sub-genome |
| GenomeModel.RolloutColors | source/EngineTests/MutationTests.cpp:87-100 | All colours of a rollout are in a set iff each top-level cell's colour is in it and so are all colours of each sub-genome's rollout |
| MutationChecks.PropertiesKept | source/EngineTests/MutationTests.cpp:114-125 | The per-cell part of `comparePropertiesMutation`: equal function type, colour, reference angle and required connections. PropertiesAtEveryDepth states it at every path |
| MutationChecks.PropertiesPreserved | source/EngineTests/MutationTests.cpp:102-152 | `comparePropertiesMutation`: equal byte length and cell count, PropertiesKept for each pair, and for a Constructor/Injector an equal make-copy flag and a recursive check of non-copy sub-genomes. Its properties are PropertiesReflexive, PropertiesAtEveryDepth and ByteLengthIsChecked |
| MutationChecks.NeuronDataMayDiffer | source/EngineTests/MutationTests.cpp:169-170 | The function types whose cells the neuron-data check lets change: Neuron, Constructor and Injector |
| MutationChecks.NeuronDataPreserved | source/EngineTests/MutationTests.cpp:154-203 | `compareNeuronDataMutation`: equal byte length and cell count, and for each pair an equal type and colour. Cells of any other type must be fully equal, and non-copy sub-genomes recurse. Stated by NeuronDataReflexive and NeuronDataAtEveryDepth |
| MutationChecks.StructurePreserved | source/EngineTests/MutationTests.cpp:205-265 | `compareStructureMutation`: equal byte length and cell count, equal CompareClone of each pair, and recursion into non-copy sub-genomes. Stated by StructureReflexive and StructureAtEveryDepth |
| MutationChecks.ScalarsKept | source/EngineTests/MutationTests.cpp:275-295 | The per-cell part of `compareCellFunctionMutation`: angle and energy within the tolerance, and colour, required connections, both execution-order numbers and output blocking equal |
| MutationChecks.CellFunctionPreserved | source/EngineTests/MutationTests.cpp:267-298 | `compareCellFunctionMutation`: an equal cell count and ScalarsKept for each pair, with no length check and no recursion. Stated by CellFunctionReflexive and CellFunctionIgnoresLengthAndSubGenomes |
| MutationChecks.InsertMatch | source/EngineTests/MutationTests.cpp:312-340 | For one "before" cell and an "after" cell: equal once the function is dropped. A Constructor/Injector also needs make-copy on both sides or the insert check to pass on both sub-genomes |
| MutationChecks.InsertPreserved | source/EngineTests/MutationTests.cpp:300-343 | `compareInsertMutation`: every cell of the "after" rollout has a fixture colour, and every "before" cell has an InsertMatch among the "after" cells. Stated by InsertKeepsEveryCell and InsertSelfIffFixtureColors |
| MutationChecks.DeleteMatchAsWritten | source/EngineTests/MutationTests.cpp:357-385 | The per-cell match of `compareDeleteMutation` as written: for a Constructor/Injector "after" cell, its nested step passes the "before" sub-genome as both arguments. DeleteAsWrittenNestedStepIsColorCheck states what it reduces to |
| MutationChecks.DeleteAsWritten | source/EngineTests/MutationTests.cpp:345-388 | `compareDeleteMutation` as written: fixture colours in the "after" rollout, and a DeleteMatchAsWritten among the "before" cells for every "after" cell. DeleteAsWrittenAcceptsInventedNestedCell shows what it lets through |
| MutationChecks.DeleteMatch | source/EngineTests/MutationTests.cpp:357-385 | The per-cell match with the nested step corrected to compare the "before" sub-genome with the "after" one |
| MutationChecks.DeletePreserved | source/EngineTests/MutationTests.cpp:345-388 | The corrected `compareDeleteMutation`. DeleteKeepsOnlyOldCells states its guarantee |
| MutationChecks.TranslatePreserved | source/EngineTests/MutationTests.cpp:390-401 | `compareTranslateMutation`: equal rollout sets. Stated by TranslateIsEquivalence, TranslateAllowsReordering and TranslateAllowsPromotion |
| MutationChecks.ColorPreserved | source/EngineTests/MutationTests.cpp:403-433 | `compareColorMutation`: zipped cells equal once colour and function are dropped, every "after" colour allowed, and Constructor/Injector sub-genomes compared recursively when both exist. Stated by ColorSelfIffColorsAllowed and ColorAtEveryDepth |
| MutationChecks.CompareClone | source/EngineTests/MutationTests.cpp:216-233 | The structure comparison's clone zeroes the reference angle and the number of required connections. It keeps type, make-copy flag, colour, energy, execution-order numbers and output blocking |
| MutationProperties.PropertiesReflexive | source/EngineTests/MutationTests.cpp:102-152 | Every genome passes the properties check against itself, through every nested sub-genome |
| MutationProperties.NeuronDataReflexive | source/EngineTests/MutationTests.cpp:154-203 | Every genome passes the neuron-data check against itself |
| MutationProperties.StructureReflexive | source/EngineTests/MutationTests.cpp:205-265 | Every genome passes the structure check against itself |
| MutationProperties.CellFunctionReflexive | source/EngineTests/MutationTests.cpp:267-298 | Every genome passes the cell-function check against itself, for any non-negative tolerance |
| MutationProperties.TranslateIsEquivalence | source/EngineTests/MutationTests.cpp:390-401 | The translate check is reflexive, symmetric and transitive, because it compares rollout sets for equality |
| MutationProperties.ColorSelfIffColorsAllowed | source/EngineTests/MutationTests.cpp:403-433 | A genome passes the colour check against itself iff every colour at every depth is in the allowed set |
| MutationProperties.InsertSelfIffFixtureColors | source/EngineTests/MutationTests.cpp:300-343 | A genome passes the insert check against itself iff all its nested colours are among the fixture colours {1, 4, 5} |
| MutationProperties.PropertiesAtEveryDepth | source/EngineTests/MutationTests.cpp:102-152 | When the properties check passes, every nested cell has a counterpart at the same path with equal type, colour, angle, required connections and make-copy flag |
| MutationProperties.NeuronDataAtEveryDepth | source/EngineTests/MutationTests.cpp:154-203 | When the neuron-data check passes, every nested cell keeps type and colour, and each one that is not Neuron, Constructor or Injector is unchanged |
| MutationProperties.StructureAtEveryDepth | source/EngineTests/MutationTests.cpp:205-265 | When the structure check passes, every nested cell agrees with its counterpart in every field except angle and required connections |
| MutationProperties.ColorAtEveryDepth | source/EngineTests/MutationTests.cpp:403-433 | When the colour check passes, cells paired at the same path differ at most in colour and function, and each "after" colour is allowed |
| MutationProperties.InsertKeepsEveryCell | source/EngineTests/MutationTests.cpp:300-343 | When the insert check passes, each cell of the "before" rollout has a cell equal to it, function aside, in the "after" rollout |
| MutationProperties.DeleteKeepsOnlyOldCells | source/EngineTests/MutationTests.cpp:345-388 | With the nested comparison corrected, the delete check guarantees that each cell of the "after" rollout was already in the "before" rollout, function aside |
| MutationProperties.DeleteAsWrittenSelfIsColorCheck | source/EngineTests/MutationTests.cpp:345-388 | The delete check as written, applied to a genome and itself, reduces to the colour check on all its nested cells |
| MutationProperties.DeleteAsWrittenNestedStepIsColorCheck | source/EngineTests/MutationTests.cpp:370-383 | As written, the nested step for a Constructor/Injector pair checks only the "before" sub-genome's colours and never looks at the "after" sub-genome |
| MutationProperties.DeleteAsWrittenAcceptsInventedNestedCell | source/EngineTests/MutationTests.cpp:377-380 | A concrete pair that the as-written delete check accepts even though "after" holds a nested cell absent from "before". The corrected check rejects it |
| MutationProperties.DeletePreservedRejectsInventedGenome | source/EngineTests/MutationTests.cpp:345-388 | The corrected delete check rejects that pair |
| MutationProperties.TranslateAllowsReordering | source/EngineTests/MutationTests.cpp:390-401 | Permuting the top-level cells passes the translate check |
| MutationProperties.TranslateAllowsPromotion | source/EngineTests/MutationTests.cpp:390-401 | Moving a sub-genome's cells up next to their emptied owner passes the translate check, whatever the byte lengths |
| MutationProperties.ByteLengthIsChecked | source/EngineTests/MutationTests.cpp:104-106 | Genomes of different byte length fail the properties, neuron-data and structure checks |
| MutationProperties.CellFunctionIgnoresLengthAndSubGenomes | source/EngineTests/MutationTests.cpp:267-298 | The cell-function check depends neither on byte length nor on the functions or sub-genomes of the "after" cells |
| MutationProperties.PropertiesAndStructureAreIncomparable | source/EngineTests/MutationTests.cpp:102-265 | Neither of the properties and structure checks implies the other. A changed energy passes only the first; a changed angle passes only the second |
| GenomeFixtures.Encoded | source/EngineTests/MutationTests.cpp:32-38 | Encoding a description keeps its cells. Only the byte length is left to the codec |
| GenomeFixtures.Described | source/EngineTests/MutationTests.cpp:33-37 | A fixture cell has the given colour and function and default values otherwise |
| GenomeFixtures.Level | source/EngineTests/MutationTests.cpp:32-38 | A fixture level has five cells with the given colours. Only the last one holds the previous level as its sub-genome |
| GenomeFixtures.DepthIsLargestCellDepth | source/EngineTests/MutationTests.cpp:31-39 | A genome's nesting depth is the largest depth of its cells |
| GenomeFixtures.TopLevelTypes | source/EngineTests/MutationTests.cpp:40-53 | The list of top-level function types is the type of each cell in order |
| GenomeFixtures.MultiFunctionTypesCoverAll | source/EngineTests/MutationTests.cpp:40-53 | The multi-function fixture's top level uses every cell-function type |
| GenomeFixtures.MultiFunctionTop | source/EngineTests/MutationTests.cpp:40-53 | The multi-function top level has 12 cells. Exactly cells 4 (Constructor) and 8 (Injector) hold the sub-genome |
| GenomeFixtures.MultiFunctionTopCells | source/EngineTests/MutationTests.cpp:40-53 | Each top-level cell has a fixture colour and the listed function type |
| GenomeFixtures.UniformTop | source/EngineTests/MutationTests.cpp:70-83 | The uniform fixture's top level has 12 cells of colour 1. Cells 4 and 8 hold the sub-genome |
| GenomeFixtures.MultiFunctionTopFacts | source/EngineTests/MutationTests.cpp:40-53 | On top of a valid sub-genome, the top level keeps fixture colours and adds one level of depth. It passes the insert and delete checks against itself |
| GenomeFixtures.BuildMultiFunctionGenome | source/EngineTests/MutationTests.cpp:28-54 | The fixture builder's genome has 12 top-level cells of all function types, nesting depth 16 and only fixture colours. It passes the insert and delete checks against itself |
| GenomeFixtures.BuildUniformColorGenome | source/EngineTests/MutationTests.cpp:56-85 | The uniform fixture has one colour per level, depth 16 and only fixture colours, and passes the colour check against itself |
| TestHelper.LastWins | source/Tests/IntegrationTestHelper.cpp:101-112 | The map that `insert_or_assign` builds from a list of entries. LastWinsKeepsLastEntry and KeysAreEntryKeys state its contents |
| TestHelper.FirstWins | source/Tests/IntegrationTestHelper.cpp:88-99 | The map that inserting through `std::inserter` builds from a list of entries. FirstWinsKeepsFirstEntry and KeysAreEntryKeys state its contents |
| TestHelper.KeysAreEntryKeys | source/Tests/IntegrationTestHelper.cpp:101-136 | A map filled from a list of entries has exactly the entries' ids as keys |
| TestHelper.LastWinsKeepsLastEntry | source/Tests/IntegrationTestHelper.cpp:108 | With `insert_or_assign`, an id maps to the last entry carrying it |
| TestHelper.FirstWinsKeepsFirstEntry | source/Tests/IntegrationTestHelper.cpp:94-96 | With `std::inserter`, an id maps to the first entry carrying it |
| TestHelper.PoliciesAgreeOnDistinctKeys | source/Tests/IntegrationTestHelper.cpp:88-112 | Both policies build the same map when ids are distinct |
| TestHelper.PoliciesDifferOnDuplicates | source/Tests/IntegrationTestHelper.cpp:88-112 | On a duplicated id the two policies keep different entries |
| TestHelper.GetCellByCellId | source/Tests/IntegrationTestHelper.cpp:101-112 | The map is empty without clusters. Otherwise it is the last-wins map of all cells of all clusters, and every cell sits under its own id |
| TestHelper.GetClusterByCellId | source/Tests/IntegrationTestHelper.cpp:114-125 | Each cell id maps to the last cluster that contains it; the map is empty without clusters |
| TestHelper.GetClusterByClusterId | source/Tests/IntegrationTestHelper.cpp:127-136 | Each cluster id maps to the last cluster with that id; the map is empty without clusters |
| TestHelper.GetParticleByParticleId | source/Tests/IntegrationTestHelper.cpp:88-99 | Each particle id maps to the first particle with that id; the map is empty without particles |
| TestHelper.IterationOrder | source/Tests/IntegrationTestHelper.cpp:71 | Walking an `unordered_map` visits each key exactly once, in some order |
| TestHelper.JoinPairsJoin | source/Tests/IntegrationTestHelper.cpp:71-84 | Joining over any order of an id set yields one pair per id, with each side present iff the id is on that side |
| TestHelper.PairBeforeCells | source/Tests/IntegrationTestHelper.cpp:71-78 | The first loop emits, for each "before" id in walk order, the before cell and the after cell if there is one |
| TestHelper.AppendAfterOnlyCells | source/Tests/IntegrationTestHelper.cpp:79-84 | The second loop appends a pair with no "before" side for exactly the ids found only after |
| TestHelper.JoinByCellId | source/Tests/IntegrationTestHelper.cpp:71-84 | The two loops emit exactly one pair per id of the union, and no pair is empty. The count is the size of the union, and the pairs with a "before" side come first |
| TestHelper.GetBeforeAndAfterCells | source/Tests/IntegrationTestHelper.cpp:63-86 | The same join over the cells of two data descriptions, keyed by cell id |
| Compatibility.Plain | source/Tests/IntegrationTestFramework.h:85-91 | Plain values are compatible iff they are equal |
| Compatibility.OptionalCompat | source/Tests/IntegrationTestFramework.h:93-106 | Absent expected values are always compatible and present vs absent is not. Two present values are compared as values |
| Compatibility.OptionalPlainIsEqualityWhereExpected | source/Tests/IntegrationTestFramework.h:93-106 | On plain values, optional compatibility means that the first is absent or both are equal |
| Compatibility.OptionalNotSymmetric | source/Tests/IntegrationTestFramework.h:96-105 | Optional compatibility is not symmetric |
| Compatibility.VectorCompat | source/Tests/IntegrationTestFramework.h:108-117 | The size expectation fails iff the sizes differ. The result is the element-wise conjunction over the first vector, and there is no result (an exception) when the second is shorter |
| Compatibility.ListCompat | source/Tests/IntegrationTestFramework.h:119-130 | The size expectation fails iff the sizes differ. Lists of different sizes still return true; otherwise the result is element-wise compatibility |
| Compatibility.PointwisePlainIsEquality | source/Tests/IntegrationTestFramework.h:108-117 | For equal lengths, element-wise plain compatibility is equality |
| Compatibility.PointwiseIgnoresTail | source/Tests/IntegrationTestFramework.h:108-117 | Extra elements at the end of the second vector are never looked at |
| Compatibility.PointwiseReflexive | source/Tests/IntegrationTestFramework.h:108-117 | A vector is compatible with itself when the element relation is reflexive |
| UnitGrid.Wrap | source/tests/unittests/UnitGridTest.cpp:52 | One axis of the correction, `((p % n) + n) % n` with C++ remainders. WrapIsEuclideanRemainder equates it with the mathematical remainder |
| UnitGrid.CorrectUniversePosition | source/tests/unittests/UnitGridTest.cpp:50-53 | `correctUniversePosition`: the wrap on both axes. CorrectedPositionInUniverse, CorrectionKeepsInsidePositions, CorrectionIdempotent, CorrectionIsCongruent and CorrectionIsPeriodic state its properties |
| UnitGrid.CompartmentRect | source/tests/unittests/UnitGridTest.cpp:62-70 | The rect the test expects for compartment (x, y). CompartmentsAbut and CompartmentOfPoint state how the rects tile |
| UnitGrid.CRem | source/tests/unittests/UnitGridTest.cpp:52 | The C++ remainder has the sign of the dividend and is smaller than the divisor in magnitude |
| UnitGrid.WrapIsEuclideanRemainder | source/tests/unittests/UnitGridTest.cpp:50-53 | `((p % n) + n) % n` with C++ remainders is the mathematical remainder |
| UnitGrid.CorrectedPositionInUniverse | source/tests/unittests/UnitGridTest.cpp:50-53 | A corrected position lies in [0, size) on each axis, for any input including negative ones |
| UnitGrid.CorrectionKeepsInsidePositions | source/tests/unittests/UnitGridTest.cpp:50-53 | The correction is the identity on positions inside the universe |
| UnitGrid.CorrectionIdempotent | source/tests/unittests/UnitGridTest.cpp:50-53 | Correcting twice is correcting once |
| UnitGrid.CorrectionIsCongruent | source/tests/unittests/UnitGridTest.cpp:50-53 | The corrected position is congruent to the input modulo the size on each axis |
| UnitGrid.CorrectionIsPeriodic | source/tests/unittests/UnitGridTest.cpp:50-53 | Adding whole universe sizes does not change the corrected position |
| UnitGrid.NeighboursDistinct | source/ModelGpu/SimulationAccessGpuImpl.cpp:184-198 | On an axis of at least three positions, a position and its two wrapped neighbours are three distinct positions |
| UnitGrid.CompartmentSize | source/tests/unittests/UnitGridTest.cpp:42 | The compartment size is the integer quotient of universe size by grid size: the largest size whose multiple fits in the universe |
| UnitGrid.CompartmentsAbut | source/tests/unittests/UnitGridTest.cpp:60-71 | Each compartment rect starts one past the end of its left and upper neighbour |
| UnitGrid.CompartmentOfPoint | source/tests/unittests/UnitGridTest.cpp:60-71 | A point lies in compartment (x, y) iff (x, y) is its position divided by the compartment size, so the rects neither overlap nor leave gaps |
| UnitGrid.GridCoversUniverse | source/tests/unittests/UnitGridTest.cpp:42-71 | Every point of the covered part of the universe lies in a compartment of the grid |
| ImageRender.Pack | source/ModelGpu/SimulationAccessGpuImpl.cpp:158 | `qRgb(r, g, b)`. PackRoundTrip and UnpackRoundTrip relate it to the channel getters |
| ImageRender.TDiv | source/ModelGpu/SimulationAccessGpuImpl.cpp:155-157 | C++ `int` division, truncating toward zero |
| ImageRender.BlendChannel | source/ModelGpu/SimulationAccessGpuImpl.cpp:155-157 | One channel of the blend, (c·a + o·(255−a)) / 255. BlendChannelBetween bounds it |
| ImageRender.Blend | source/ModelGpu/SimulationAccessGpuImpl.cpp:153-158 | The pixel `colorPixel` writes. BlendChannels, BlendBetween, BlendOpaque and BlendTransparent state its meaning |
| ImageRender.PackRoundTrip | source/ModelGpu/SimulationAccessGpuImpl.cpp:155-158 | `qRgb` keeps the low byte of each channel and gives an opaque pixel |
| ImageRender.UnpackRoundTrip | source/ModelGpu/SimulationAccessGpuImpl.cpp:153-158 | Packing a pixel's own channels gives the pixel with full alpha |
| ImageRender.BlendChannelBetween | source/ModelGpu/SimulationAccessGpuImpl.cpp:155-157 | A blended channel lies between the new and the original channel, so it stays in [0, 255] |
| ImageRender.BlendChannels | source/ModelGpu/SimulationAccessGpuImpl.cpp:155-158 | Each channel of the blended pixel is (c·a + o·(255−a)) / 255 of the channels of the two pixels |
| ImageRender.BlendBetween | source/ModelGpu/SimulationAccessGpuImpl.cpp:155-158 | Each channel of the blended pixel lies between those of the two pixels |
| ImageRender.BlendOpaque | source/ModelGpu/SimulationAccessGpuImpl.cpp:155-158 | At alpha 255 the pixel takes the new colour exactly |
| ImageRender.BlendTransparent | source/ModelGpu/SimulationAccessGpuImpl.cpp:155-158 | At alpha 0 the pixel keeps its original colour exactly |
| ImageRender.WithPixel | source/ModelGpu/SimulationAccessGpuImpl.cpp:158 | `setPixel` changes only the pixel at its position and does nothing outside the image |
| ImageRender.ColorPixelSpec | source/ModelGpu/SimulationAccessGpuImpl.cpp:151-159 | `colorPixel` blends the pixel at its position and leaves every other pixel as it was |
| ImageRender.StampSpec | source/ModelGpu/SimulationAccessGpuImpl.cpp:181-198 | The image after one cell's stamp: the centre set, then blends along the walk of `intPos`. StampEffect states which pixels change |
| ImageRender.StampPathIsNeighbours | source/ModelGpu/SimulationAccessGpuImpl.cpp:184-198 | The stamp's walk (x−1, x+1 after moving back, y−1, y+1) visits the four wrapped neighbours of the centre |
| ImageRender.BlendAlongEffect | source/ModelGpu/SimulationAccessGpuImpl.cpp:184-198 | Blending along a path without repeats blends each pixel on the path once and leaves the others alone |
| ImageRender.NeighboursAreDistinct | source/ModelGpu/SimulationAccessGpuImpl.cpp:184-198 | In a universe at least 3 wide and high, the four neighbours are distinct and differ from the centre |
| ImageRender.StampEffect | source/ModelGpu/SimulationAccessGpuImpl.cpp:184-198 | A stamp sets the centre to the cell colour and blends the four neighbours at alpha 0x60. Nothing else changes |
| ImageRender.ReadPixel | source/ModelGpu/SimulationAccessGpuImpl.cpp:154 | `pixel` reads the image's value. Outside the image it gives Qt's out-of-range value 12345, which the following `setPixel` never writes back |
| ImageRender.SetPixel | source/ModelGpu/SimulationAccessGpuImpl.cpp:158 | Writing a pixel changes the image as `WithPixel` says |
| ImageRender.Filled | source/ModelGpu/SimulationAccessGpuImpl.cpp:166 | The filled image has the given size and colour everywhere |
| ImageRender.Fill | source/ModelGpu/SimulationAccessGpuImpl.cpp:166 | `fill` paints every pixel the background colour |
| ImageRender.ColorPixel | source/ModelGpu/SimulationAccessGpuImpl.cpp:151-159 | The in-place `colorPixel` changes the image as its specification says |
| ImageRender.StampCell | source/ModelGpu/SimulationAccessGpuImpl.cpp:181-198 | The in-place five-pixel stamp changes the image as the stamp specification says |
| ImageRender.DrawParticlesInto | source/ModelGpu/SimulationAccessGpuImpl.cpp:171-177 | The particle loop sets, in order, the pixel at each particle's corrected position to its colour |
| ImageRender.StampCellsInto | source/ModelGpu/SimulationAccessGpuImpl.cpp:179-199 | The cell loop stamps each cell in order |
| ImageRender.CreateImage | source/ModelGpu/SimulationAccessGpuImpl.cpp:161-202 | The image is the background, then each particle's pixel, then each cell's stamp in order |
| ImageRender.BlendAlongUntouched | source/ModelGpu/SimulationAccessGpuImpl.cpp:184-198 | A pixel off the path is untouched by the blends |
| ImageRender.StampUntouched | source/ModelGpu/SimulationAccessGpuImpl.cpp:181-198 | A pixel the stamp does not cover keeps its value |
| ImageRender.UncoveredPixelKeepsBackground | source/ModelGpu/SimulationAccessGpuImpl.cpp:161-202 | A pixel hit by no particle and covered by no cell stamp stays the background colour |
| ImageRender.LastCellShowsItsColor | source/ModelGpu/SimulationAccessGpuImpl.cpp:179-199 | The centre of the last cell drawn shows that cell's colour exactly |
| CellItemView.GetColorCode | source/Gui/CellItem.cpp:216-219 | The colour code is a byte. It is 0 without metadata and the metadata colour when that fits in a byte |
| CellItemView.ColorCodeWraps | source/Gui/CellItem.cpp:216-219 | Colours that differ by a multiple of 256 give the same code (the `uint8_t` truncation) |
| CellItemView.SelectPaletteColor | source/Gui/CellItem.cpp:61-75 | The paint colour is the palette entry at the colour code modulo 7, always one of the seven entries |
| CellItemView.GetBranchNumber | source/Gui/CellItem.cpp:199-202 | The branch number is the cell's value, 0 when absent |
| CellItemView.GetNumToken | source/Gui/CellItem.cpp:204-207 | The token count is the number of tokens, 0 when the field is absent |
| CellItemView.ToSizeT | source/Gui/CellItem.cpp:209-214 | The conversion to `size_t` lies in [0, 2^64) and keeps values already in range |
| CellItemView.IsConnectable | source/Gui/CellItem.cpp:209-214 | `isConnectable`: fewer connections than the maximum converted to `size_t`, both defaulting to 0. Characterised by WithoutMaximumNeverConnectable, ConnectableBelowMaximum and NegativeMaximumWrapsAround |
| CellItemView.WithoutMaximumNeverConnectable | source/Gui/CellItem.cpp:209-214 | A cell without a maximum number of connections is never connectable |
| CellItemView.ConnectableBelowMaximum | source/Gui/CellItem.cpp:209-214 | With a non-negative maximum, connectable means fewer connections than the maximum |
| CellItemView.NegativeMaximumWrapsAround | source/Gui/CellItem.cpp:209-214 | A negative maximum converts to a huge unsigned value, so the cell counts as connectable |
| CellItemView.GetConnectedIds | source/Gui/CellItem.cpp:137-147 | The result is the connection cell ids in order, empty when there are no connections |
| CellItemView.FocusLightness | source/Gui/CellItem.cpp:164-180 | The fill lightness for a focus state. AdaptColorForFocus is proved against it, and AdaptationsAreMonotone and ConnectableNeverDarker state its properties |
| CellItemView.BoundaryLightness | source/Gui/CellItem.cpp:182-197 | The boundary lightness for a focus state. AdaptColorForBoundary is proved against it, and BoundaryFollowsFocus states its order |
| CellItemView.CellItem.constructor | source/Gui/CellItem.cpp:37-49 | A new item holds the given description, as `update` stores it, and the given initial focus state |
| CellItemView.CellItem.SetFocusState | source/Gui/CellItem.cpp:154-157 | The focus state becomes the given one and the description is kept |
| CellItemView.CellItem.AdaptColorForFocus | source/Gui/CellItem.cpp:164-180 | Hue and saturation are kept. Lightness is dimmed by 30 (floored at 0) for a non-connectable cell, then set to 190 for a focused cell or raised by 20 (capped at 255) for its cluster |
| CellItemView.CellItem.AdaptColorForBoundary | source/Gui/CellItem.cpp:182-197 | Hue and saturation are kept. Lightness drops 60 (floored at 0) without focus, rises 15 (capped at 255) for the cluster, and is 255 for the focused cell |
| CellItemView.AdaptationsAreMonotone | source/Gui/CellItem.cpp:164-197 | Both adaptations keep the order of lightnesses |
| CellItemView.ConnectableNeverDarker | source/Gui/CellItem.cpp:164-180 | A connectable cell is never filled darker than a non-connectable one |
| CellItemView.BoundaryFollowsFocus | source/Gui/CellItem.cpp:182-197 | The boundary gets lighter from no focus, to the cluster, to the focused cell |
| MetadataEdit.NameRowText | source/Gui/MetadataEditWidget.cpp:125-130 | For a name shown verbatim, the name row is the 14-character label followed by the name |
| MetadataEdit.ShownVerbatim | source/Gui/MetadataEditWidget.cpp:128-132 | The names the rich-text view shows unchanged although `updateDisplay` inserts them unescaped: no `<`, no `&`, no white space but single inner spaces |
| MetadataEdit.MarkupIsNotShownVerbatim | source/Gui/MetadataEditWidget.cpp:128-132 | `x<b>y` and `a  b` (two spaces) are not shown as written, and `a b` is |
| MetadataEdit.RemoveLeading | source/Gui/MetadataEditWidget.cpp:29-30 | `remove(0, 14)` drops the first 14 characters, or all of them when there are fewer |
| MetadataEdit.NameRowRoundTrip | source/Gui/MetadataEditWidget.cpp:29-30 | For a name the view shows verbatim, reading the name back from the displayed name row gives the name: the label widths agree |
| MetadataEdit.ColourOfColumn | source/Gui/MetadataEditWidget.cpp:207-220 | A column selects a colour iff it lies in 15..35, and the colour lies in [0, 6] |
| MetadataEdit.BlockColumnsSelectTheirColour | source/Gui/MetadataEditWidget.cpp:207-220 | Both columns of the block for colour k select colour k |
| MetadataEdit.ClickedColour | source/Gui/MetadataEditWidget.cpp:207-220 | A click in 15..35 sets colour (col−15)/3, and any other column keeps the colour |
| MetadataEdit.Forbidden | source/Gui/MetadataEditWidget.cpp:146-175 | The key rule written as one case split on `rowLen > 37`. ForbiddenCombination proves the source's assignments equal to it |
| MetadataEdit.LineBreaksAndPagingNeverPass | source/Gui/MetadataEditWidget.cpp:146-175 | Enter, Return and PageDown are swallowed in every row, long rows included |
| MetadataEdit.LongRowLetsLeftThrough | source/Gui/MetadataEditWidget.cpp:146-175 | In the label, Left passes when `rowLen > 37` and is swallowed otherwise. `rowLen` is the block length including its separator, so the long case starts at 37 visible characters |
| MetadataEdit.ForbiddenCombination | source/Gui/MetadataEditWidget.cpp:146-175 | The sequence of assignments swallows a key iff the key rule says so. In a long row only Left, Delete, Backspace, Down in row 0 and Up in row 1 pass |
| MetadataEdit.MetadataEditor.UpdateModel | source/Gui/MetadataEditWidget.cpp:19-38 | Without a cluster or cell nothing changes. Otherwise the name becomes the text after the label when the cursor is in row 1, and the other editors are notified |
| MetadataEdit.MetadataEditor.MousePress | source/Gui/MetadataEditWidget.cpp:180-225 | After the model update, a click in row 2 sets the clicked colour and notifies once more |
| MetadataEdit.MetadataEditor.KeyPress | source/Gui/MetadataEditWidget.cpp:135-178 | Vertical and line-break keys update the model first, and a key is forwarded iff it is not swallowed |
| Actions.DigitValues | source/Gui/ActionController.cpp:1017 | The hex digits `fromHex` reads, with other characters skipped. DigitValuesAppend and SpacesAreNoDigits state its properties |
| Actions.FromHex | source/Gui/ActionController.cpp:1017 | `QByteArray::fromHex`. HexRoundTrip proves it inverts `toHex` |
| Actions.RemoveSpaces | source/Gui/ActionController.cpp:1015 | `remove(' ')`. RemoveSpacesAppend and InsertedSpaceIsRemoved state its properties |
| Actions.SpacedPairs | source/Gui/ActionController.cpp:991-993 | The intended layout of the copy loop: two-digit groups separated by single spaces. SpacedPairsLayout states it position by position |
| Actions.HexDigitValue | source/Gui/ActionController.cpp:989 | Reading a written hex digit gives its value |
| Actions.ToHex | source/Gui/ActionController.cpp:989 | Hex text has two digits per byte |
| Actions.FromDigits | source/Gui/ActionController.cpp:1017 | Decoding n hex digits gives ⌈n/2⌉ bytes |
| Actions.DigitValuesAppend | source/Gui/ActionController.cpp:1017 | Decoding reads the digits of a concatenation as the digits of each part |
| Actions.HexRoundTrip | source/Gui/ActionController.cpp:989-1017 | Decoding the hex text of any bytes gives the bytes back (section 8 of RFC 4648) |
| Actions.RemoveSpacesAppend | source/Gui/ActionController.cpp:1015 | Removing spaces distributes over concatenation |
| Actions.SpacesAreNoDigits | source/Gui/ActionController.cpp:1015-1017 | Removing spaces does not change the digits the decoder sees |
| Actions.HexHasNoSpaces | source/Gui/ActionController.cpp:989 | Hex text contains no space |
| Actions.Insert | source/Gui/ActionController.cpp:992 | `insert` puts the character at the index and keeps the text around it. Past the end the text is padded with spaces |
| Actions.InsertedSpaceIsRemoved | source/Gui/ActionController.cpp:991-993 | Removing spaces undoes an inserted space, at any index |
| Actions.SpacedPairsLayout | source/Gui/ActionController.cpp:991-993 | The spaced form of 2n digits is n two-digit groups separated by single spaces |
| Actions.SpaceOutHex | source/Gui/ActionController.cpp:991-993 | The copy loop keeps the text's digits. For hex text of 512 digits or more it turns the first 512 into 256 groups separated by single spaces |
| Actions.CopyToClipboard | source/Gui/ActionController.cpp:976-999 | The clipboard text decodes back to the token memory, with or without removing its spaces. For 256 bytes or more the first 256 appear as spaced hex pairs |
| Actions.PasteFromClipboard | source/Gui/ActionController.cpp:1001-1031 | The memory is overwritten with the decoded clipboard text before the size check. Notification happens iff the size matches |
| Actions.EnableTable | source/Gui/ActionController.cpp:1344-1376 | The enabled state of each action for given selection flags. UpdateActionsEnableState is proved against it; the table lemmas below state its properties |
| Actions.EditingActionsNeedEditMode | source/Gui/ActionController.cpp:1344-1376 | Without edit mode every entity, token, clipboard and collection-editing action is disabled |
| Actions.CreationActionsAlwaysEnabled | source/Gui/ActionController.cpp:1344-1376 | New cell, particle, rectangle, hexagon, particles and load-collection are always enabled |
| Actions.GlowEffectOrCellInfo | source/Gui/ActionController.cpp:1344-1376 | Exactly one of glow effect and cell info is enabled, cell info iff in edit mode |
| Actions.ClipboardFollowsTokenSelection | source/Gui/ActionController.cpp:1344-1376 | The clipboard actions are enabled together with copy and delete token, iff in edit mode with a token-carrying cell selected |
| Actions.PasteCollectionDependsOnlyOnCopy | source/Gui/ActionController.cpp:1344-1376 | Paste-collection depends on nothing but whether a collection was copied |
| Actions.SingletonHoldsOne | source/Gui/ActionController.cpp:1289-1290 | The cell read through `begin()` of a one-element selection is that element |
| Actions.ActionModel.UpdateActionsEnableState | source/Gui/ActionController.cpp:1331-1377 | The flags are kept and every action's enabled state is set to the table's value |
| Actions.ActionModel.ReceivedNotifications | source/Gui/ActionController.cpp:1278-1304 | A no-op unless the action controller is a target. Otherwise the selection flags are set from the selection, each both ways (token flags only for a lone selected cell), and the enable table is applied |

## Left out

- The genome codec (`GenomeDescriptionConverter`) and the mutation
  operators are not part of this model. A genome is its byte length plus
  its decoded cells; the fixture builders take the encoder as a function.
- `std::rand()` in the fixtures becomes a sequence of draws passed in.
  The 10 000-iteration test loops are left out.
- `NEAR_ZERO` is not defined in the modelled files, so it is a parameter.
  Angles and energies are `real`, without floating-point rounding.
- MutationChecks.ColorPreserved: `boost::combine` of two genomes of
  different length is undefined behaviour when "after" is shorter. The
  model zips up to the shorter length.
- TestHelper.IterationOrder: the walk order of `unordered_map` is
  unspecified. The model lets it be any order of the keys.
- The event-loop helpers of the integration tests (`getContent`,
  `updateData`, `runSimulation`) are left out: they are I/O and queued signals.
- The `EXPECT_EQ` of the compatibility overloads is returned as a flag
  rather than recorded. The `QVector2D` specialisation is left out
  (floating point).
- `correctPosition` of the engine is taken to be the same torus wrap as
  `correctUniversePosition`.
- `calcCellColor`/`calcParticleColor` are given as each drawn dot's
  colour. Float positions are given as integer positions, because the
  source truncates them.
- Locking, GPU access, `updateDataToGpuModel` and `metricCorrection` are
  left out, and so is the QImage format beyond the alpha byte.
- ImageRender.Blend: the integer arithmetic is exact. The source's `int`
  overflow cannot happen for channel values and alpha in [0, 255].
- Painting (`paint`, token layout), QColor's HSL conversion and the
  palette's colour values are left out. The palette is a parameter and
  colours are given in hue, saturation and lightness.
- TestHelper.GetCellByCellId, TestHelper.GetClusterByCellId and TestHelper.GetBeforeAndAfterCells
  require every cluster to carry its cell list (`HaveCells`). The source
  dereferences `*cluster.cells` unchecked, so a missing list is undefined
  behaviour there and is not modelled.
- MetadataEdit.NameRowRoundTrip: holds only for names the view shows
  verbatim. `updateDisplay` inserts the name into rich text unescaped, so
  a name with `<`, `&`, or leading, trailing or repeated white space is
  shown altered, and `updateModel` stores the altered text. The HTML
  renderer is not modelled, so what such a name becomes is not stated.
- CellItemView.CellItem.constructor: the initial focus state is a
  parameter. Its default is declared in CellItem.h, which is not part of
  this model.
- MetadataEdit: cursor movement, text rendering and the HTML of
  `updateDisplay` are left out, apart from the label width.
  `*cell->metadata` is assumed to be present, as the source dereferences it.
- Notifications to other editors are counted rather than sent.
- Actions: the zoom comparison for the item view is given as a boolean.
  The `QAction` objects are one record of enabled states.
- Actions.CopyToClipboard and Actions.PasteFromClipboard: the `CHECK`
  assertions, the look-up of the selected token, the clipboard itself,
  the message box and logging are left out. Clipboard text is a parameter.
- The grid and random multipliers, `modifyDescription`, the dialogs and
  other UI wiring are left out. They are floating point or UI plumbing.

## Findings

| source | as written | input that shows it | evidently intended | confidence | as-written member | corrected member |
|---|---|---|---|---|---|---|
| source/EngineTests/MutationTests.cpp:377-380 | The nested step of `compareDeleteMutation` tests `beforeSubGenome && beforeSubGenome` and recurses on `(*beforeSubGenome, *beforeSubGenome)`, so the "after" sub-genome is never examined | "before" is a constructor whose sub-genome holds one plain cell of colour 1 with angle 0.0. "after" is the same constructor whose sub-genome holds that cell with angle 1.0. The check accepts, although the angle-1.0 cell was invented | recurse on `(*beforeSubGenome, *afterSubGenome)` when both exist | not executed | MutationProperties.DeleteAsWrittenAcceptsInventedNestedCell | MutationProperties.DeleteKeepsOnlyOldCells |
