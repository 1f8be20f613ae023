# cdec decoder core, modelled in Dafny

This project models the core of the cdec statistical machine translation
decoder and proves properties of the model. The parts modelled are these:

- **Chart parser** (`decoder/bottom_up_parser.cc`). This is the exhaustive bottom-up parser:
  - `split_string`;
  - the syntactic span mask `SyntacticConstraint`;
  - the active chart of dotted items;
  - the passive chart, which adds edges and nodes to the translation forest, closes
    each span under unary rules and finally connects the goal rule.
- **Lattice** (`decoder/lattice.h`): arcs, distance and the sentence test.
- **Viterbi** (`decoder/viterbi.h`): the generic bottom-up Viterbi pass over a
  topologically ordered hypergraph, together with the traversals and the word
  alignment order it is used with.
- **Pipeline** (`new-decoder/pipeline.h`): the `Maybe` combinators and the lazily
  initialised stages of the new decoder pipeline, with the behaviour its tests
  (`new-decoder/pipeline_tests.cc`) check.
- **Rescoring** (`new-decoder/rescore_hg.cc`): the option names of the rescoring
  passes, the rescoring strategies and the constructor defaults.
- **Rule feature functions** (`decoder/ff_rules.cc`).
- **Hash features** (`decoder/ff_hash.h`, `decoder/ff_hash.cc`).
- **Weights cache** (`new-decoder/context.cc`).
- **Clean n-best script** (`bolt-scripts/clean-nbest.py`): the n-best list cleaner.
- **Syntactic constraint extraction** (`sa-extract/extract_syncon.cpp`):
  - the bracketed tree reader;
  - the head rules;
  - the postorder span numbering;
  - head selection with dependency heads;
  - the flattened and dependency "fix/float" checks of a span;
  - the lazily built table of acceptable word pairs.

Values become datatypes and pure functions. Objects whose fields the source
updates in place become classes: the charts, the forest, the lattice, the
parsed tree and its table, the pipeline stages and the weights cache. Their
methods carry `modifies` clauses and loops with invariants. Each method is
proved against a specification function, and lemmas prove what the source
promises about that function.

Common modelling choices:

- **Integers and floats.** Integers are unbounded. Where the source
  relies on C integer behaviour the model says so below. Floating-point
  costs and weights become integers, naturals or reals, as listed under
  "Left out".
- **Pointers.** Pointer structures become values addressed by index, or by
  path in the case of trees.
- **Dictionaries, I/O and hashing.** Global dictionaries (`TD`, `FD`),
  hashing, file and stream I/O, and the clock are parameters of the model
  or are left out.

## Model

| member | source | states |
|---|---|---|
| Splitting.SplitString | decoder/bottom_up_parser.cc:19-44 | the fields produced are exactly `SplitFields(str, delim, rep)`, and the returned count is their number |
| Splitting.JoinSplit | decoder/bottom_up_parser.cc:25-38 | joining all delimiter-separated pieces with the delimiter gives back the input string |
| Splitting.SplitPiecesHaveNoDelimiter | decoder/bottom_up_parser.cc:26-36 | no piece contains the delimiter, and there is one more piece than there are delimiters |
| Splitting.FlattenNonEmpty | decoder/bottom_up_parser.cc:32-36 | dropping the empty pieces does not change their concatenation |
| Splitting.FlattenSplitAll | decoder/bottom_up_parser.cc:25-42 | the pieces concatenated are the input with every delimiter removed |
| Splitting.NonEmptyFields | decoder/bottom_up_parser.cc:32-36 | the kept fields are non-empty and each is one of the pieces |
| Splitting.DropModeFields | decoder/bottom_up_parser.cc:32-42 | when repeated delimiters are ignored (`rep != 1`), every field is non-empty and free of the delimiter, and the fields concatenated are the input without its delimiters |
| Splitting.KeepModeFields | decoder/bottom_up_parser.cc:28-42 | with `rep == 1` there is one field per delimiter plus one for a non-empty remainder, and the fields joined by the delimiter give back the input, except for one trailing delimiter |
| SyntacticConstraints.LeadingDigits | decoder/bottom_up_parser.cc:78-82 | the longest prefix of decimal digits: all digits, a prefix of the input, and not followed by a digit |
| SyntacticConstraints.AtoiWithoutMinus | decoder/bottom_up_parser.cc:78-82 | `atoi` of text without a minus sign is never negative |
| SyntacticConstraints.DashAt | decoder/bottom_up_parser.cc:76 | the position of the first `-`: it holds `-` and no `-` comes before it |
| SyntacticConstraints.AllowedUpToStep | decoder/bottom_up_parser.cc:75-86 | after one more item, a cell is set exactly when it was set before or the item covers its column |
| SyntacticConstraints.AllowedCells | decoder/bottom_up_parser.cc:71-87 | the diagonal is always allowed, and cell (x, y) is allowed exactly when x == y or some item of row x names y, either alone or inside an `a-b` range |
| SyntacticConstraints.SyntacticConstraint.constructor | decoder/bottom_up_parser.cc:47-53 | a len x len mask whose cell (x, y) is `Allowed` for the constraint string |
| SyntacticConstraints.SyntacticConstraint.SetConstraints | decoder/bottom_up_parser.cc:67-88 | every cell becomes its old value or'ed with `Allowed`: cells are only ever set, never cleared |
| Forest.Hypergraph.constructor | decoder/bottom_up_parser.cc:237-241 | the forest the parser starts from is empty |
| Forest.Hypergraph.AddNode | decoder/bottom_up_parser.cc:277 | appends a node of the category with no incoming edges and returns its id; edges are unchanged |
| Forest.Hypergraph.AddEdge | decoder/bottom_up_parser.cc:264 | appends an unconnected edge for the rule and tail and returns its id; nodes are unchanged |
| Forest.Hypergraph.ConnectEdgeToHeadNode | decoder/bottom_up_parser.cc:288 | sets the edge's head to the node and appends the edge to the node's incoming edges; nothing else changes |
| ActiveCharts.ExtendTerminal | decoder/bottom_up_parser.cc:170-175 | at most one new item: none exactly when the trie has no transition on the symbol; otherwise the item moves to that state with the same antecedents and the cost added |
| ActiveCharts.ExtendNonTerminal | decoder/bottom_up_parser.cc:176-185 | at most one new item: none exactly when the trie has no transition on the node's category; otherwise the node is appended to the antecedents and the cost is kept |
| ActiveCharts.ExtendByNodesIff | decoder/bottom_up_parser.cc:207-209 | an item is produced from one item and a list of nodes exactly when it extends that item by one of the nodes |
| ActiveCharts.CombineCellsIff | decoder/bottom_up_parser.cc:200-211 | an item is produced for (i, j) from cells (i, k) and (k, j) exactly when it extends some item of (i, k) by some node of (k, j) |
| ActiveCharts.ExtendByArcIff | decoder/bottom_up_parser.cc:225-227 | an item is produced by scanning an arc exactly when it extends some item of the cell over the arc's label |
| ActiveCharts.Seed | decoder/bottom_up_parser.cc:193-198 | a cell gets the trie root with no antecedents exactly when it is a diagonal cell (x, x) the grammar has rules for, and then only one such item |
| ActiveCharts.CombineCellsAntsIn | decoder/bottom_up_parser.cc:180-184 | combining cells only adds antecedents that are nodes of the forest |
| ActiveCharts.ExtendByArcAntsIn | decoder/bottom_up_parser.cc:170-174 | scanning an arc keeps the antecedents inside the forest |
| ActiveCharts.ArcItemsAntsIn | decoder/bottom_up_parser.cc:218-228 | scanning all arcs out of a position keeps the antecedents inside the forest |
| ActiveCharts.SplitItemsAntsIn | decoder/bottom_up_parser.cc:215-216 | combining over all split points keeps the antecedents inside the forest |
| ActiveCharts.ActiveChart.constructor | decoder/bottom_up_parser.cc:160-162 | a chart the size of the passive chart, with every cell empty |
| ActiveCharts.ActiveChart.SeedActiveChart | decoder/bottom_up_parser.cc:193-198 | each cell is its old content plus `Seed` for it, and the antecedents stay inside the forest |
| ActiveCharts.ActiveChart.ExtendActiveItems | decoder/bottom_up_parser.cc:200-211 | cell (i, j) gains exactly `CombineCells` of cell (i, k) and the passive nodes of (k, j); no other cell changes |
| ActiveCharts.ActiveChart.ExtendItemByNodes | decoder/bottom_up_parser.cc:207-209 | cell (i, j) gains exactly the extensions of one item by the nodes; no other cell changes |
| ActiveCharts.ActiveChart.ExtendOverArc | decoder/bottom_up_parser.cc:225-227 | the target cell gains exactly the items scanned over one arc; no other cell changes |
| ActiveCharts.ActiveChart.AdvanceDotsForAllItemsInCell | decoder/bottom_up_parser.cc:213-229 | cell (i, j) gains the combinations over every split point; cells further right in row i gain the items scanned over the arcs out of j - 1; cells left of j and other rows are unchanged |
| ActiveCharts.ActiveChart.CombineSplits | decoder/bottom_up_parser.cc:215-216 | cell (i, j) gains the combinations over every split point k with i < k < j |
| ActiveCharts.ActiveChart.ExtendOverArcs | decoder/bottom_up_parser.cc:218-228 | each cell (i, j + len - 1) gains the items of (i, j - 1) scanned over the arcs of length `len` |
| ChartStates.Set2 | decoder/bottom_up_parser.cc:144-146 | entry (i, j) of a grid is replaced; the shape and every other entry are kept |
| ChartStates.Filled | decoder/bottom_up_parser.cc:246-247 | the chart grids start as size x size grids holding one value everywhere |
| ChartStates.EmptyStateOk | decoder/bottom_up_parser.cc:246-250 | the empty chart satisfies the chart invariant |
| ChartStates.Apply | decoder/bottom_up_parser.cc:259-289 | applying a rule adds one edge with the span, rule and tail; it adds a node only when the left-hand side is new for the span; it records the node under its category; it lists a new node in the span unless the node is the goal; it touches no other span |
| ChartStates.ApplyNodeMapOk | decoder/bottom_up_parser.cc:272-287 | after a rule is applied, the category map of every span still sends each category to a node of that category |
| ChartStates.ApplyChartOk | decoder/bottom_up_parser.cc:276-284 | after a rule is applied, the node list of every span still holds exactly its non-goal nodes, without repetition |
| ChartStates.ApplyGoalOk | decoder/bottom_up_parser.cc:279-281 | after a rule is applied, the goal label appears in no node map except that of span (0, n), and the recorded goal index is the node it maps to there (-1 exactly when it is absent) |
| ChartStates.ApplyEdgesOk | decoder/bottom_up_parser.cc:264-269 | after a rule is applied, every edge still spans i < j and its tail is made of existing nodes |
| ChartStates.ApplyInEdgesOk | decoder/bottom_up_parser.cc:288 | after a rule is applied, every edge is listed among its head's incoming edges and every node has an incoming edge |
| ChartStates.ApplyKeepsOk | decoder/bottom_up_parser.cc:259-289 | applying a rule keeps the whole chart invariant |
| ChartStates.ApplyAll | decoder/bottom_up_parser.cc:291-299 | applying a bin of rules in order keeps the grid shape and the category maps, and never removes nodes |
| ChartStates.ApplyAllOk | decoder/bottom_up_parser.cc:291-299 | applying a bin of non-goal rules keeps the chart invariant |
| ChartStates.ApplyAllApplied | decoder/bottom_up_parser.cc:291-299 | applying a bin adds one edge per rule, in order, each over (i, j) with the given tail, and changes nothing outside (i, j) |
| ChartStates.ApplyAllSnoc | decoder/bottom_up_parser.cc:297-298 | applying one more rule of the bin is `Apply` of that rule on the state reached so far |
| ChartStates.ApplyAllStep | decoder/bottom_up_parser.cc:297-298 | `AppliedAll` is preserved by applying the next rule of the bin |
| ChartStates.ClosedGrows | decoder/bottom_up_parser.cc:301-315 | a node closed under the unary rules stays closed as the chart grows |
| ChartStates.AppliedAllCloses | decoder/bottom_up_parser.cc:307-312 | applying the unary rules for a node's category closes that node |
| ChartStates.CloseStep | decoder/bottom_up_parser.cc:305-313 | one round of the unary closure closes one more node of the span, and either adds a new category to the span or leaves the node list alone |
| ChartStates.ClosedUpToGrows | decoder/bottom_up_parser.cc:302-311 | closure of the first k nodes of a span survives growth of the chart and of its node list |
| ChartStates.UnaryFromGrows | decoder/bottom_up_parser.cc:305-311 | an edge applying a unary rule to a node of (i, j) stays one as the chart grows |
| ChartStates.UnaryOnlyStep | decoder/bottom_up_parser.cc:307-311 | applying the unary rules for one node's category adds only edges that apply a unary rule over (i, j) to a node of the span |
| ChartStates.GoalEdgeGrows | decoder/bottom_up_parser.cc:382-384 | a goal edge stays one as the chart grows |
| ChartStates.GoalsOnlyStep | decoder/bottom_up_parser.cc:380-385 | one more goal edge keeps every edge added by the goal scan a goal edge |
| ChartStates.ApplyGoal | decoder/bottom_up_parser.cc:379-386 | the goal rule over (0, n) leaves every node list alone and leaves a goal node |
| ChartStates.GoalFoundSpanned | decoder/bottom_up_parser.cc:382-384 | a goal node exists only if some node of span (0, n) has the goal category |
| ChartStates.GoalNodeIff | decoder/bottom_up_parser.cc:273-281 | there is a goal node exactly when some node carries the goal label |
| ChartStates.GoalFoundIff | decoder/bottom_up_parser.cc:379-393 | once every goal-category node of (0, n) has been given to the goal rule, the goal is found (`GoalFound`, a non-negative goal index, line 122) exactly when such a node exists; the goal label `kGOAL` itself is set at line 255 |
| PassiveCharts.GoalRule | decoder/bottom_up_parser.cc:249 | the goal rule has the goal label as its left-hand side, the goal category alone as its source side, and arity one |
| PassiveCharts.NewGrid | decoder/bottom_up_parser.cc:246-247 | a fresh size x size array holding one value everywhere |
| PassiveCharts.NewActiveCharts | decoder/bottom_up_parser.cc:252-254 | one fresh, empty active chart per grammar, each over the passive chart and with cells of its own |
| PassiveCharts.UnaryRulesLhs | decoder/bottom_up_parser.cc:307 | the unary rules of a grammar produce only categories the closure can produce, never the goal label |
| PassiveCharts.PassiveChart.constructor | decoder/bottom_up_parser.cc:237-257 | an empty (n+1) x (n+1) chart with no goal node, the goal rule built from the goal category, and one fresh active chart per grammar |
| PassiveCharts.PassiveChart.ApplyRule | decoder/bottom_up_parser.cc:259-289 | the chart's new state is `Apply` of the old one, and the chart invariant holds |
| PassiveCharts.PassiveChart.StateAfterEdit | decoder/bottom_up_parser.cc:264-288 | the cell-by-cell updates of a rule application are `Apply` |
| PassiveCharts.PassiveChart.ItemsGrow | decoder/bottom_up_parser.cc:180-184 | the antecedents of every active item stay nodes as the forest grows |
| PassiveCharts.PassiveChart.EditForRule | decoder/bottom_up_parser.cc:264-288 | the edge is added and connected to its head node; the head node is the existing node of the category, or a new one recorded in the map and listed in the span (or made the goal); no other span changes |
| PassiveCharts.PassiveChart.ApplyRules | decoder/bottom_up_parser.cc:291-299 | the new state is `ApplyAll` of the old one over the bin, and the chart invariant holds |
| PassiveCharts.PassiveChart.ApplyBin | decoder/bottom_up_parser.cc:366 | as `ApplyRules`, seen from the whole chart: the active items stay valid and `AppliedAll` holds |
| PassiveCharts.PassiveChart.SeedActiveCharts | decoder/bottom_up_parser.cc:323-324 | every grammar's active chart holds exactly `Seed` in each cell |
| PassiveCharts.PassiveChart.AdvanceCell | decoder/bottom_up_parser.cc:347-348 | grammar gi's cell (i, j) gains the split combinations and the scanned items, and the chart stays valid |
| PassiveCharts.PassiveChart.ExtendOverNewNodes | decoder/bottom_up_parser.cc:372-377 | when the grammar has rules for the span, its cell (i, j) gains the items of (i, i) extended by the span's new nodes; otherwise the cell is unchanged |
| PassiveCharts.PassiveChart.CompleteItems | decoder/bottom_up_parser.cc:347-367 | grammar gi's cells become its dots advanced for (i, j) (`AdvancedGrid`), every other grammar's cells are unchanged, and the chart becomes `CompleteAll` over the items of (i, j) after the advance (`Pending`): unless the mask skips the span for this grammar, each of those items with a rule bin has every rule of its bin applied as an edge over (i, j) from its antecedents with its lattice cost, and every new edge comes from one of them (`CompletedAll`) |
| PassiveCharts.PassiveChart.CompleteCell | decoder/bottom_up_parser.cc:350-367 | the chart becomes `CompleteAll` of the cell's items taken in order, and `CompletedAll` holds: nothing changes when the mask skips the span; otherwise every item with rules has its whole bin applied over (i, j); every new edge comes from some item's bin; the chart only grows, inside (i, j), and keeps the goal |
| PassiveCharts.PassiveChart.CompleteItem | decoder/bottom_up_parser.cc:353-366 | an item without rules, or one the mask skips, adds nothing; otherwise its trie state's whole bin is applied with its antecedents and lattice cost |
| PassiveCharts.PassiveChart.CloseUnder | decoder/bottom_up_parser.cc:303-314 | every node of the span, including those added on the way, is closed under the grammar's unary rules; every edge added is one of that grammar's unary rules over (i, j) applied to a node of the span (`UnaryOnly`); only the span changes and the goal is kept |
| PassiveCharts.PassiveChart.CloseNode | decoder/bottom_up_parser.cc:305-313 | the di-th node of the span becomes closed, and either a new category is added or the node list is kept; every edge added is a unary rule of the grammar over the span, applied to a node of it |
| PassiveCharts.PassiveChart.ClosedBelowStep | decoder/bottom_up_parser.cc:303-304 | closure under the grammars seen so far survives growth, and covers one more grammar once that one is done |
| FillSpecs.ClosedByLastStep | decoder/bottom_up_parser.cc:303-304 | a grammar with rules for the span that closed the whole list becomes the last one to have done so; a grammar without rules changes nothing |
| FillSpecs.CompleteAllSnoc | decoder/bottom_up_parser.cc:351-367 | one more item of the cell: nothing changes when it is skipped or has no rules, otherwise its whole bin is applied with its antecedents and cost |
| FillSpecs.BinsAppliedGrows | decoder/bottom_up_parser.cc:366 | rules applied for the items stay applied as the forest grows |
| FillSpecs.CompleteAllApplied | decoder/bottom_up_parser.cc:351-367 | completing a cell's items in order keeps the chart invariant, grows the chart only inside (i, j) and keeps the goal; when the mask skips the span nothing changes, otherwise every item with a rule bin has each rule of its bin applied as an edge over (i, j) from its antecedents with its lattice cost; every new edge comes from the bin of one of the items |
| FillSpecs.ClosedByLastGrows | decoder/bottom_up_parser.cc:379-386 | the unary closure of a span survives growth that leaves its node list alone |
| FillSpecs.AdvancedUpToStep | decoder/bottom_up_parser.cc:345-348 | one more grammar has advanced its dots |
| FillSpecs.ExtendedUpToStep | decoder/bottom_up_parser.cc:372-377 | one more grammar has extended its items over the span's nodes |
| FillSpecs.ExtendedNone | decoder/bottom_up_parser.cc:375 | a grammar without rules for the span extends nothing |
| FillSpecs.AdvanceKept | decoder/bottom_up_parser.cc:345-348 | completing other grammars' items over (i, j) changes neither what a grammar's dots advance over nor the items it completes |
| FillSpecs.CompletedBelowStep | decoder/bottom_up_parser.cc:345-368 | one grammar further in the first phase: when it has rules for the span and the mask does not skip it, its pending items' bins are applied; every new edge comes from the pending items of a grammar with rules for the span that the mask does not skip (`EdgeFromBelow`); nothing changes otherwise |
| FillSpecs.CompletedUpToStep | decoder/bottom_up_parser.cc:345-368 | grammar gi's turn extends the first phase's record (`CompletedUpTo`) from gi grammars to gi + 1 |
| FillSpecs.FillSpanEffect | decoder/bottom_up_parser.cc:344-377 | the completion, the unary closure and the extension of span (i, j) together are `FillEffect`, including that every new edge is one the fill made (`FillMade`: from the items of a non-skipped grammar with rules for the span, or a unary rule of a grammar with rules for the span) |
| FillSpecs.ArrivedSame | decoder/bottom_up_parser.cc:348 | what the arcs carried into a cell depends only on the cells of its row to the left |
| FillSpecs.FilledKept | decoder/bottom_up_parser.cc:343-378 | a span filled before (i, i + l) stays filled: its cells, its applied bins and its closure are kept by the fill of (i, i + l) |
| FillSpecs.FilledNow | decoder/bottom_up_parser.cc:343-378 | span (i, i + l) is filled once its fill is done |
| FillSpecs.UnfilledKept | decoder/bottom_up_parser.cc:343-378 | a span not yet filled holds exactly what the arcs carried into it, including what the fill of (i, i + l) carried |
| FillSpecs.FillStep | decoder/bottom_up_parser.cc:343-378 | filling span (i, i + l) moves the fill invariant one span to the right: every span shorter than l and every span of length l up to i + l is filled (its cells hold what the arcs carried, what the fill advanced and the extension over its final nodes; the bins of its completed items are applied unless the mask skips it; the last grammar with rules for it closed its node list), and every other span holds exactly what the arcs carried so far |
| FillSpecs.LevelNext | decoder/bottom_up_parser.cc:341-343 | once every span of length l is filled, length l + 1 starts |
| FillSpecs.LevelGrows | decoder/bottom_up_parser.cc:379-386 | growth of the forest that leaves every node list alone, as the goal scan does, keeps the fill invariant on the cells and node lists |
| FillSpecs.LevelStart | decoder/bottom_up_parser.cc:323-324 | the seeded active charts satisfy the fill invariant before any span is filled |
| FillSpecs.UnaryMadeStep | decoder/bottom_up_parser.cc:302-314 | one grammar further in the unary closure: a grammar with rules for the span adds only its own unary edges over the span, one without adds nothing, so every new edge is a unary rule of one of the first gi + 1 grammars with rules for the span |
| FillSpecs.CompletedKept | decoder/bottom_up_parser.cc:343-378 | the items a span filled earlier reads as completed are untouched by the fill of (i, i + l) |
| FillSpecs.PendingCompleted | decoder/bottom_up_parser.cc:345-352 | the items pending when (i, i + l) is filled are exactly those the filled span then reads as completed |
| FillSpecs.OldEdgeMade | decoder/bottom_up_parser.cc:343-378 | an edge made by the fill of an earlier span, or a goal edge, stays accounted for after the fill of (i, i + l) |
| FillSpecs.NewEdgeMade | decoder/bottom_up_parser.cc:343-378 | every edge the fill of (i, i + l) adds lies over that span and comes from its completed items of a non-skipped grammar with rules for it, or from a unary rule of a grammar with rules for it |
| FillSpecs.MadeStep | decoder/bottom_up_parser.cc:343-378 | filling (i, i + l) keeps every edge of the forest a goal edge or one made by the fill of a filled span |
| FillSpecs.MadeNext | decoder/bottom_up_parser.cc:341-343 | once every span of length l is filled, length l + 1 starts with every edge still accounted for |
| FillSpecs.MadeGrows | decoder/bottom_up_parser.cc:379-386 | adding only goal edges without touching the node lists, as the goal scan does, keeps every edge accounted for |
| PassiveCharts.PassiveChart.ApplyUnaryRules | decoder/bottom_up_parser.cc:301-315 | every node the span had before is closed under the unary rules of each grammar with rules for the span, and the last such grammar closes the whole final list, the nodes created on the way included (`ClosedByLast`); every new edge applies a unary rule of a grammar with rules for the span to one of its nodes (`UnaryMadeSince`); only the span changes and the goal is kept |
| PassiveCharts.PassiveChart.CloseGrammar | decoder/bottom_up_parser.cc:302-314 | grammar gi's turn in the unary closure (`Closing(.., gi + 1, ..)`): with rules for the span it closes the node list under its unary rules and adds only its unary edges; without, nothing changes |
| PassiveCharts.PassiveChart.CompleteSpan | decoder/bottom_up_parser.cc:345-369 | after the first phase of span (i, j), every grammar with rules for the span has advanced its dots (`AdvancedUpTo`) and, unless the mask skips the span for it, applied the bins of all its items of (i, j); every new edge comes from the items of one of those grammars that the mask does not skip; the chart grew only inside the span (`CompletedUpTo`) |
| PassiveCharts.PassiveChart.CompleteGrammar | decoder/bottom_up_parser.cc:345-368 | grammar gi's turn in the first phase: from what the earlier grammars left (`Completing(.., gi, ..)`), it advances its dots and, with rules for the span and not skipped by the mask, completes its items, whose edges are the only ones it adds, so the first gi + 1 grammars have had their turn |
| PassiveCharts.PassiveChart.ExtendSpan | decoder/bottom_up_parser.cc:372-377 | every grammar's cell (i, j) is extended by the items of (i, i) over the span's nodes, exactly when the grammar has rules for the span |
| PassiveCharts.PassiveChart.FillSpan | decoder/bottom_up_parser.cc:344-377 | the three phases of span (i, j) together are `FillEffect`: every cell of every grammar is its advance plus, at (i, j) for a grammar with rules for the span, the extension of the (i, i) items over the span's final nodes (`AfterFill`); every non-skipped grammar with rules for the span applied the bins of its items of (i, j); the last grammar with rules for the span closed the final node list under its unary rules; every new edge comes from those items or from those unary rules; the chart grew only inside the span, and the goal is kept |
| PassiveCharts.PassiveChart.FillLevel | decoder/bottom_up_parser.cc:342-386 | from the point where every span shorter than l is filled, every span of length l gets filled and the goal scan follows: every span shorter than l + 1 is filled, every edge of the forest is a goal edge or one made by the fill of a filled span, and every goal-category node of (0, n) has been given to the goal rule (`Parsing(l + 1)`) |
| PassiveCharts.PassiveChart.FillRow | decoder/bottom_up_parser.cc:343-378 | from the point where every span shorter than l is filled, the spans of length l are filled from left to right, so that all of them are, and every edge is a goal edge or made by the fill of a filled span (`Level(l, n + 1 - l)`) |
| PassiveCharts.PassiveChart.FillNext | decoder/bottom_up_parser.cc:343-378 | filling span (i, i + l) moves the fill invariant one span to the right (`Level(l, i + 1)`): the span is filled and its new edges are the ones its fill made |
| PassiveCharts.PassiveChart.NextLevel | decoder/bottom_up_parser.cc:379-386 | once every span of length l is filled, the goal scan leaves every span shorter than l + 1 filled, adds only goal edges, and gives every goal-category node of (0, n) to the goal rule |
| PassiveCharts.PassiveChart.LevelKept | decoder/bottom_up_parser.cc:379-386 | what changes neither the active cells nor the node lists and adds only goal edges (the goal scan) keeps every filled span filled and every edge accounted for |
| PassiveCharts.PassiveChart.ApplyGoalRule | decoder/bottom_up_parser.cc:383-384 | the goal rule makes a goal node, or adds an edge to the one already there; the one edge it adds is the goal rule over (0, n) from a goal-category node of that span (`GoalEdge`); the node lists are unchanged |
| PassiveCharts.PassiveChart.ScanForGoal | decoder/bottom_up_parser.cc:379-386 | every node of (0, n) with the goal category is given to the goal rule, every edge added is a goal edge (`GoalsOnly`), the node lists are unchanged and an existing goal node is kept |
| PassiveCharts.PassiveChart.Parse | decoder/bottom_up_parser.cc:317-394 | after the parse every span of the input is filled (`Parsed`: each cell holds exactly the items the arcs, the fills and the extensions put there, the bins of every non-skipped completed item are applied, each node list is closed under the unary rules of the last grammar with rules for the span, and the forest holds no edge but the goal edges and those the fills made), and the parse reports success exactly when there is a goal node, and exactly when some node spanning the whole input has the goal category |
| PassiveCharts.PassiveChart.MakeConstraint | decoder/bottom_up_parser.cc:327-338 | no mask when there is no metadata or no `constraints` attribute; otherwise a fresh mask built from the attribute |
| PassiveCharts.PassiveChart.ParseLevels | decoder/bottom_up_parser.cc:341-387 | starting from the seeded charts, after all lengths every span of the input is filled and every edge is a goal edge or one made by a fill (`Level(n + 1, 0)`), and every goal-category node of (0, n) has been given to the goal rule |
| PassiveCharts.ExhaustiveBottomUpParser.constructor | decoder/bottom_up_parser.cc:401-405 | the parser keeps the goal symbol and the grammars |
| PassiveCharts.ExhaustiveBottomUpParser.Parse | decoder/bottom_up_parser.cc:407-413 | the parse succeeds exactly when the forest it fills has a node carrying the goal label; the passive chart it ran (returned as a ghost) has every span filled and no edge but goal edges and those the fills made (`Parsed`), and success means some node spanning the input has the goal category |
| Lattices.DefaultArc | decoder/lattice.h:21 | the default arc has label, cost and distance to the next position all zero |
| Lattices.LinearIsWellFormed | decoder/lattice.h:47-55 | a lattice that passes the linearity test has every arc moving forward and landing inside the lattice or on its end |
| Lattices.LinearAppend | decoder/lattice.h:47-55 | linearity is a per-position property: a concatenation is linear exactly when both parts are |
| Lattices.Lattice.constructor | decoder/lattice.h:29-32 | a new lattice holds the given positions and its sentence flag is false |
| Lattices.Lattice.Distance | decoder/lattice.h:33-37 | without a distance table the distance is `to - from`; with one it is the table entry |
| Lattices.Lattice.IsLinear | decoder/lattice.h:47-55 | true exactly when every position has at most one arc and every single arc reaches the next position; an empty lattice is linear |
| Lattices.Lattice.IsSentence | decoder/lattice.h:40-44 | returns the cached flag; without `update` the flag is untouched; with it a false flag is recomputed, so a true flag stays true |
| Viterbi.InEdge | decoder/viterbi.h:44 | in a topologically ordered forest every incoming edge of node v has all its tail nodes below v |
| Viterbi.BestIsFirstMax | decoder/viterbi.h:43-52 | the best score is the score of the chosen edge, no incoming edge scores more, and every earlier edge scores strictly less: ties keep the first edge |
| Viterbi.WeightsPrefix | decoder/viterbi.h:32-59 | each node's weight is computed from the weights of the nodes before it only |
| Viterbi.ViterbiWeightIsMax | decoder/viterbi.h:38-52 | a node without incoming edges has weight 1; otherwise its weight is the score of an incoming edge that is maximal over all of them and strictly better than every earlier one |
| Viterbi.ScorePrefix | decoder/viterbi.h:45-47 | an edge's score reads only the weights of its tail nodes |
| Viterbi.EdgeScore | decoder/viterbi.h:45-47 | the loop computes the edge weight times the weights of all its tail nodes |
| Viterbi.BestEdge | decoder/viterbi.h:42-52 | the scan over the incoming edges returns the first best score and its position |
| Viterbi.Gather | decoder/viterbi.h:55-57 | the antecedent results are those of the tail nodes, in tail order |
| Viterbi.Search | decoder/viterbi.h:21-64 | on an empty forest the result is 0 and the caller's result is left alone; otherwise the last node's Viterbi weight and traversal result |
| Viterbi.ViterbiPath | decoder/viterbi.h:352-362 | the path ends with the edge itself |
| Viterbi.ConcatLength | decoder/viterbi.h:357-359 | concatenating the antecedent paths gives as many edges as their lengths add up to |
| Viterbi.PathLengthAgrees | decoder/viterbi.h:272-281 | the path traversal's result has exactly the length the path-length traversal computes over the antecedents' lengths (the path-length traversal at lines 352-362) |
| Viterbi.ViterbiPathLength | decoder/viterbi.h:272-281 | for every node, the Viterbi path's length equals the Viterbi path length computed by the path-length traversal (the path-length traversal at lines 352-362) |
| Viterbi.TerminalsSplit | decoder/viterbi.h:297 | a target side is made of its terminals and its nonterminal references |
| Viterbi.ELengthCountsTerminals | decoder/viterbi.h:292-300 | when the arity counts the nonterminal references, the target length is the rule's target terminals plus the antecedents' target lengths |
| ViterbiAlignment.SumTail | decoder/viterbi.h:161-165 | the loop sums the tail nodes' source and target word counts |
| ViterbiAlignment.AlignNode | decoder/viterbi.h:148-181 | a node with incoming edges gets its Viterbi weight, its counts (tails' counts plus rule length minus arity) and the traversal's alignment over its best edge |
| ViterbiAlignment.AppendAll | decoder/viterbi.h:186-187 | the best alignment is appended to the caller's, in order |
| ViterbiAlignment.SearchNode | decoder/viterbi.h:138-182 | one more node of the arrays holds its weight, counts and alignment |
| ViterbiAlignment.FilledStep | decoder/viterbi.h:138-182 | storing node i's weight, counts and alignment extends the filled prefix of the arrays by one node, leaving the rest untouched |
| ViterbiAlignment.SearchAlignment | decoder/viterbi.h:125-188 | on an empty forest the caller's alignment is untouched; otherwise the last node's alignment is appended to it |
| ViterbiAlignment.GatherInts | decoder/viterbi.h:175-179 | the tail nodes' integers, in tail order |
| ViterbiAlignment.SumCountsWidths | decoder/viterbi.h:161-168 | when every node's count is its width, the tails' counts add up to their widths |
| ViterbiAlignment.NodeCountIsWidth | decoder/viterbi.h:161-169 | when every earlier node's source count is its width, so is the next node's |
| ViterbiAlignment.CountsAreWidths | decoder/viterbi.h:161-168 | on a forest whose edges' spans are consistent, every node's source word count is the width of its span |
| ViterbiAlignment.ConsistentSpansMatch | decoder/viterbi.h:168 | on such a forest the check that the source count equals `j - i` holds for every node and every weight function |
| ViterbiAlignment.AlignLessAsWrittenReflexive | decoder/viterbi.h:110-121 | the comparison as written puts every point before itself |
| ViterbiAlignment.AlignLessAsWrittenIsNonStrict | decoder/viterbi.h:110-121 | the comparison as written is "strictly before, or equal": by target position, then by source position |
| ViterbiAlignment.AlignLessStrictTotal | decoder/viterbi.h:110-121 | the corrected comparison is irreflexive, transitive, total and asymmetric |
| Pipeline.EqualIsEquality | new-decoder/pipeline.h:54-60 | the written comparison of two Maybes is value equality: Nothing equals only Nothing, a Just only a Just with an equal value |
| Pipeline.MaybeVar.constructor | new-decoder/pipeline.h:28 | a default-constructed Maybe is Nothing |
| Pipeline.MaybeVar.Copy | new-decoder/pipeline.h:34 | a copy holds the same value |
| Pipeline.MaybeVar.Swap | new-decoder/pipeline.h:36-40 | the two variables exchange their values |
| Pipeline.MaybeVar.Assign | new-decoder/pipeline.h:42-46 | copy-and-swap assignment: the target gets the source's value and the source keeps it, also under self-assignment |
| Pipeline.MaybeVar.SetValue | new-decoder/pipeline.h:52 | writing through the value reference of a Just replaces its value |
| Pipeline.Words | new-decoder/pipeline.h:65-70 | the text of a Maybe is "Nothing" or "Just" and the number, separated by one space |
| Pipeline.ReadWord | new-decoder/pipeline.h:74-75 | reading a word takes the first word of a good, non-empty stream; otherwise it fails and consumes nothing |
| Pipeline.ReadInt | new-decoder/pipeline.h:83-86 | reading an `int` stores a number in range, the nearest bound for one out of range and 0 for a word that is not a number, failing the stream in the last two cases; at the end of the stream nothing is stored and the stream fails |
| Pipeline.Read | new-decoder/pipeline.h:72-94 | extraction from a failed stream changes nothing but keeps it failed |
| Pipeline.ReadJustWithoutNumber | new-decoder/pipeline.h:81-89 | "Just" followed by a word that is not a number leaves Just 0 and a failed stream whatever the variable held; at the end of the stream a Just variable keeps its value and a Nothing variable becomes Just 0 |
| Pipeline.ReadJustOutOfRange | new-decoder/pipeline.h:81-89 | "Just" followed by a number beyond the range of `int` leaves the nearest bound and a failed stream |
| Pipeline.ReadShow | new-decoder/pipeline.h:65-94 | reading back the written text of any integer Maybe whose value fits an `int` gives that Maybe, whatever the variable held, and leaves the stream good |
| Pipeline.ReadOtherFails | new-decoder/pipeline.h:90-92 | a word other than "Nothing" or "Just" sets the fail flag and leaves the variable as it was |
| Pipeline.ShowExamples | new-decoder/pipeline_tests.cc:14-21 | Nothing, Just 0 and Just 2 are written as "Nothing", "Just 0" and "Just 2" |
| Pipeline.ReadExample | new-decoder/pipeline_tests.cc:22-32 | reading "Nothing Just 1 Just 2 Nothing Fail" gives Nothing, Just 1, Just 2 and Nothing with the stream good, then fails |
| Pipeline.ComposeAssociative | new-decoder/pipeline.h:136-161 | composition is associative: both bracketings of a chain give the same result |
| Pipeline.ComposeIdentity | new-decoder/pipeline.h:126-161 | the identity stage is a unit of composition on both sides |
| Pipeline.BindCases | new-decoder/pipeline.h:173-195 | bind passes Nothing on without running the second stage, and otherwise runs it on the first stage's value |
| Pipeline.MonadLaws | new-decoder/pipeline.h:163-202 | unit is a left and right identity of bind, and bind is associative |
| Pipeline.LoopStopsAtNothing | new-decoder/pipeline.h:257-271 | once a loop gives Nothing, every longer loop gives Nothing |
| Pipeline.OnParity | new-decoder/pipeline_tests.cc:178-179 | adding one on odd inputs always gives an even number, and on even inputs an odd one |
| Pipeline.ChainedConditions | new-decoder/pipeline_tests.cc:180-183 | add one, double when even, then add one when odd, computes the value the test computes by hand |
| Pipeline.ChainedConditionsRight | new-decoder/pipeline_tests.cc:184 | the same chain bracketed the other way gives the same value |
| Pipeline.ChainedConditionsNested | new-decoder/pipeline_tests.cc:185-187 | when doubling-then-adding is itself run on odd inputs only, it just adds one to odd inputs |
| Pipeline.FirstIsZero | new-decoder/pipeline_tests.cc:80 | the first-component-is-zero test holds exactly when the first component is zero (the test at lines 173-174) |
| Pipeline.WhenOdd | new-decoder/pipeline_tests.cc:205-213 | adding one and wrapping, when odd, gives Just the input plus one on odd inputs and Just the input otherwise; bound after a stage giving Nothing, it gives Nothing |
| Pipeline.RepeatRuns | new-decoder/pipeline.h:240-255 | `Repeat<n, F>` applies F(1), ..., F(n) in turn; `Repeat<0, F>` is the identity |
| Pipeline.RepeatAddN | new-decoder/pipeline_tests.cc:145-152 | repeating add-n from 1 to n adds 1 + ... + n |
| Pipeline.RepeatAddNExample | new-decoder/pipeline_tests.cc:190-193 | `Repeat<10, AddN>` from 0 gives 55 |
| Pipeline.LoopAddNTop60 | new-decoder/pipeline.h:257-271 | the add-n-below-60 loop gives Just the sum while it stays below 60, and Nothing otherwise |
| Pipeline.LoopAddNTop60Example | new-decoder/pipeline_tests.cc:195-197 | `Loop<10, AddNTop60>` from 0 gives Just 55 |
| Pipeline.LoopAddNTop60Overflow | new-decoder/pipeline_tests.cc:198-199 | `Loop<10, AddNTop60>` from 5 gives Nothing |
| Pipeline.ComposeStage.constructor | new-decoder/pipeline.h:147 | a composition stage stores its stages and builds neither yet |
| Pipeline.ComposeStage.Apply | new-decoder/pipeline.h:148-157 | applying it builds both stages and gives the composition's value |
| Pipeline.BindStage.constructor | new-decoder/pipeline.h:187 | a bind stage stores its stages and builds neither yet |
| Pipeline.BindStage.Apply | new-decoder/pipeline.h:188-198 | applying it builds the first stage and gives bind's value; the second stage is built only when the first gives a Just |
| Pipeline.CondStage.constructor | new-decoder/pipeline.h:218 | a conditional stage stores its three stages and builds none yet |
| Pipeline.CondStage.Apply | new-decoder/pipeline.h:219-233 | applying it builds the test, and only the branch the test selects, and gives that branch's value |
| Rescore.PerPassOptionName | new-decoder/rescore_hg.cc:24-27 | pass 1 uses the plain option name; any other pass appends its number in decimal, which reads back as that pass |
| Rescore.PerPassOptionNameInjective | new-decoder/rescore_hg.cc:24-27 | two passes never share an option name |
| Rescore.LastAvailablePassIsLargest | new-decoder/rescore_hg.cc:36 | the fallback stops at the largest pass up to the current one that sets the option, or at pass 1 when none above 1 does |
| Rescore.FindLastAvailablePass | new-decoder/rescore_hg.cc:36 | the count-down loop computes that pass |
| Rescore.Lookup | new-decoder/rescore_hg.cc:31-37 | looking up a key succeeds exactly when it is set, with its value |
| Rescore.FindLastAvailableOption | new-decoder/rescore_hg.cc:34-38 | the value read for an option is the one of the pass the fallback stops at |
| Rescore.LastAvailableOptionFound | new-decoder/rescore_hg.cc:34-38 | the fallback lookup succeeds exactly when some pass from 1 to the current one sets the option, and then reads the latest one |
| Rescore.RescoreTriggers | new-decoder/rescore_hg.cc:60-70 | pass 1 rescores exactly when it names feature functions; a later pass naming weights rescores; summarizing implies rescoring and a summary feature |
| Rescore.Lowercase | new-decoder/rescore_hg.cc:145 | lower-casing keeps the length, maps 'A'..'Z' to 'a'..'z' and keeps every other character |
| Rescore.LowercaseExample | new-decoder/rescore_hg.cc:145 | "Cube_Pruning" lower-cases to "cube_pruning" |
| Rescore.AlgorithmCases | new-decoder/rescore_hg.cc:99-111 | the algorithm is 2 and 3 exactly for the two fast cube-pruning strategies, 0 exactly when nothing is stateful and the strategy is none of "full" and the fast ones, and otherwise 1 |
| Rescore.CreateFeatureFunctions | new-decoder/rescore_hg.cc:84-91 | one feature function per name, in order; the stateful flag is set exactly when some feature function is stateful |
| Rescore.Rescorer.constructor | new-decoder/rescore_hg.cc:80-113 | the rescorer keeps the weights, the feature functions and the pop limit, and chooses the algorithm from the strategy and statefulness |
| Rescore.RescoreOptionsSources | new-decoder/rescore_hg.cc:136-154 | weights, strategy (lower-cased) and pop limit fall back to earlier passes; feature functions are read only from the pass itself, and none when it names none |
| Rescore.RescoreOptionsAsWrittenFails | new-decoder/rescore_hg.cc:137-151 | as written, a pass naming feature functions under `feature_function` fails unless `feature_functions` is also set |
| Rescore.RescoreOptionsExample | new-decoder/rescore_hg.cc:137-151 | a pass-1 configuration with one feature function is rejected as written and accepted once corrected |
| Rescore.NewRescorer | new-decoder/rescore_hg.cc:136-154 | the stage is built exactly when its options can be read; its weights come from the cache and its other settings from the options |
| Rescore.SummaryOptionsNeedFeature | new-decoder/rescore_hg.cc:235-253 | a summary stage is configured only with a summary feature for the pass and one of the three known summary types |
| Rescore.PruneDefaults | new-decoder/rescore_hg.cc:297-307 | the beam and density thresholds are read from the pass itself and are 0 when not set; without either, the pruner gets zeros |
| WeightsCaching.WeightVector.constructor | new-decoder/context.cc:17-18 | a new weight vector holds the loaded values |
| WeightsCaching.WeightsCache.constructor | new-decoder/context.cc:13 | a new cache is empty |
| WeightsCaching.WeightsCache.Get | new-decoder/context.cc:14-21 | a cached path gives the stored vector and leaves the cache alone; a new path loads a fresh vector and stores it under the path only |
| WeightsCaching.WeightsCache.GetTwice | new-decoder/context.cc:14-21 | a second lookup of a path gives the same vector as the first, and other entries keep their vectors |
| RuleFeatures.AddValue | decoder/ff_rules.cc:69 | adding to one feature changes that feature by the amount, no other, and keeps every key present |
| RuleFeatures.Plus | decoder/ff_rules.cc:130 | the sum of two sparse vectors adds them feature by feature, over the union of their keys (the target side repeats this at line 168) |
| RuleFeatures.AddEachCounts | decoder/ff_rules.cc:123 | adding 1 for each id of a list adds to each feature the number of times its id occurs, and no feature beyond those listed (the target side repeats this at line 161) |
| RuleFeatures.Escape | decoder/ff_rules.cc:20-27 | escaping keeps the length and maps each character on its own |
| RuleFeatures.EscapeProperties | decoder/ff_rules.cc:20-27 | no '=' or ';' is left, every other character is kept, and escaping twice is escaping once |
| RuleFeatures.EscapeConcat | decoder/ff_rules.cc:20-27 | escaping a concatenation escapes each part |
| RuleFeatures.EscapeCopy | decoder/ff_rules.cc:21-26 | the in-place loop over a copy computes the escaped string |
| RuleFeatures.ESymbolIndex | decoder/ff_rules.cc:61-62 | a target nonterminal reference w is written as 'N' and the number 1 - w, which is at least 1 and reads back |
| RuleFeatures.IdentityNameShape | decoder/ff_rules.cc:47-67 | a rule's identity feature name starts with "R:" and holds no '=' or ';' |
| RuleFeatures.RawIdentityNameExample | decoder/ff_rules.cc:47-66 | the rule with left-hand side X, source side "[X,1] a" and target side "[1] b" is written "R:X:NX_a:N1_b" |
| RuleFeatures.IdentityNameExample | decoder/ff_rules.cc:47-67 | escaping leaves that name as it is |
| RuleFeatures.RuleIdentityFeatures.constructor | decoder/ff_rules.cc:30-31 | a new feature starts with an empty cache |
| RuleFeatures.RuleIdentityFeatures.PrepareForInput | decoder/ff_rules.cc:33-36 | a new input clears the cache |
| RuleFeatures.RuleIdentityFeatures.TraversalFeatures | decoder/ff_rules.cc:38-70 | the rule's identity feature gains 1; the rule's id is cached, and its name is built only on a miss |
| RuleFeatures.HashFeatureName | decoder/ff_rules.cc:85-90 | the name is "H:" and the hash's hex digits, least significant first, up to the highest non-zero one |
| RuleFeatures.HashFeatureNameDecodes | decoder/ff_rules.cc:85-90 | the digits read back as the hash; a zero hash gives "H:" alone |
| RuleFeatures.RuleHashTraversal | decoder/ff_rules.cc:76-92 | the feature named after the rule's hash gains 1 |
| RuleFeatures.FirstStop | decoder/ff_rules.cc:114-125 | the first position where the chain stops (a zero symbol or an invalid feature id), and none stops before it (the target side repeats this at lines 152-163) |
| RuleFeatures.ChainFeaturesComplete | decoder/ff_rules.cc:108-131 | the chain completes exactly when no symbol stops it; then the features are exactly the side's bigrams, the closing one included |
| RuleFeatures.ChainStops | decoder/ff_rules.cc:122 | a chain that stops keeps 1 for each bigram before the stop and nothing else (the target side repeats this at lines 155, 160) |
| RuleFeatures.ChainCompletes | decoder/ff_rules.cc:126-128 | a chain without a stop counts every bigram and sets the closing bigram to 1 (the target side repeats this at lines 164-166) |
| RuleFeatures.FirstStopIs | decoder/ff_rules.cc:114-125 | the first stop is the first position that stops |
| RuleFeatures.BuildChain | decoder/ff_rules.cc:111-128 | the loop builds the chain's features and tells whether it completed (the target side repeats this at lines 149-166) |
| RuleFeatures.AddEachSnoc | decoder/ff_rules.cc:123 | adding one more id adds 1 to its feature |
| RuleFeatures.RuleBigramFeatures.constructor | decoder/ff_rules.cc:94-95 | a new bigram feature starts with an empty cache and the prefix of its side, "RBS:" or "RBT:" (the target side repeats this at lines 133-134) |
| RuleFeatures.RuleBigramFeatures.PrepareForInput | decoder/ff_rules.cc:97-100 | a new input clears the cache (the target side repeats this at lines 136-138) |
| RuleFeatures.RuleBigramFeatures.TraversalFeatures | decoder/ff_rules.cc:102-131 | the rule's chain features are cached; they are added to the edge's features when the rule was cached or its chain completes, and a stopped chain adds nothing the first time (the target side repeats this at lines 140-169) |
| RuleFeatures.RuleBigramFeatures.CacheChain | decoder/ff_rules.cc:111 | the chain's features are stored for the rule |
| HexMap.HexDigit | decoder/ff_hash.cc:8 | a nibble's digit is one of the sixteen lower-case hex digits |
| HexMap.HexDigitRoundTrip | decoder/ff_hash.cc:8 | the table is injective and every digit reads back as its nibble |
| HexMap.NibblesRoundTrip | decoder/ff_hash.h:33-40 | the digits of a value below 16^count read back as the value |
| HexMap.HexLsbFirstRoundTrip | decoder/ff_rules.cc:87-90 | the digits read back as the hash, and the last digit is never '0' |
| HexMap.HexLsbFirstInjective | decoder/ff_rules.cc:87-90 | different hashes give different names |
| HashFeatures.Pow16Eight | decoder/ff_hash.h:28-40 | eight nibbles cover a 32-bit value exactly |
| HashFeatures.EncodeBlock | decoder/ff_hash.h:33-40 | a 32-bit hash becomes eight digits, least significant first, that read back as the hash |
| HashFeatures.WriteNibbles | decoder/ff_hash.h:33-40 | the shift-and-mask steps write the value's nibbles in order |
| HashFeatures.BlockValue | decoder/ff_hash.h:33-40 | the eight digits of a 32-bit hash read back as the hash |
| HashFeatures.Hashes | decoder/ff_hash.h:30-32 | the i-th hash is the hash of the input with seed i |
| HashFeatures.HashBlocksDecode | decoder/ff_hash.h:30-42 | the i-th block of eight digits reads back as the i-th hash |
| HashFeatures.StringHash | decoder/ff_hash.h:26-43 | the output is the old text plus WIDTH blocks of eight digits, one per seed; the old text is kept as it was |
| HashFeatures.HashNameShape | decoder/ff_hash.cc:18-20 | the feature name has 18 characters: "H:" and two blocks that read back as the hashes with seeds 0 and 1 |
| HashFeatures.TraversalFeatures | decoder/ff_hash.cc:12-22 | the feature named after the rule's two-block hash gains 1 |
| CleanNbest.FindFrom | bolt-scripts/clean-nbest.py:7 | the first occurrence of the pattern at or after a position, or none |
| CleanNbest.ReplaceAbsent | bolt-scripts/clean-nbest.py:7 | replacing a pattern that does not occur changes nothing |
| CleanNbest.JoinSplit | bolt-scripts/clean-nbest.py:7-10 | joining the fields with the separator gives the line back |
| CleanNbest.SplitFieldsFree | bolt-scripts/clean-nbest.py:7 | no field contains the separator |
| CleanNbest.SplitJoin | bolt-scripts/clean-nbest.py:7-10 | splitting a join of separator-free fields gives the fields back |
| CleanNbest.JoinNoPipeSpacePipe | bolt-scripts/clean-nbest.py:7 | a join of non-empty fields without a vertical bar never holds an empty field, so the replacement leaves it alone |
| CleanNbest.DoubledAbsent | bolt-scripts/clean-nbest.py:7 | such a line has no empty-field marker to replace |
| CleanNbest.LeadingSpaces | bolt-scripts/clean-nbest.py:7 | the length of the leading whitespace |
| CleanNbest.TrailingSpaces | bolt-scripts/clean-nbest.py:7 | the length of the trailing whitespace |
| CleanNbest.Strip | bolt-scripts/clean-nbest.py:7 | the result neither starts nor ends with whitespace, a string already stripped is kept, and only characters of the input appear |
| CleanNbest.CleanLine | bolt-scripts/clean-nbest.py:8-10 | a line fails exactly when it does not have four fields, with the count and the line number in the error |
| CleanNbest.CleanFourFields | bolt-scripts/clean-nbest.py:7-10 | a line of four non-empty fields keeps fields 1, 2 and 4, stripped, joined by the separator |
| CleanNbest.ReplaceAfter | bolt-scripts/clean-nbest.py:7 | replacing in a string whose first part holds no occurrence keeps that part and replaces in the rest |
| CleanNbest.NoDoubledBefore | bolt-scripts/clean-nbest.py:7 | no empty-field marker starts inside text that ends in a non-bar character and holds no bar-space-bar |
| CleanNbest.ReplaceMarker | bolt-scripts/clean-nbest.py:7 | the marker at the head of a bar-free string is padded to two separators |
| CleanNbest.JoinEmptyThird | bolt-scripts/clean-nbest.py:8 | four fields with the third empty join to the padded marker between the second and the fourth |
| CleanNbest.PadEmptyFeatures | bolt-scripts/clean-nbest.py:7 | a line whose features field is the bare marker becomes the four fields joined, the third empty |
| CleanNbest.CleanEmptyFeatures | bolt-scripts/clean-nbest.py:7-10 | a line whose features field is empty keeps fields 1, 2 and 4, stripped, because the padding keeps the empty field in the split |
| CleanNbest.CleanLineExample | bolt-scripts/clean-nbest.py:7-10 | the four-field line "0", "a b", "F=1", "-2" becomes the three-field line "0", "a b", "-2" |
| CleanNbest.StripNewline | bolt-scripts/clean-nbest.py:7 | stripping removes the line's newline |
| CleanNbest.RunStopsAtFirstBadLine | bolt-scripts/clean-nbest.py:6-10 | the lines before the first bad one are cleaned in order, and the run stops with that line's error |
| CleanNbest.CleanFile | bolt-scripts/clean-nbest.py:6-10 | lines are numbered from 1; every line written had four fields, and the first line that does not raises the error with its count, number and stripped text |
| CleanNbest.CleanLines | bolt-scripts/clean-nbest.py:6-10 | the read loop computes that run |
| Decimal.DigitChar | new-decoder/rescore_hg.cc:26 | a digit's character stands for the digit |
| Decimal.NatRoundTrip | new-decoder/rescore_hg.cc:26 | the digits of a natural read back as it |
| Decimal.IntRoundTrip | new-decoder/rescore_hg.cc:26 | the text of any integer parses back as it |
| Decimal.IntToStringInjective | new-decoder/rescore_hg.cc:26 | different integers have different texts |
| SyntaxReader.TrimEnd | sa-extract/extract_syncon.cpp:95-98 | the trimmed length leaves no trailing control or blank character, and everything cut off is one |
| SyntaxReader.SkipLow | sa-extract/extract_syncon.cpp:105-106 | the skipped prefix is all blanks and stops at the first character that is not one |
| SyntaxReader.Core | sa-extract/extract_syncon.cpp:94-108 | the part of the line the reader tokenizes is empty or starts and ends with a visible character |
| SyntaxReader.WordLen | sa-extract/extract_syncon.cpp:120-125 | a scanned word runs up to the first white-space character and contains none |
| SyntaxReader.Words | sa-extract/extract_syncon.cpp:118-126 | every scanned word is non-empty and free of white space |
| SyntaxReader.Leading | sa-extract/extract_syncon.cpp:134-139 | the count of leading copies of a character is exact: all counted positions hold it and the next one does not |
| SyntaxReader.Trailing | sa-extract/extract_syncon.cpp:145-147 | the count of trailing copies of a character is exact at the end of the word |
| SyntaxReader.Find | sa-extract/extract_syncon.cpp:161-162 | the first position of a character, or -1 exactly when it does not occur |
| SyntaxReader.Unless | sa-extract/extract_syncon.cpp:141-142 | an empty remainder is not pushed, a non-empty one is |
| SyntaxReader.InsertRoot | sa-extract/extract_syncon.cpp:197-204 | a ROOT label is inserted after the first bracket exactly when the second token is also an opening bracket; otherwise the tokens are unchanged |
| SyntaxReader.ReadSyntactic | sa-extract/extract_syncon.cpp:76-212 | the method's trimming and scanning loops compute the token sequence `Tokenized(line)` |
| SyntaxReader.TrimmedLength | sa-extract/extract_syncon.cpp:95-98 | the trailing-blank loop stops at the trimmed length |
| SyntaxReader.FirstNonLow | sa-extract/extract_syncon.cpp:105-106 | the leading-blank loop stops at the first visible character |
| SyntaxReader.ReadPiecesStep | sa-extract/extract_syncon.cpp:118-188 | reading one more word appends that word's pieces and adds its bracket counts |
| SyntaxReader.TokenPiecesLossless | sa-extract/extract_syncon.cpp:127-187 | the pieces one word is cut into concatenate back to the word |
| SyntaxReader.OpensLossless | sa-extract/extract_syncon.cpp:129-142 | a word starting with brackets is cut into its brackets and the rest without losing characters |
| SyntaxReader.ClosesLossless | sa-extract/extract_syncon.cpp:143-157 | a word ending with brackets is cut into the label and its closing brackets without losing characters |
| SyntaxReader.InnerCloseLossless | sa-extract/extract_syncon.cpp:159-187 | a word with a closing bracket inside is cut without losing characters |
| SyntaxReader.CutPiecesLossless | sa-extract/extract_syncon.cpp:160-184 | cutting at the first inner closing bracket loses no characters |
| SyntaxReader.CutLossless | sa-extract/extract_syncon.cpp:169-183 | the closing run, the opening run and the rest after the cut concatenate back to the text |
| SyntaxReader.ReadPiecesLossless | sa-extract/extract_syncon.cpp:118-188 | the tokens of all words concatenate back to the words |
| SyntaxReader.WordsLossless | sa-extract/extract_syncon.cpp:118-126 | the scanned words concatenate to the line with its white space removed |
| SyntaxReader.TokenizedLossless | sa-extract/extract_syncon.cpp:94-207 | the tokens concatenate to the trimmed line without white space, and the result is those tokens with the ROOT insertion applied |
| SyntaxReader.PiecesCount | sa-extract/extract_syncon.cpp:127-157 | a word yields at least as many pieces as brackets counted, and a word starting with a bracket yields an opening bracket first |
| SyntaxReader.ReadPiecesPrefix | sa-extract/extract_syncon.cpp:118-188 | the tokens of a prefix of the words are a prefix of all tokens, with no more opening brackets |
| SyntaxReader.ReadPiecesCount | sa-extract/extract_syncon.cpp:118-188 | there are at least as many tokens as brackets counted |
| SyntaxReader.FirstPieces | sa-extract/extract_syncon.cpp:112-131 | when the first word starts with a bracket, the first token is an opening bracket |
| SyntaxReader.RootShape | sa-extract/extract_syncon.cpp:197-204 | after ROOT insertion the tokens start with a bracket followed by a label |
| SyntaxReader.TokenizedShape | sa-extract/extract_syncon.cpp:112-204 | a non-blank balanced line yields at least two tokens, a bracket then a label |
| SyntaxTree.Append | sa-extract/extract_syncon.cpp:31-36 | the child is added last with its brother index set to its position, the index is returned and nothing else changes |
| SyntaxTree.AppendNumbered | sa-extract/extract_syncon.cpp:31-36 | appending keeps every child's brother index equal to its position |
| SyntaxTree.LeavesFrom | sa-extract/extract_syncon.cpp:46-50 | true exactly when every child from position i on is a leaf |
| SyntaxTree.PreTerminalMeans | sa-extract/extract_syncon.cpp:41-51 | a node is pre-terminal exactly when it has children and all of them are leaves |
| SyntaxTree.AppendAtNew | sa-extract/extract_syncon.cpp:487-489 | appending under the current node puts the new item at the path of that node extended by its index |
| SyntaxTree.AppendAtOther | sa-extract/extract_syncon.cpp:487-489 | appending under a node leaves every node that is not on the path to it unchanged |
| SyntaxTree.SetHeadWordAtOther | sa-extract/extract_syncon.cpp:507-508 | numbering a terminal changes only that leaf's head word index and no node off its path |
| SyntaxTree.LeafPrefix | sa-extract/extract_syncon.cpp:486-495 | a leaf is an ancestor of no other node |
| SyntaxTree.RunStep | sa-extract/extract_syncon.cpp:474-497 | the conversion loop either carries on with the next token or stops with no tree when a closing bracket finds no current node |
| SyntaxTree.ConvertFromString | sa-extract/extract_syncon.cpp:460-511 | the method returns a tree exactly when the conversion succeeds; the tree is the converted one, its words are numbered in order and the brackets match |
| SyntaxTree.RunCounts | sa-extract/extract_syncon.cpp:466-505 | a successful conversion has read as many opening as closing brackets |
| SyntaxTree.ConvertBalanced | sa-extract/extract_syncon.cpp:466-505 | a converted tree comes from tokens with matching brackets |
| SyntaxTree.AppendAtNumbered | sa-extract/extract_syncon.cpp:31-36 | appending under any node keeps all brother indexes right and keeps the root's label |
| SyntaxTree.SetHeadWordAtNumbered | sa-extract/extract_syncon.cpp:507-508 | numbering a terminal keeps all brother indexes and the root's label |
| SyntaxTree.StepBracket | sa-extract/extract_syncon.cpp:475-485 | a bracket token keeps the conversion invariant |
| SyntaxTree.StepWord | sa-extract/extract_syncon.cpp:486-496 | a label or word token keeps the conversion invariant: the terminals found so far are the words read so far, at distinct leaves |
| SyntaxTree.RunWords | sa-extract/extract_syncon.cpp:474-510 | a successful conversion yields a tree whose terminals are the sentence's words, numbered 0, 1, ... in order |
| SyntaxTree.NumberedLeaves | sa-extract/extract_syncon.cpp:507-508 | the final loop gives terminal k the head word index k and changes nothing else at the leaves |
| SyntaxTree.NumberedRoot | sa-extract/extract_syncon.cpp:507-508 | the final loop keeps the brother indexes and the root's label |
| SyntaxTree.ConvertWords | sa-extract/extract_syncon.cpp:460-511 | every converted tree has the root label of the second token and its terminals are the words of the sentence, numbered in order |
| HeadRules.DirChar | sa-extract/extract_syncon.cpp:223 | a search direction is written as the character 0 or 1 |
| HeadRules.Tokens | sa-extract/extract_syncon.cpp:277-328 | no token of a rule table is empty |
| HeadRules.Render | sa-extract/extract_syncon.cpp:277-328 | every rule table written out as text is one the rule scanner can read |
| HeadRules.LastIn | sa-extract/extract_syncon.cpp:416-420 | the last child before n whose label is in the list, or none exactly when no such child exists |
| HeadRules.FirstIn | sa-extract/extract_syncon.cpp:423-427 | the first child from i on whose label is in the list, or none exactly when no such child exists |
| HeadRules.Decide | sa-extract/extract_syncon.cpp:385-443 | the head chosen by a table is a child of a node with children |
| HeadRules.HeadOf | sa-extract/extract_syncon.cpp:222-382 | the head chosen for a label is a child of a node with children |
| HeadRules.HeadWordRule | sa-extract/extract_syncon.cpp:385-443 | the scanning loop over the table's tokens computes the reference scan |
| HeadRules.SearchChildren | sa-extract/extract_syncon.cpp:413-428 | the child loop returns the found child in the given direction, or -1 exactly when none matches |
| HeadRules.GetHeadWord | sa-extract/extract_syncon.cpp:222-382 | the head of a node is the one its label's table gives, and is a child when there are children |
| HeadRules.ReadRest | sa-extract/extract_syncon.cpp:432-438 | reading the labels of a group adds them to the pending list |
| HeadRules.NextStartsWithDirection | sa-extract/extract_syncon.cpp:277-328 | every table starts with a direction character |
| HeadRules.ScanTokens | sa-extract/extract_syncon.cpp:385-443 | scanning a table written out as text gives the head its groups decide |
| HeadRules.ScanRender | sa-extract/extract_syncon.cpp:385-443 | scanning the text of any table gives the head its groups decide |
| HeadRules.UnknownLabelTakesLast | sa-extract/extract_syncon.cpp:224 | a label without a table takes the last child as head |
| HeadRules.BareFirstTakesLast | sa-extract/extract_syncon.cpp:400-402 | a table that is a lone 0 takes the last child |
| HeadRules.ParentheticalTakesLast | sa-extract/extract_syncon.cpp:305-306 | a parenthetical takes the last child, since its table starts with a lone 0 |
| HeadRules.NounPhraseHeads | sa-extract/extract_syncon.cpp:301-302 | noun phrases are headed by their rightmost NP or noun child |
| HeadRules.VerbPhraseHead | sa-extract/extract_syncon.cpp:309-310 | a verb phrase is headed by its leftmost verb |
| HeadRules.ClauseHeads | sa-extract/extract_syncon.cpp:283-304 | CP is headed by its complementizer and PP by its preposition |
| SyntaxSpans.Leaves | sa-extract/extract_syncon.cpp:563-579 | a tree has at least one leaf, and the leaves of a node with children lie strictly below it |
| SyntaxSpans.LeavesUpTo | sa-extract/extract_syncon.cpp:566-567 | the first n children have a leaf when n > 0, and each of their leaves lies below the node |
| SyntaxSpans.LeavesByShape | sa-extract/extract_syncon.cpp:563-579 | the leaves depend only on the shape of the tree |
| SyntaxSpans.SetSpans | sa-extract/extract_syncon.cpp:563-579 | numbering a subtree uses one number per leaf, from the first number given, and its span is exactly those numbers |
| SyntaxSpans.SpansUpTo | sa-extract/extract_syncon.cpp:566-567 | numbering the first n children in order uses one number per leaf, from the first child's start to the last child's end |
| SyntaxSpans.SpansNest | sa-extract/extract_syncon.cpp:563-579 | after numbering, every node's span runs from its first child's start to its last child's end and a leaf spans one word |
| SyntaxSpans.SpansUpToNest | sa-extract/extract_syncon.cpp:566-567 | every numbered child lies in the range of numbers used, and is well spanned |
| SyntaxSpans.SpansNumberLeaves | sa-extract/extract_syncon.cpp:569-573 | the k-th leaf in order gets the number `next + k` |
| SyntaxSpans.SpansUpToNumberLeaves | sa-extract/extract_syncon.cpp:566-573 | the k-th leaf of the first n children gets the number `next + k` |
| SyntaxSpans.SpansKeep | sa-extract/extract_syncon.cpp:563-579 | numbering spans changes nothing but the spans |
| SyntaxSpans.SpansUpToKeep | sa-extract/extract_syncon.cpp:566-567 | numbering the children changes nothing but their spans |
| SyntaxSpans.ShapeSpanFree | sa-extract/extract_syncon.cpp:563-579 | forgetting spans keeps the shape |
| SyntaxSpans.SpansKeepLeaves | sa-extract/extract_syncon.cpp:563-579 | numbering spans keeps the leaves |
| SyntaxSpans.Terms | sa-extract/extract_syncon.cpp:598-599 | the labels of the children, in order |
| SyntaxSpans.DepChain | sa-extract/extract_syncon.cpp:620-629 | marking a chain keeps the number of children, the head index and the head word of the node, and which children are leaves |
| SyntaxSpans.MarkDeps | sa-extract/extract_syncon.cpp:616-631 | the head child is left alone, and no child's head word or leaf status changes |
| SyntaxSpans.SetHeads | sa-extract/extract_syncon.cpp:582-633 | setting heads keeps each node's label, span and children count, and a node with children gets a head index |
| SyntaxSpans.DepChainMarks | sa-extract/extract_syncon.cpp:621-629 | the walk down the head chain marks every node on it with the given dependency head |
| SyntaxSpans.DepChainKeeps | sa-extract/extract_syncon.cpp:620-629 | marking a chain keeps the head and dependency invariants of the subtree |
| SyntaxSpans.HeadsSet | sa-extract/extract_syncon.cpp:582-633 | after the pass every node's head index is a child, its head word is that child's, and every non-head child's head chain is marked with the parent's head word |
| SyntaxSpans.HeadWordIsLeafWord | sa-extract/extract_syncon.cpp:604-606 | the head word of every node is the number of one of its own leaves |
| SyntaxSpans.DepChainFrame | sa-extract/extract_syncon.cpp:620-629 | marking a chain changes only dependency heads |
| SyntaxSpans.HeadsFrame | sa-extract/extract_syncon.cpp:582-633 | the head pass changes only head indexes, head words and dependency heads |
| SyntaxSpans.FrameSpans | sa-extract/extract_syncon.cpp:582-633 | trees that differ only in heads have the same spans and shape |
| SyntaxSpans.FrameLeaf | sa-extract/extract_syncon.cpp:582-633 | trees that differ only in heads number the same leaves alike |
| SpanChecks.InsideAncestor | sa-extract/extract_syncon.cpp:563-579 | a node's span lies inside each ancestor's span |
| SpanChecks.Climb | sa-extract/extract_syncon.cpp:642-643 | the climb stops at an ancestor with the same start that ends by the span's end, and its parent either starts elsewhere or ends after it |
| SpanChecks.ItemAt | sa-extract/extract_syncon.cpp:639-643 | the item found from word k covers word k |
| SpanChecks.Items | sa-extract/extract_syncon.cpp:671-682 | the walk finds at least one item, the first being the item at the starting word |
| SpanChecks.ItemsNext | sa-extract/extract_syncon.cpp:678-679 | an item that ends before the span's end is followed by the item at the next word |
| SpanChecks.ItemsLast | sa-extract/extract_syncon.cpp:680-681 | an item that reaches the span's end is the last |
| SpanChecks.WalkCons | sa-extract/extract_syncon.cpp:671-682 | prepending an adjacent item keeps the items gapless and ending at the span's end |
| SpanChecks.ItemsCover | sa-extract/extract_syncon.cpp:671-682 | the items are adjacent, each starting right after the previous one, and the last reaches the span's end |
| SpanChecks.ItemsAccCollects | sa-extract/extract_syncon.cpp:667-682 | collecting items into a vector gives the items in order after what was collected |
| SpanChecks.AllParentCons | sa-extract/extract_syncon.cpp:645-648 | all items share a parent exactly when the first does and the rest do |
| SpanChecks.FlatNext | sa-extract/extract_syncon.cpp:641-655 | one step of the flattened walk: fail when the item's parent differs from the common one, otherwise go on from the next word |
| SpanChecks.FlatFromKnown | sa-extract/extract_syncon.cpp:641-657 | once the common parent is known, the walk succeeds exactly when every item has that parent |
| SpanChecks.FlatFromShared | sa-extract/extract_syncon.cpp:634-658 | the flattened test succeeds exactly when all items have the same parent |
| SpanChecks.RootItemAlone | sa-extract/extract_syncon.cpp:642-654 | an item that is the root is the only one |
| SpanChecks.Heads | sa-extract/extract_syncon.cpp:690-697 | the positions found are below n |
| SpanChecks.HeadsExact | sa-extract/extract_syncon.cpp:691-697 | the positions found are exactly the head items, in increasing order |
| SpanChecks.OnlyHead | sa-extract/extract_syncon.cpp:710-717 | when exactly one item is a head, no other item is |
| SpanChecks.HeadsStep | sa-extract/extract_syncon.cpp:691-697 | one more item adds its position exactly when it is a head item |
| SpanChecks.HeadsGrow | sa-extract/extract_syncon.cpp:691-697 | looking at more items finds at least as many heads |
| SpanChecks.ChainedIsSame | sa-extract/extract_syncon.cpp:701-705 | neighbouring items sharing a dependency head is the same as all sharing the first's |
| SpanChecks.ClimbToRoot | sa-extract/extract_syncon.cpp:642-643 | from a node starting where the root starts, the climb reaches the root when the root ends by the span's end |
| SpanChecks.WholeSentence | sa-extract/extract_syncon.cpp:671-687 | the whole sentence is a single item, the root, and passes both tests |
| SpanChecks.RowStartClosed | sa-extract/extract_syncon.cpp:521 | twice the start of row i is `(2n - 1)i - i*i`, the source's closed form |
| SpanChecks.RowStartGrows | sa-extract/extract_syncon.cpp:521 | later rows start later |
| SpanChecks.TableSize | sa-extract/extract_syncon.cpp:528 | the table has `n(n - 1)/2` cells, one per row cell |
| SpanChecks.Offset | sa-extract/extract_syncon.cpp:517-522 | the cell of pair (i, j) is `j - i - 1` into row i and lies inside the table |
| SpanChecks.RowsBefore | sa-extract/extract_syncon.cpp:532-541 | the cells of earlier rows lie before row i |
| SpanChecks.OffsetInjective | sa-extract/extract_syncon.cpp:517-522 | different pairs have different cells |
| ParsedTrees.Spanned | sa-extract/extract_syncon.cpp:636-637 | the tree with spans set is checkable, keeps its leaves and has spans |
| ParsedTrees.Headed | sa-extract/extract_syncon.cpp:664-665 | the tree with heads set is still checkable, keeps its leaves and has a head index |
| ParsedTrees.SpansPrepared | sa-extract/extract_syncon.cpp:551-554 | numbering the tree of a sentence makes it checkable and keeps its leaves |
| ParsedTrees.HeadsPrepared | sa-extract/extract_syncon.cpp:556-560 | setting heads keeps the tree checkable and keeps its leaves |
| ParsedTrees.GoalReached | sa-extract/extract_syncon.cpp:636-665 | preparing a tree twice is preparing it once: spans and heads are set only when missing |
| ParsedTrees.ParsedTree.constructor | sa-extract/extract_syncon.cpp:448-452 | a new tree has no table |
| ParsedTrees.ParsedTree.SetSpanInfo | sa-extract/extract_syncon.cpp:551-554 | the root becomes the tree with spans numbered from 0, the table untouched |
| ParsedTrees.ParsedTree.SetHeadWord | sa-extract/extract_syncon.cpp:556-560 | the root becomes the tree with heads set, the table untouched |
| ParsedTrees.ParsedTree.ParentOf | sa-extract/extract_syncon.cpp:639 | the parent of a node is the path without its last step |
| ParsedTrees.ParsedTree.Raise | sa-extract/extract_syncon.cpp:642-643 | the climbing loop computes `Climb` |
| ParsedTrees.ParsedTree.WalkShared | sa-extract/extract_syncon.cpp:638-657 | the walk answers whether all items share one parent |
| ParsedTrees.ParsedTree.IsDepFixFloatStructureFlattened | sa-extract/extract_syncon.cpp:634-659 | spans are set when missing, and the answer is whether all items of the span share one parent |
| ParsedTrees.ParsedTree.CollectItems | sa-extract/extract_syncon.cpp:667-682 | the loop collects exactly the items of the span |
| ParsedTrees.ParsedTree.FindHead | sa-extract/extract_syncon.cpp:689-697 | the loop finds the single head item, or none, or stops with at least two heads |
| ParsedTrees.ParsedTree.ChainTest | sa-extract/extract_syncon.cpp:699-707 | the neighbour loop answers whether all items share one dependency head |
| ParsedTrees.ParsedTree.HeadTest | sa-extract/extract_syncon.cpp:709-722 | the loop answers whether every other item depends on the head item's word |
| ParsedTrees.ParsedTree.DepTest | sa-extract/extract_syncon.cpp:684-723 | the test on the items is `FixFloat`: one item, or no head and one shared dependency head, or one head on which all others depend |
| ParsedTrees.ParsedTree.IsDepFixFloatStructure | sa-extract/extract_syncon.cpp:660-724 | spans and heads are set when missing, and the answer is the dependency test on the span's items |
| ParsedTrees.ParsedTree.CheckPair | sa-extract/extract_syncon.cpp:534-535 | the answer for a pair is the selected test's |
| ParsedTrees.ParsedTree.SetCell | sa-extract/extract_syncon.cpp:534-539 | the pair's cell is set exactly when its test passes, and no other cell changes |
| ParsedTrees.ParsedTree.FillRow | sa-extract/extract_syncon.cpp:533-540 | row i holds the answers of all pairs (i, j), earlier rows are kept and later rows stay clear |
| ParsedTrees.ParsedTree.FillTable | sa-extract/extract_syncon.cpp:532-541 | every pair's cell holds its test's answer |
| ParsedTrees.ParsedTree.InitializeConstraint | sa-extract/extract_syncon.cpp:523-542 | a table already built is kept; otherwise a fresh table holds every pair's answer, and the whole sentence is accepted |
| ParsedTrees.ParsedTree.WholeSentenceCell | sa-extract/extract_syncon.cpp:523-542 | the cell of the whole sentence is always set |
| ParsedTrees.ParsedTree.IsMeetConstraint | sa-extract/extract_syncon.cpp:544-549 | the table is built on first use, and the answer is the pair's cell, the test's answer on the tree the table was built with |

## Left out

- Floating point. Lattice arc costs, the edge lattice cost and the lattice-cost feature are integers. Viterbi weights are naturals with `*` for the product of probabilities. Feature values and weight vectors are reals. Nothing models rounding.
- `Hypergraph::PruneUnreachable` (decoder/bottom_up_parser.cc:391-392) is not modelled: the hypergraph's own code is not part of this model. `PassiveCharts.PassiveChart.Parse` states its result before pruning, which pruning does not change.
- The grammar trie (`GrammarIter`, `RuleBin`), the hypergraph internals and the rule type are not part of this model. The grammar is a value holding a transition map, rule bins, unary rules and the `HasRuleForSpan` answers. The forest keeps only the fields the parser and the Viterbi search read.
- The progress output, the `SILENT` flag and the `reserve` sizing hints of `PassiveChart::Parse` (decoder/bottom_up_parser.cc:318-321, 340-342, 388) have no effect on the result.
- PassiveCharts.PassiveChart.constructor: requires that no grammar rule has the goal label as its left-hand side. The source only asserts that a second goal node never appears (decoder/bottom_up_parser.cc:280).
- PassiveCharts.PassiveChart.constructor: requires an empty forest. The source accepts any forest and appends to it (decoder/bottom_up_parser.cc:264, 277), and the decoder hands it a fresh one; the model's node indices and its goal statements are those of a forest the parse starts from empty.
- PassiveCharts.ExhaustiveBottomUpParser.Parse: requires an empty forest, for the same reason. The source passes the caller's forest straight to the chart (decoder/bottom_up_parser.cc:406-411), and its own pruning treats the last node as the goal (decoder/bottom_up_parser.cc:392), which only holds when the parse started from an empty forest.
- ParsedTrees.ParsedTree.constructor: requires, for two or more words, that the terminal paths are the tree's leaves in order. `SyntaxTree.ConvertWords` proves of a converted tree that every terminal path leads to a leaf holding its word, in order, but not that the tree has no other leaf, so the link from the reader to this requirement is not proved.
- ActiveCharts.ActiveChart.AdvanceDotsForAllItemsInCell: requires a well-formed lattice (`WellFormed`): every arc has a distance to the next position of at least 1 and lands inside the lattice. The source checks neither. It pushes the scanned items into cell (i, j + len - 1) for whatever length the arc carries (decoder/bottom_up_parser.cc:220-226). A length of 0 pushes into the cell being iterated, which is undefined behaviour. An arc past the end writes outside the (n+1) x (n+1) chart. A negative length that stays in range is defined behaviour: it pushes into an earlier cell of row i, for instance cell (0, 0) for i = 0, j = 2 and length -1. The model does not cover that case.
- PassiveCharts.PassiveChart.constructor: requires a well-formed lattice (`WellFormed`), for the same three reasons. It also requires `DistanceCovers(n + 1)`: the distance table is either empty or (n+1) x (n+1), which is the shape `Lattice::ComputeDistances` (decoder/lattice.h:46, 56) gives `dist_`. The source reads `dist_` without checking its size (decoder/lattice.h:33-36).
- PassiveCharts.ExhaustiveBottomUpParser.Parse: requires a well-formed lattice and `DistanceCovers`, as the constructor does. The source passes the lattice straight to the chart (decoder/bottom_up_parser.cc:406-411). A lattice with arc lengths below 1, or with arcs that overshoot its end, reaches the behaviours listed for `AdvanceDotsForAllItemsInCell`, and those are not modelled.
- PassiveCharts.PassiveChart.Parse: requires, when the metadata carries constraints, that every item of the constraint string is below the source length and that the lattice is no longer than it. The source writes its mask without a range check (decoder/bottom_up_parser.cc:78-84) and asserts the second when reading it (decoder/bottom_up_parser.cc:58-60).
- SyntacticConstraints.SyntacticConstraint.constructor: `atoi` is modelled on unbounded integers. Its overflow on long digit strings is not modelled.
- The Murmur hash, the `TD` symbol dictionary and the `FD` feature dictionary are parameters of the model. The same holds for loading a weights file (`Weights::InitFromFile`) and for the stateful flag of a feature function.
- `Rescorer::Apply` (new-decoder/rescore_hg.cc:115-127) is not modelled: it calls the model-set application and reweighting, which are not part of this model.
- The summary stage (new-decoder/rescore_hg.cc:162-233) and the pruning itself (new-decoder/rescore_hg.cc:261-290) are floating-point computations and are not modelled. Their option predicates and defaults are modelled.
- The pipeline stages are modelled as the functions they apply. The input and context every stage passes along are left out, since the combinators pass them on unchanged. The pipeline's wiring, option registration and I/O stages are not part of this model.
- `operator<<` and `operator>>` of `Maybe` are modelled on a stream of words, not on `std::iostream`. A stream is its remaining words and a failure flag, so a word that starts with a number and goes on with other characters is read as a word that is not a number.
- Pipeline.Read: at the end of the stream after "Just", on a Nothing variable, the source wraps an `int` that was never written; the model wraps 0 there.
- The alignment traversal that sorts alignment points and builds the alignment (decoder/viterbi.h:190-270, the sort at 246) is a parameter of the alignment search. Only its comparison function is modelled, in `ViterbiAlignment.AlignLessAsWritten`.
- The stdin loop of bolt-scripts/clean-nbest.py is modelled as a function over the list of lines; printing is the list of lines returned. The exception is an error result holding the message.
- SyntaxReader.ReadSyntactic: requires a line of bytes without NUL (UTF-8 text included), whose trimmed text is empty or starts with `(` and has as many opening as closing brackets. A line starting with `<` makes the source loop forever, since the `continue` re-examines the unchanged line (sa-extract/extract_syncon.cpp:107-108). A line starting with another character reads the bracket counters uninitialised, and unequal counts fail the source's assertion (sa-extract/extract_syncon.cpp:190).
- SyntaxTree.ConvertFromString: requires at least two tokens, and that the conversion never reaches undefined behaviour. Appending to a null current node is excluded, and so is reading token 1 of a shorter vector.
- The tree's pointers are paths of child indices. A node's parent is its path without the last index. Destructors and memory release are not modelled.
- The English and GENIA head-rule tables in sa-extract/extract_syncon.cpp are commented out. Only the active Chinese table (sa-extract/extract_syncon.cpp:277-328) is modelled.
- HeadRules.HeadWordRule: the source finds a child's label in the pending list with `strstr` on " label ". This is modelled as membership of the label in the list. The two agree for labels without spaces, which the tokenizer guarantees.
- ParsedTrees.ParsedTree.IsDepFixFloatStructure: requires that when the span has several items, none is the root. The source reads the parent of every item (sa-extract/extract_syncon.cpp:692) and would dereference null for the root.
- ParsedTrees.ParsedTree.InitializeConstraint: requires for the dependency check that every pair of words meets the precondition of `IsDepFixFloatStructure`.
- SpanChecks.Offset: the source computes the offset in `int`. Its overflow for sentences of more than about 46,000 words is not modelled.
- The extractor's reader loop `SParseReader`, the gzip output and `main` (sa-extract/extract_syncon.cpp) are I/O and are not modelled.

## Findings

| source | as written | input that shows it | evidently intended | confidence | as-written member | corrected member |
|---|---|---|---|---|---|---|
| decoder/viterbi.h:110-121 | `AlignSortFunction` answers true for two equal points, so it is not the strict weak order `std::sort` requires | any point compared with itself, e.g. (s 0, t 0) | order by target position, then by source position, strictly | not executed | ViterbiAlignment.AlignLessAsWrittenReflexive | ViterbiAlignment.AlignLessStrictTotal |
| new-decoder/rescore_hg.cc:137-151 | presence of feature functions is tested under `feature_function`, but the list is read under `feature_functions` | pass 1 with weights, strategy `Cube_Pruning`, pop limit 200 and `feature_function` set to `WordPenalty` | read the list under the key whose presence was tested | not executed | Rescore.RescoreOptionsExample | Rescore.RescoreOptionsSources |
