# Recursion schemes, freer programs and their laws

The library folds, unfolds and rewrites recursive data through one comonadic and one monadic
worker, and interprets suspended programs through four different interpreters. Its tests compare
the alternatives on a few fixtures. This project models both halves and proves that the
alternatives agree on every input.

- `Functors`, `Schemes`, `DistLaws`: the base functor, the fixed point, Cofree and Free, the
  specialised schemes, and the distributive laws with their lawfulness.
- `Generalized`: `gcata` and `gana` as single workers parameterised by an effect and a law, and the
  proofs that they recover cata, histo, zygo, para, ana, apo and futu, and that `ghylo` recovers
  refold, dyna, codyna and chrono.
- `Rewriting`, `ZygoHisto`: hoist, prepro, postpro, gprepro, gpostpro and `zygo_histo_prepro`.
- `Freer`, `Running`, `Rows`, `Pairing`, `Tasks`, `Retry`: programs, the run loop, discharging part
  of a row, pairing with a mock, the Mendler fold, and the retry example.
- `Boxes`, `OneShots`: the call-once boxes that a program's nodes hold, how send, bind and discharge
  fill them and move them into one another, and the interpreters over such nodes.
- `Text`, `SenderDot`, `PrettyPrint`, `Coins`: the DOT emitter, the expression printer and coin
  change, each against an independent reader or specification.

## How the code is represented

**One base functor.** Every layer is a label and a sequence of positions, the shape of `RoseF`
(`src/smd/concrete/functors.hpp:447-484`). A functor with finitely many positions is this one at a
suitable label type: the unary numbers use labels Zero and Succ, expressions use constants, sums and
products. The comonad and the monad a scheme runs at are records of their operations at the types
one scheme uses them at, as the single instance lookup in the source does. For pure code, algebras
and coalgebras are ordinary function values.

**Unfolds that need not stop.** C++ lets an unfold diverge. Here an unfold takes a ghost bound on
its own recursion. Since a layer has finitely many positions, a bound exists for exactly the seeds
on which the recursion stops (`Schemes.StopsIffBound`, `ApoStopsIffBound` and `ChunkStopsIffBound`),
so the theorems cover every terminating coalgebra. They do not assume that two schemes stop
together: that is proved, with the exact bounds.

**Natural transformations** are a new label and a choice of old positions, both computed from the old
label and the number of positions. They may drop, repeat and reorder. Every family of functions that
commutes with changing the elements has this form (`Rewriting.NaturalIsRepresented`).

**Programs** are finished values or an operation with a continuation on the responses of its type.
The continuation is a map, so induction reaches what follows any response and equality of programs
is extensional. A program with an infinite path is kept through the runs that stop, by leaving out
responses they do not take. A handler takes its state and an operation to a response and a new
state. The loops that rebind `current` are methods with loops over handler objects.

**Boxes.** `Boxes` has the nodes as they stand in memory: an operation and a call-once box on the
heap. A box holds the closure that send, a bind or a discharge put there, and the closure of a bind
or a discharge owns the box it was moved from. A `Build` is a program as it is written, out of
values, sends, binds and discharges nested in any way; putting it together and calling its boxes are
methods over the heap, and their contracts say that the node in memory is the program the build
means. That every box reached is full is a precondition of `Boxes.OneShot.Call` and follows from how
the boxes came about. The other modules reason about programs as values, and every such program is
the meaning of some build (`Boxes.EveryProgramIsWritten`).

**Rows.** An operation belongs to exactly one signature of a row, so a signature is a test on
operations. Discharging returns the value paired with the handler's final state, which makes the
state that the source holds in a captured reference observable.

**The mock** is an infinite annotated tree and is given by its observations, with the equation of
`unfold_cofree` as the definition of being unfolded from a seed.

**Text** is modelled character by character, integers are unbounded.

## Where the code does not meet a law

- A DOT label joins tag and data with the same escape that stands for a newline inside either. The
  rendering gives the tree back exactly when no tag holds a newline (`SenderDot.DotRoundTrip`);
  `SenderDot.NewlineTagIsLost` has a tag for which it does not.
- The printer drops parentheses from right-nested sums and products. The value is always kept, the
  tree exactly when nothing is nested to the right under its own operator
  (`PrettyPrint.PrettyRoundTrip`); `PrettyPrint.RightNestingIsLost` shows `1 + (2 + 3)`.
- `zygo_histo_prepro` recomputes the cells below the first history layer under the parent's helper
  value. It matches the true history for every algebra exactly when the rewritten tree has at most
  three layers or one of the two types has a single value (`ZygoHisto.TrueForEveryAlgebraIff`);
  `ZygoHisto.FourChainDiffers` has a chain of four layers. What it computes on all trees is
  `ZygoHisto.ZygoHistoPreproIsEnvHistory`.
- `run_task` copies its handler. State held inside the handler gives the loop's values for every
  program exactly when that state never shows in an answer (`Tasks.CopiedStateAgreesIff`);
  `Tasks.CountingHandlerDiffers` asks a counter twice.

## Model

| member | source | states |
|---|---|---|
| `Functors.DuplicateCounit` | src/smd/fixpoint/cofree.hpp:121-157 | extract at the root of a duplicate, or mapped everywhere over it, gives the annotated tree back |
| `Functors.DuplicateCoassociative` | src/smd/fixpoint/cofree.hpp:129-139 | duplicating twice from outside or from inside is the same |
| `Functors.DuplicateNatural` | src/smd/fixpoint/cofree.hpp:129-157 | duplicate commutes with fmap |
| `Functors.CofreeMapCompose` | src/smd/fixpoint/cofree.hpp:82-94 | two maps over an annotated tree are one |
| `Functors.FreeBindRightIdentity` | src/smd/fixpoint/free.hpp:192-209 | binding to pure changes nothing |
| `Functors.FreeBindAssociative` | src/smd/fixpoint/free.hpp:192-209 | bind is associative |
| `Functors.FreeMapIsBind` | src/smd/fixpoint/free.hpp:86-109 | fmap is bind to a leaf |
| `Schemes.ZygoIsMutual` | src/smd/fixpoint/zygo.hpp:39-54 | the helper half is the helper's own fold, and the main algebra sees at each child that fold beside its own result |
| `Schemes.HistoryHoldsEveryResult` | src/smd/fixpoint/histo.hpp:28-35 | the cell at any path of the history is the history of the subtree at that path |
| `Schemes.RefoldIsFoldAfterUnfold` | src/smd/fixpoint/recursion_schemes.hpp:88-99 | the fused refold equals the fold of the unfolded tree |
| `Schemes.UnfoldIsUnique` | src/smd/fixpoint/recursion_schemes.hpp:76-86 | the only tree that answers the coalgebra layer by layer is the unfolded one |
| `Schemes.HaltsIffHeight` | src/smd/fixpoint/recursion_schemes.hpp:76-86 | the recursion depth an unfold needs is exactly the height of its tree |
| `Schemes.StopsIffBound` | src/smd/fixpoint/recursion_schemes.hpp:76-86 | the unfold stops from a seed if and only if its depth has a bound |
| `Schemes.ApoStopsIffBound` | src/smd/fixpoint/apo.hpp:37-50 | the same for apo, where finished subtrees need no bound |
| `Schemes.ChunkStopsIffBound` | src/smd/fixpoint/futu.hpp:44-75 | the same for futu, over the seeds of whole chunks |
| `Schemes.RankHalts` | src/smd/fixpoint/recursion_schemes.hpp:76-86 | a rank that drops at every child seed makes the unfold stop |
| `Schemes.DynaIsHistoAfterUnfold` | src/smd/fixpoint/chrono.hpp:64-73 | dyna is histo of the unfolded tree |
| `Schemes.UnrollIsFutu` | src/smd/fixpoint/chrono.hpp:45-56 | peeling one layer off a chunk at a time builds futu's tree, whatever mix of seeds and built layers the chunk is |
| `Schemes.UnrollHaltsOnlyIfFutu` | src/smd/fixpoint/chrono.hpp:45-56 | peeling stops on no chunk that futu diverges on |
| `Schemes.ChronoIsHistoAfterFutu` | src/smd/fixpoint/chrono.hpp:82-112 | codyna is the fold and chrono the histo of futu's tree |
| `Schemes.FutuEvidence` | src/smd/fixpoint/futu.hpp:44-75 | futu's tree does not depend on the bound that shows it stops |
| `DistLaws.DistHistoLawful` | src/smd/fixpoint/dist_laws.hpp:141-155 | dist_histo commutes with extract and with duplicate on every layer |
| `DistLaws.DistHistoNatural` | src/smd/fixpoint/dist_laws.hpp:141-155 | dist_histo is natural |
| `DistLaws.DistFutuLawful` | src/smd/fixpoint/dist_laws.hpp:184-205 | dist_futu commutes with pure and with join on every chunk |
| `DistLaws.DistFutuNatural` | src/smd/fixpoint/dist_laws.hpp:184-205 | dist_futu is natural |
| `DistLaws.DistApoLawful` | src/smd/fixpoint/dist_laws.hpp:305-326 | dist_apo commutes with pure and with join, Left kept Left |
| `Generalized.CataViaGcataIsFold` | src/smd/fixpoint/generalized.hpp:134-145 | gcata at the identity comonad is the fold |
| `Generalized.ZygoWorker` | src/smd/fixpoint/generalized.hpp:68-87 | gcata's worker at the pair comonad carries the helper's fold first and the children's pairs second |
| `Generalized.ZygoViaGcataIsZygo` | src/smd/fixpoint/generalized.hpp:167-173 | zygo is recovered for every helper, algebra and tree |
| `Generalized.ParaViaGcataIsPara` | src/smd/fixpoint/generalized.hpp:183-188 | para is recovered; the worker's first slot is the original tree rebuilt |
| `Generalized.HistoryFromLayers` | src/smd/fixpoint/generalized.hpp:68-87 | the algebra mapped over the layers of histories gives the history at every depth |
| `Generalized.LayersFromDuplicates` | src/smd/fixpoint/generalized.hpp:79-86 | distributing the children's duplicated histories gives those layers |
| `Generalized.HistoWorker` | src/smd/fixpoint/generalized.hpp:68-87 | the worker at the Cofree comonad is the tree of layers of histories |
| `Generalized.HistoViaGcataIsHisto` | src/smd/fixpoint/generalized.hpp:154-158 | the worker's annotated tree mapped by the algebra is histo's whole history, and histo is recovered |
| `Generalized.GanaWorkerIsUnfold` | src/smd/fixpoint/generalized.hpp:233-252 | at every monad and law the worker is a plain unfold of join-then-fmap |
| `Generalized.GanaWorkerBuilds` | src/smd/fixpoint/generalized.hpp:233-252 | given a tree that answers that step, the worker stops within n exactly from its height on, and builds it |
| `Generalized.AnaViaGanaIsUnfold` | src/smd/fixpoint/generalized.hpp:297-305 | gana at the identity monad stops on the seeds the unfold stops on, at the same depth, with its tree |
| `Generalized.LeftIsRebuilt` | src/smd/fixpoint/generalized.hpp:322-336 | a Left subtree is rebuilt node for node under every coalgebra |
| `Generalized.ApoViaGanaIsApo` | src/smd/fixpoint/generalized.hpp:338-346 | apo is recovered: stops on exactly apo's seeds, after exactly the height of apo's tree, with that tree |
| `Generalized.JoinAfterDistExpands` | src/smd/fixpoint/generalized.hpp:243-251 | one worker step re-expands every seed of the remaining chunk |
| `Generalized.ExpandKeepsTree` | src/smd/fixpoint/generalized.hpp:243-251 | re-expansion keeps futu's tree and still stops |
| `Generalized.FutuStepPeels` | src/smd/fixpoint/generalized.hpp:243-251 | what each worker step leaves to do: a seed opens into its layer, a built layer is peeled and each chunk below expanded |
| `Generalized.FutuViaGanaIsFutu` | src/smd/fixpoint/generalized.hpp:360-365 | futu is recovered: stops on exactly futu's seeds, after exactly the height of futu's tree, with that tree |
| `Generalized.GhyloAnaRecovers` | src/smd/fixpoint/generalized.hpp:397-405 | ghylo at (cata, ana) is refold, at (histo, ana) dyna |
| `Generalized.GhyloFutuRecovers` | src/smd/fixpoint/generalized.hpp:397-405 | ghylo at (cata, futu) is codyna, at (histo, futu) chrono; the fused and the materialising form stop on the same seeds at the same depth |
| `Rewriting.Natural` | src/smd/fixpoint/prepro.hpp:10-25 | a transformation commutes with mapping the positions |
| `Rewriting.OnlyGivenPositions` | src/smd/fixpoint/prepro.hpp:10-25 | a function that commutes with changing the elements gives back only elements it was given |
| `Rewriting.NaturalIsRepresented` | src/smd/fixpoint/prepro.hpp:10-25 | every such family of functions is a label map with a choice of positions, at every element type |
| `Rewriting.ComposeAt` | src/smd/fixpoint/prepro.hpp:10-25 | transformations compose |
| `Rewriting.HoistIsTopDown` | src/smd/fixpoint/prepro.hpp:51-56 | the bottom-up fold equals rewriting from the root down |
| `Rewriting.HoistFusion` | src/smd/fixpoint/prepro.hpp:51-56 | hoisting twice is hoisting the composition |
| `Rewriting.HoistNotHigher` | src/smd/fixpoint/prepro.hpp:51-56 | hoisting never makes a tree higher |
| `Rewriting.DeepenHoistCommute` | src/smd/fixpoint/prepro.hpp:84-94 | rewriting once more commutes with rewriting every child of every node |
| `Rewriting.PreproIsFoldOfDeepened` | src/smd/fixpoint/prepro.hpp:84-94 | prepro is the plain fold of the rewritten tree |
| `Rewriting.PostproIsDeepenedUnfold` | src/smd/fixpoint/prepro.hpp:112-122 | postpro is the rewriting of the unfolded tree |
| `Rewriting.PreproAfterUnfoldIsFoldAfterPostpro` | src/smd/fixpoint/prepro.hpp:84-122 | prepro after an unfold equals a fold after postpro |
| `Rewriting.DeepenIsByDepth` | src/smd/fixpoint/prepro.hpp:59-94 | a layer at depth k was transformed exactly k times, the root never |
| `Rewriting.HoistTimesDeepens` | src/smd/fixpoint/prepro.hpp:59-94 | the same from any starting depth |
| `Rewriting.RelabelledOncePerLevel` | src/smd/fixpoint/prepro.hpp:59-94 | under a relabelling no node moves and a label d levels down is changed d times |
| `Rewriting.GpreproWorkerDeepens` | src/smd/fixpoint/generalized.hpp:432-452 | at every comonad and law the worker is gcata's on the rewritten tree |
| `Rewriting.GpreproIsGcataOfDeepened` | src/smd/fixpoint/generalized.hpp:478-486 | gprepro is gcata of the rewritten tree |
| `Rewriting.GpostproIsDeepenedGana` | src/smd/fixpoint/generalized.hpp:504-552 | at every monad and law gpostpro rewrites gana's tree |
| `Rewriting.GeneralizedRecoversPlain` | src/smd/fixpoint/generalized.hpp:454-552 | with the cata and ana laws gprepro is prepro and gpostpro is postpro |
| `Rewriting.UnchangedRecoversGeneralized` | src/smd/fixpoint/generalized.hpp:462-467 | with the identity transformation gprepro is gcata and gpostpro is gana, at every law |
| `ZygoHisto.RedoFromAttached` | src/smd/fixpoint/generalized.hpp:608-628 | distributing a history with one environment attached everywhere recomputes every cell under that environment |
| `ZygoHisto.EnvWorker` | src/smd/fixpoint/generalized.hpp:598-711 | the worker's helper slot is the helper's fold and its Cofree, mapped by the algebra, is the history actually built |
| `ZygoHisto.ZygoHistoPreproIsEnvHistory` | src/smd/fixpoint/generalized.hpp:750-757 | the scheme's result for every helper, rewriting and main algebra |
| `ZygoHisto.RewritingZygoIsZygoOfDeepened` | src/smd/fixpoint/generalized.hpp:432-452 | direct recursion on hoisted children is zygo of the rewritten tree |
| `ZygoHisto.OneLayerAlgebrasAreDirect` | src/smd/fixpoint/generalized.hpp:750-757 | an algebra that reads only helper values and extract gets the direct recursion that pairs the helper's prepro with the result |
| `ZygoHisto.DegeneratesToFold` | src/smd/fixpoint/generalized.hpp:738-740 | with the helper ignored and only extract used the scheme is prepro, and fold_fix when nothing is rewritten |
| `ZygoHisto.HelperlessAlgebrasAreHisto` | src/smd/fixpoint/generalized.hpp:750-757 | an algebra that ignores the helper may look to any depth and gets histo of the rewritten tree |
| `ZygoHisto.ThreeLayersAreTrue` | src/smd/fixpoint/generalized.hpp:598-711 | on at most three layers every algebra sees true results |
| `ZygoHisto.HigherTreesDiffer` | src/smd/fixpoint/generalized.hpp:598-711 | on every higher tree, for any two helper values and any two results, a concrete algebra gets the one where the true history gives it the other |
| `ZygoHisto.TrueForEveryAlgebraIff` | src/smd/fixpoint/generalized.hpp:750-757 | the scheme agrees with the true history for all helpers and algebras if and only if the rewritten tree has at most three layers, or one of the two types has a single value |
| `ZygoHisto.OneHelperValueIsTrue` | src/smd/fixpoint/generalized.hpp:598-711 | with a single helper value every cell at every depth is a true result |
| `ZygoHisto.FourChainDiffers` | src/smd/fixpoint/generalized.hpp:750-757 | a four-layer chain on which the scheme answers true and the true history false |
| `Freer.BindSend` | src/smd/fixpoint/freer.hpp:152-161 | binding after one operation continues with its response |
| `Freer.BindRightIdentity` | src/smd/fixpoint/free.hpp:222-238 | binding to pure changes nothing |
| `Freer.BindAssociative` | src/smd/fixpoint/free.hpp:222-238 | bind is associative |
| `Freer.MapIsBind` | src/smd/fixpoint/freer.hpp:180-226 | post-composing under the layers is binding to a finished value |
| `Freer.InterpretBind` | src/smd/fixpoint/freer_run.hpp:52-76 | running a bound program is running the first part, then the rest from the state reached, traces concatenated |
| `Freer.InterpretMap` | src/smd/fixpoint/free.hpp:135-153 | a mapped program runs alike and maps its value |
| `Freer.ObservationsDecide` | src/smd/fixpoint/freer_run.hpp:140-151 | programs that no scripted handler tells apart by value, state and operations are equal |
| `Boxes.OneShot.Holding` | src/smd/fixpoint/one_shot.hpp:67-72 | a new box is full |
| `Boxes.OneShot.MovedFrom` | src/smd/fixpoint/one_shot.hpp:77-78 | moving takes the target and empties the source |
| `Boxes.OneShot.MoveAssign` | src/smd/fixpoint/one_shot.hpp:80-86 | assignment replaces the target and empties the source, and does nothing to itself |
| `Boxes.OneShot.Call` | src/smd/fixpoint/one_shot.hpp:97-108 | called full, the box and every box its closure owns end empty; what comes back is the program that follows the response and owns only boxes made on the way |
| `Boxes.ChainIsFull` | src/smd/fixpoint/one_shot.hpp:88-95 | every box of a waiting program, however deep in closures, is full |
| `Boxes.Construct` | src/smd/fixpoint/freer.hpp:152-161 | putting a program together gives a node with full boxes, none shared, that is the program it means |
| `Boxes.Capture` | src/smd/fixpoint/one_shot.hpp:77-78 | a box moved into a closure keeps what it held, and the old one is empty |
| `Boxes.Attach` | src/smd/fixpoint/freer.hpp:205-224 | the layer fmap under a bind: the operation again, the old box moved into the closure of a new full one |
| `Boxes.BindNode` | src/smd/fixpoint/free.hpp:222-238 | binding a node in memory is binding the program it is; no old box is left full outside the new node |
| `Boxes.CallBinding` | src/smd/fixpoint/freer.hpp:214-222 | running a bind's closure empties the boxes inside and gives the bound program |
| `Boxes.DischargeNode` | src/smd/fixpoint/freer_row.hpp:338-417 | discharging a node in memory is discharging the program it is, calling full boxes only |
| `Boxes.Store` | src/smd/fixpoint/freer_row.hpp:401-413 | the re-emitted operation owns the old box, moved, and the handler |
| `Boxes.CallDischarging` | src/smd/fixpoint/freer_row.hpp:406-413 | running the continuation that discharge stored empties the boxes inside and gives the discharged rest |
| `Boxes.RunNode` | src/smd/fixpoint/freer_run.hpp:52-76 | the run calls only full boxes, one node box for each operation, none twice, leaves every box of the program empty, and gives the value and handler state of the program |
| `Boxes.PairNode` | src/smd/fixpoint/freer_cosignature.hpp:252-274 | the same for pairing, with the head of the last node |
| `Boxes.ConstructAndRun` | src/smd/fixpoint/freer_run.hpp:52-76 | however sends, binds and discharges are nested, putting the program together and running it gives what it means |
| `Boxes.BoundRuns` | src/smd/fixpoint/free.hpp:222-238 | a bound construction runs its first part and then what is bound to the value, from the state reached |
| `Boxes.DischargedRuns` | src/smd/fixpoint/freer_row.hpp:338-417 | a discharged construction is one run under both handlers, its value made of that run's value and the discharged handler's last state |
| `Boxes.EveryProgramIsWritten` | src/smd/fixpoint/freer.hpp:152-161 | every program is the meaning of a construction out of sends and binds |
| `Running.Run` | src/smd/fixpoint/freer_run.hpp:52-76 | the loop returns the value, and leaves the handler object in the state, of the interpretation by recursion |
| `Running.TracingIsTransparent` | src/smd/fixpoint/freer_run.hpp:119-138 | tracing changes neither value nor state and logs the operations of the run in order |
| `Running.RunTrace` | src/smd/fixpoint/freer_run.hpp:145-151 | value, state and the rendered log of a traced run |
| `Rows.DischargeRemoves` | src/smd/fixpoint/freer_row.hpp:338-417 | no operation of the discharged signature is left |
| `Rows.DischargeThenRun` | src/smd/fixpoint/freer_row.hpp:338-417 | discharging and running the rest equals one run under the stacked handlers: same programs, value and both final states, and the trace filtered to the rest |
| `Rows.DischargeThenTrace` | src/smd/fixpoint/freer_row.hpp:338-417 | the logged lines are the full log without the discharged ones |
| `Rows.StackSwaps` | src/smd/fixpoint/freer_row.hpp:338-417 | stacked handlers with their own states do not depend on the order of stacking |
| `Rows.StackOfOne` | src/smd/fixpoint/freer_run.hpp:52-76 | over one handler's operations the stack runs as that handler and leaves the other's state alone |
| `Rows.DischargeAlone` | src/smd/fixpoint/freer_row.hpp:338-417 | discharging the only signature of a row finishes the program with the value and state of a run |
| `Rows.StackedEitherWay` | src/smd/fixpoint/freer_row.hpp:338-417 | two signatures discharged together do not depend on which handler is stacked first |
| `Rows.DischargeOrderIrrelevant` | src/smd/fixpoint/freer_row.hpp:338-417 | in a row of two either may be discharged first, same value and final states |
| `Rows.DischargesFuse` | src/smd/fixpoint/freer_row.hpp:338-417 | in a larger row two discharges are one with stacked handlers, the very same program over the rest |
| `Rows.DischargesCommute` | src/smd/fixpoint/freer_row.hpp:338-417 | two discharges commute as programs over the rest |
| `Pairing.PairRun` | src/smd/fixpoint/freer_cosignature.hpp:252-274 | the loop gives the value of the interpretation and the head of the node it ends at |
| `Pairing.PairRunTrace` | src/smd/fixpoint/freer_cosignature.hpp:287-313 | the same with the log of the operations |
| `Pairing.PairingIsRunning` | src/smd/fixpoint/unfold_cofree.hpp:76-89 | pairing with an unfolded mock is running with the coalgebra as handler: value, operations, and head_fn of the final state |
| `Pairing.PairAndRun` | src/smd/fixpoint/freer_cosignature.hpp:276-286 | both traced interpreters side by side give the same value and log |
| `Tasks.RunTaskIsRun` | src/smd/fixpoint/freer_task.hpp:121-185 | the coroutine built by the fold gives the loop's value, operations and final shared state, and finishes on the same programs |
| `Tasks.CopiedSafe` | src/smd/fixpoint/freer_task.hpp:166-171 | with answers that never change, a copied handler gives the loop's value and operations |
| `Tasks.CopiedStateAgreesIff` | src/smd/fixpoint/freer_task.hpp:166-171 | a handler holding its own state agrees with the loop on every program if and only if its answers never change |
| `Tasks.CountingHandlerDiffers` | src/smd/fixpoint/freer_task.hpp:166-171 | a counter asked twice: 1 in the loop, 0 with the copied handler |
| `OneShots.DoConserves` | src/smd/fixpoint/one_shot.hpp:65-108 | no move, call or destruction loses or copies a target |
| `OneShots.RunConserves` | src/smd/fixpoint/one_shot.hpp:65-108 | conservation over every run |
| `OneShots.CalledAtMostOnce` | src/smd/fixpoint/one_shot.hpp:97-108 | a target is called at most once, and never held by two boxes or held after its call, however it was moved |
| `OneShots.RunTells` | src/smd/fixpoint/one_shot.hpp:65-108 | after any run each box holds what its last step says, the called targets are those that were in the boxes called, in order, and the destroyed ones those in the boxes destroyed or assigned over |
| `OneShots.EveryCallCalls` | src/smd/fixpoint/one_shot.hpp:97-108 | as many targets are called as there are calls |
| `Retry.RetryAttemptRuns` | src/examples/freer_retry_program.hpp:115-133 | the composed program's run is direct recursion on attempts, under every handler |
| `Retry.AttemptsMake` | src/examples/freer_retry_program.hpp:115-133 | that recursion makes sends until the first success or the limit, on the schedule of growing sleeps |
| `Retry.RetryBehaviour` | src/examples/freer_retry_program.hpp:115-133 | from any attempt, against any network and clock: it stops, number of sends, sleeps between them, value and final state |
| `Retry.SendsAreBounded` | src/examples/freer_retry_program.hpp:108-133 | at least one and at most max(1, 4 - attempt) sends |
| `Retry.RetryProgramRuns` | src/examples/freer_retry_program.hpp:140-144 | the program asks the time once and then is the attempts from 1 |
| `Retry.RetryLoop` | docs/freer-vs-interface.org:84-92 | the hand-written loop's value, operations and state are those of the attempts |
| `Retry.RetryDirectly` | docs/freer-vs-interface.org:84-92 | the direct version equals the program in value, final state and operations for every clock and network |
| `Retry.ScriptedRetry` | src/examples/freer_retry_program.hpp:155-198 | under the mock: value 11, three sends, three seconds slept, no fourth attempt |
| `Retry.ScriptedLog` | src/examples/freer_retry_program.hpp:192-195 | the expected log, line by line |
| `Retry.LogTellsApart` | src/examples/freer_retry_program.hpp:74-99 | operations logged alike are the same operation |
| `Retry.MockAnswers` | src/examples/freer_retry_program.hpp:160-183 | over any sequence of operations: the time is the start and the sleeps before, the first sends fail, every later one is answered, the counters count |
| `Retry.RetryAgainstMock` | src/examples/freer_retry_program.hpp:115-183 | the program against the mock for every number of failures: value, counters and operations, -1 when all three sends fail |
| `SenderDot.DotEscape` | src/smd/concrete/sender_dot.hpp:156-175 | the escaping loop computes the character-wise escape |
| `SenderDot.EscapedLength` | src/smd/concrete/sender_dot.hpp:156-175 | one more character for each quote, backslash and newline, and unchanged if and only if there is none |
| `SenderDot.OnlyEscapedReads` | src/smd/concrete/sender_dot.hpp:156-175 | what reads as a label is that label escaped, and nothing else |
| `SenderDot.LabelRoundTrip` | src/smd/concrete/sender_dot.hpp:156-175 | every escaped label reads back up to its closing quote |
| `SenderDot.EmitNode` | src/smd/concrete/sender_dot.hpp:187-205 | the node loop computes the folded program's result |
| `SenderDot.NodeEmits` | src/smd/concrete/sender_dot.hpp:187-205 | a node over emitting children emits the tree's lines in preorder and returns the next free id |
| `SenderDot.ProgramEmits` | src/smd/concrete/sender_dot.hpp:184-210 | started at any id the folded program takes size ids and emits exactly the tree's lines |
| `SenderDot.ToDotEmits` | src/smd/concrete/sender_dot.hpp:207-210 | the rendering is header, lines from id 0, closing brace |
| `SenderDot.LinesAreDrawn` | src/smd/concrete/sender_dot.hpp:191-202 | three lines in full: a node with data, one with quote and backslash, an edge |
| `SenderDot.PipelineEmits` | src/smd/concrete/sender_dot.hpp:187-205 | the lines of a pipeline of four nodes, in order, from any id |
| `SenderDot.IdsInPreorder` | src/smd/concrete/sender_dot.hpp:180-183 | a subtree owns exactly the contiguous ids from its start, in preorder |
| `SenderDot.OneEdgeInto` | src/smd/concrete/sender_dot.hpp:197-203 | every id but the root's is the target of exactly one edge |
| `SenderDot.EdgesGoUp` | src/smd/concrete/sender_dot.hpp:197-203 | size node lines and size - 1 edges, each to a larger id |
| `SenderDot.SplitJoinedIff` | src/smd/concrete/sender_dot.hpp:191-196 | a label gives tag and data back if and only if the tag holds no newline |
| `SenderDot.DotRoundTrip` | src/smd/concrete/sender_dot.hpp:184-210 | every rendering reads back to the tree with labels split anew, and to the tree itself if and only if no tag holds a newline |
| `SenderDot.NewlineTagIsLost` | src/smd/concrete/sender_dot.hpp:191-196 | the tag "a\nb" without data is rendered like tag "a" with data "b" and reads back as that |
| `PrettyPrint.PrettyIsTokens` | src/examples/para_pretty_print.cpp:46-71 | the paramorphism prints the expression's tokens |
| `PrettyPrint.ExamplesArePrinted` | src/examples/para_pretty_print.cpp:76-86 | "2 * 3 + 4" and "2 * (3 + 4)", character by character |
| `Text.NumeralStart` | src/examples/para_pretty_print.cpp:48-50 | a minus sign exactly below zero |
| `Text.DecimalStart` | src/examples/para_pretty_print.cpp:48-50 | no leading zero |
| `Text.OnlyDecimalReads` | src/smd/concrete/sender_dot.hpp:191-202 | digits without a leading zero are the decimal of the number they read as |
| `PrettyPrint.EvalConst` | src/smd/concrete/functors.hpp:423-435 | a constant evaluates to its value |
| `PrettyPrint.EvalIsWorth` | src/smd/concrete/functors.hpp:423-435 | the fold evaluates every expression to what direct recursion reads off it |
| `PrettyPrint.EvalMixed` | src/smd/concrete/functors.hpp:423-435 | 2 + 3 * 4 is 14 |
| `PrettyPrint.LexRoundTrip` | src/examples/para_pretty_print.cpp:46-71 | spelled tokens are read back, negative numerals included |
| `PrettyPrint.SumParses` | src/examples/para_pretty_print.cpp:46-71 | printed terms are read as the left-associated sum |
| `PrettyPrint.ProductParses` | src/examples/para_pretty_print.cpp:46-71 | printed factors are read as the left-associated product, parenthesised sums as one factor |
| `PrettyPrint.SumOntoValue` | src/smd/concrete/functors.hpp:423-435 | regrouping sums keeps the value |
| `PrettyPrint.ProductOntoValue` | src/smd/concrete/functors.hpp:423-435 | regrouping products keeps the value |
| `PrettyPrint.SameTreeIff` | src/examples/para_pretty_print.cpp:46-71 | regrouping is the identity exactly on left-nested expressions |
| `PrettyPrint.PrettyRoundTrip` | src/examples/para_pretty_print.cpp:46-71 | reading the printed text succeeds and keeps the value; the same tree if and only if left-nested |
| `PrettyPrint.RightNestingIsLost` | src/examples/para_pretty_print.cpp:46-71 | `1 + (2 + 3)` and `1 * (2 * 3)` read back as the left-nested trees |
| `PrettyPrint.ParenthesesAreMinimal` | src/examples/para_pretty_print.cpp:4-10 | no text that reads as the expression, or as its printed form does, has fewer parentheses |
| `Coins.NatFromIntIsChain` | src/smd/concrete/functors.hpp:121-130 | the unfold builds the chain, amounts below zero the empty one |
| `Coins.LookBackReaches` | src/examples/histo_coin_change.cpp:47-55 | looking back k steps gives the result for n - k exactly when there is such an amount |
| `Coins.MinCoinsStep` | src/examples/histo_coin_change.cpp:59-87 | the body with its running best computes the algebra |
| `Coins.BestIsChange` | src/examples/histo_coin_change.cpp:59-87 | the results satisfy the change recurrence |
| `Coins.MinCoinsOptimal` | src/examples/histo_coin_change.cpp:90-93 | the result is attained by some coins and no coins that pay the amount are fewer |
| `Coins.DynaAgrees` | src/smd/fixpoint/chrono.hpp:64-73 | the same algebra in the fused refold gives the same number |

## Left out

- Senders, schedulers and coroutine frames: awaiting a handler's answer is an immediate response, so `run_task_step` and `resume_one` appear only as the sequential step `Tasks.Resume`.
- `reify_sender`, `tag_display_name` and `type_name.hpp`: the DOT emitter starts from a given tree.
- Concepts, overload resolution, typeclass dispatch and duplicate-operation checks: no behaviour when running.
- Ownership, copies and lifetimes outside the continuation boxes: the children of a tree are immutable values.
- `elgot`, `mutu`, `gapo` and the Mendler fold over fixed points: they would add easier members of the same kind.
- The reference-sided `either` and its graft without copying: the value is the same, only its storage differs.
- Machine integers: the coin, retry, evaluation and id arithmetic is on unbounded integers.
- Base functors with infinitely many positions: the base functor is the labelled rose layer.
- Programs with an infinite path: only their runs that stop are covered, so nothing is said about a run that never ends.
- Response types: the operations of one program share one response type, each with its own subset as the domain of its continuation.
- Rows.Discharge: the mutable handler that the source moves into stored closures is threaded as a state; where its storage lives is not captured.
- Tasks.RunTaskIsRun: the recursion handed to the algebra may be asked for the programs that may follow the operation, and for no others, which is what makes it stop.
- OneShots.CalledAtMostOnce: the population of boxes is on values and takes it that a called box is full; that the interpreters' boxes are full is proved of the boxes on the heap in `Boxes`.
- Boxes.RunNode: values and responses of all operations share one type; discharges stand inside one another to a depth that has a bound for the whole program, as they do over a row of finitely many signatures; moving a node from one variable to another makes no new box.
- Running.RunTrace: the log is part of the traced handler's state where the source keeps a pointer to it.
- A general duplicate law for `dist_zygo_histo`: what the scheme computes is stated exactly for all inputs in its place.
