# A verified model of Gismo's group independent supports

Gismo takes a propositional formula, a set of sampling variables and a partition of some variables into groups. It looks
for a *group independent support*: a set of variables, made of whole groups, whose values fix every sampling variable in
every model, and from which no group can be dropped. This project models that computation and the parts of the program
around it, and proves what the program is for.

The central notion is `Logic.Determines(f, vs, v)`: two models of `f` that agree on `vs` agree on `v`. `Supports(f, r, s)`
says that `r` determines every variable of `s`.

| File | What it models |
|---|---|
| Seqs, Logic, Groups, Counting | vectors, formulas with clauses and threshold (BNN) constraints, group tables, model counts |
| Sat | the contract of the SAT solver that the program calls, met by a brute-force solver with a budget |
| Doubling, CommonState | the formula over two copies of the variables with an indicator for every sampling variable, and the state shared by the rounds |
| Minimisation, Backward | the specification of the minimising loop, and the backward round that refines it |
| Forward, Guess, Simplification | the other rounds, gates, equal and fixed literals, backbone |
| Pipeline, Run | the stages, and the whole run: what it delivers, and where it stops at an assertion or outside a table |
| Renumbering | renumbering away the empty variables and the factor printed for it |
| Words, MersenneTwister | the MT19937 generator |
| Text, Streams, Dimacs | the chunked text buffer and the grouped DIMACS parser |
| Lines, Printing | what a text in that format means, line by line, and that it is read so; the printers and the round trip |

Code that changes state step by step is a class with methods, or a method with loops, proved against a specification
function or predicate; the properties of those are lemmas. The solver is allowed to answer `Undef` at any query, and the
orders left by sorts and shuffles are arbitrary: every such order is some choice of the `draws` argument (`ShuffleReaches`). Ghost fields of
the solver count the queries and those without an answer, each of which has used up the limit of conflicts it was given, and
log what else the solver was asked and what it said, so that the sets of the rounds can be stated in terms of the answers. A
proof that does not need a definition hides it, which keeps the verification stable.

## Main results

* Padoa's test is exact in both directions although one polarity is queried (`PadoaExact`), on a doubled formula whose
  models are exactly the joined pairs of models (`DoubledModels`), so that there are the square of the number of models
  (`DoubledCount`).
* The backward round computes `Minimise` (`BackwardRound`); its result determines all it started from, consists of whole
  groups, and when no query went unanswered no closed proper subset determines the same variables.
* A set inside the sampling set preserves the projected model count if and only if it determines the sampling set
  (`ProjectedCountPreserved`).
* A whole run from any switches, in either mode and with a group table of any length, delivers such a support when it
  finishes (`GetIndepSet`), as an exact list: simplification and guess rounds leave exactly what the solver's answers leave,
  the forward and backward rounds exactly what they find. The units that went undecided have cost the limit on conflicts that
  the configuration sets, which is 500. The model stops where the program comes to a missing indicator, a look-up outside the table, a
  scratch array that is still marked, or a repeated variable. For the backward round the end is an exact function
  (`BackwardEnd`); for the forward round, where it depends on the answers and the order of the tests, a sufficient condition
  for getting through and one for not getting through are proved.
* The backward round is stopped for want of an indicator if and only if a unit other than the one tested first lacks one,
  or the one tested first does, is kept, and another test follows (`CheckedExact`, `VerdictOfBackward`).
* Renumbering multiplies the projected count by exactly 2^|empty| relative to the kept clauses (`RenumberedCount`). For the
  whole problem the factor is right if and only if every model of the kept clauses agrees, on the sampled and the empty
  variables, with some model of all clauses (`DroppedClauses`).
* The k-th draw of the generator is the tempered term N + k of the recurrence, over any number of in-place reloads. Twist
  and tempering are linear and given by their values at single bits.
* A text is read as what its lines mean, for all texts of header, sampling set, group, remark, empty, clause and parity
  lines (`PageRead`). A printed problem is read back unchanged through any chunking. The parsed group tables, read with zeros beyond their
  end, are what the rounds require if and only if no variable is listed twice; as they are, if and only if besides the
  table is as long as the problem (`ParsedGroups`).

## Where the code does not meet its promise

* `forward_round` drops members of guessed groups that lie outside the window, so only the group closure of its result is
  sure to determine the sampling set. The result itself does so if every sampling variable that shares a group with the
  window lies in the window; on unconstrained variables, if and only if (`ForwardResultExact`). `SplitGroupLoses` is an
  instance, and `ForwardClosedIff` gives the condition under which the result is group-closed. `backward_round` takes the
  closure again.
* `get_indep_set` ignores the return value of `forward_round`. When its iterations run out, untried variables are lost: on
  ungrouped, unconstrained variables the result determines the sampling set if and only if there are at least as many
  iterations as variables outside the window (`BudgetExact`). With at most 5,000,000 variables in the closure of the
  sampling set they suffice.
* `fill_assumptions_forward` unmarks only what is listed as unknown. The scratch array stays marked, and the entry
  assertion of `backward_round` fails, if and only if the closure of the window reaches beyond the sampling set. That
  happens if and only if a guess round, which does not look at groups, removed a group partner of a variable of the
  window (`VerdictOfMarks`). `GuessLeavesMark` gives such a run for every number of variables above 20;
  with at most 20 sampling variables there is none.
* Simplification can split a group, whose dropped member then has no indicator. A closed set stays closed if and only if
  every group that loses a member loses all (`StaysClosed`), which neither dropping equal literals
  (`EqualitySplitsGroup`) nor dropping fixed ones (`FixedLiteralSplitsGroup`) respects.
* A sampling set that is not group-closed, from the input or from the simplification, can stop the backward round at the
  assertion on indicators, depending on the order in which it lists the groups: `LoneGroupFinishes`, `EarlierGroupMisses`
  and `FirstGroupMisses` are the three cases on one group, `VerdictOfBackward` the condition in general. A group-closed set
  never does (`VerdictOfClosed`). The forward round asserts an indicator for a kept variable
  only; for the members of its group it writes outside the scratch array or goes on to a query about a variable that the
  solver does not have.
* `backward_round` reads the group number of every candidate, also outside group mode, where the program leaves the table
  empty. In group mode, with one header, the table is empty or has the length of the header's number of variables
  (`TableLength`). `TableReach` says which look-ups stay inside it. `NoGroupLines` and `BeyondHeader` are texts with
  variables outside the table.
* A group line that lists a variable beyond the table makes the parser write outside it: `GroupStaysInside` says on which
  lines it does not. A sampling set line may list any number: `SamplingInside`.
* `fill_solver_no_empty` drops every binary clause that mentions an empty variable, on the assumption that it is
  redundant. `DroppedClauses` gives the exact condition, `DroppedClauseCounts` a formula on which the printed factor is
  wrong, and `DroppedClauseHarmless` one whose dropped clause is not redundant and does no harm.

## Model

| member | source | states |
|---|---|---|
| Seqs.ShuffleReaches | src/guess.cpp:118-124 | every order of a vector is some choice of draws, so that sorting and shuffling may leave any order the program leaves |
| Logic.DeterminesTrans | src/backward.cpp:266-270 | what a set determines may be dropped from it without losing anything: determination is transitive |
| Logic.DeterminesMono | src/backward.cpp:197-203 | a variable determined by some assumed variables stays determined when more are assumed |
| Logic.DeterminesSameModels | src/common.cpp:284-307 | determination depends on the models only, so it survives simplification |
| Sat.SatSolver.Solve | src/backward.cpp:220-222 | True comes with a model of constraints and assumptions, False means there is none, Undef promises nothing but has used up the limit on conflicts that was set |
| Sat.SatSolver.SetMaxConfl | src/backward.cpp:220-220 | the limit on conflicts of the queries to come |
| Sat.SatSolver.AddClause | src/common.cpp:120-124 | the clause joins the constraints; the answer is false only when no model is left |
| Sat.SatSolver.ImpliedBy | src/guess.cpp:182-185 | every returned literal holds in all models of constraints and assumptions; query and answer go into the log of the solver |
| Sat.SatSolver.GetZeroAssignedLits | src/simplify.cpp:123-123 | every returned literal is entailed, and every unit clause is returned; the answer goes into the log |
| Sat.SatSolver.GetAllBinaryXors | src/simplify.cpp:562-562 | every returned pair is of distinct variables whose literals are equal in all models; the answer goes into the log |
| Sat.XorMeans | src/arjun.cpp:574-581 | the clauses for a binary xor hold exactly when the two variables differ as the right-hand side says |
| Doubling.BnnCopy | src/common.cpp:177-195 | the shifted threshold constraint holds of an assignment exactly when the original holds of its second half |
| Doubling.ClausesCopy | src/common.cpp:163-175 | the shifted clauses hold exactly when the originals hold of the second half |
| Doubling.AllIndicatorClausesMean | src/common.cpp:106-143 | the four clauses per sampling variable hold exactly when each indicator says whether its variable differs between the copies |
| Doubling.DoubledModels | src/common.cpp:94-197 | an assignment is a model of the doubled formula exactly when its halves are models and its indicators are the differences |
| Doubling.PairExtendsUniquely | src/common.cpp:94-197 | every pair of models extends to exactly one model of the doubled formula |
| Doubling.SwapCopies | src/common.cpp:94-197 | exchanging the two copies maps models to models |
| Doubling.OnePolarity | src/backward.cpp:225-227 | the query with v true and its copy false has an answer if and only if the one with the polarities exchanged has |
| Doubling.DoubledDoubles | src/common.cpp:94-197 | the doubled formula has the interface the rounds rely on, and the variables with an indicator are the sampling variables |
| Doubling.PadoaExact | src/backward.cpp:215-230 | with the indicators of C assumed false, v true and its copy false is satisfiable if and only if C does not determine v; one polarity suffices |
| Doubling.ImpliedEqual | src/guess.cpp:188-207 | an indicator is false in all models of the assumptions if and only if its variable is determined by the assumed ones |
| Counting.ProjectedCountPreserved | src/common.cpp:33-52 | for r inside s the projected model counts agree if and only if r determines s |
| Counting.DoubledCount | src/common.cpp:94-197 | the doubled formula has the square of the number of models, whatever the sampling set |
| CommonState.Common.constructor | src/config.h:56-59 | the limits the program starts with: 500 conflicts for a query of the forward and backward rounds, 1000 in the guess rounds, 10000 for the backbone; `WithLimits` takes others, as the options do |
| CommonState.Common.UpdateSamplingSet | src/common.cpp:33-52 | the new sampling set is the still flagged unknown variables in order, then the independent ones; the old one becomes the spare |
| CommonState.Common.StartWithCleanSamplingSet | src/common.cpp:54-76 | without a given set, exactly the variables the solver names as fixed at level zero are not sampled, and the others are, ascending; they determine all variables, and the scratch array is clean |
| CommonState.Common.DuplicateClauses | src/common.cpp:163-175 | re-splitting the flattened clauses adds exactly a shifted copy of every clause |
| CommonState.Common.DuplicateBnns | src/common.cpp:177-195 | adds exactly a shifted copy of every threshold constraint, skipping NULL entries |
| CommonState.Common.DuplicateProblem | src/common.cpp:156-197 | the solver afterwards holds both copies over twice the variables |
| CommonState.Common.AddFixedClauses | src/common.cpp:94-143 | indicators are numbered from 2n in the order of the sampling set, with matching tables and clauses |
| CommonState.Common.Ask | src/backward.cpp:220-229 | a query answered False proves determination by the assumed variables, True refutes it, and one without an answer has cost the limit of the configuration |
| CommonState.MarkOne | src/backward.cpp:92-92 | marking or unmarking an indicator changes the set of marked variables by that variable alone |
| CommonState.NextToken | src/common.cpp:167-175 | where in the flattened list the reader is: the next literal of the current clause, or its end |
| Minimisation.MinimiseSupports | src/backward.cpp:165-313 | the result of the minimising loop determines every variable it started from, whatever was left undecided |
| Minimisation.MinimiseNecessary | src/backward.cpp:250-270 | no decided unit of the result is determined by the rest of the result |
| Minimisation.MinimiseMinimal | src/backward.cpp:165-313 | when every test was answered no group-closed proper subset determines the variables it started from |
| Minimisation.MinimiseWholeUnits | src/backward.cpp:254-265 | the result consists of whole units in the order they were tested |
| Minimisation.MinimiseClosed | src/backward.cpp:254-265 | the result is closed under groups |
| Minimisation.MinimiseKeeps | src/backward.cpp:250-265 | what was kept stays kept, and nothing new appears |
| Minimisation.MinimiseNoDup | src/backward.cpp:250-265 | no variable is kept twice |
| Minimisation.CheckedMinimises | src/backward.cpp:165-313 | the loop with its assertions on indicators, when it is not stopped, computes the same |
| Minimisation.CheckedServed | src/backward.cpp:39-45 | with an indicator for everything it starts from it is not stopped |
| Minimisation.CheckedExact | src/backward.cpp:39-74 | it is stopped if and only if a unit other than the one tested first lacks an indicator, or the one tested first does, is kept, and another test follows |
| Backward.FillAssumptionsBackward | src/backward.cpp:29-88 | it gets past its assertions if and only if all independent and all still unknown variables have indicators; then the compacted list is the order-preserving filter of the unknown variables, and the assumptions are the negated indicators of the independent variables and then of that filter. No member of a group is added twice |
| Backward.CollectUnknown | src/backward.cpp:95-119 | it stops at the first sampling variable that the table does not reach, or that is outside the groups and listed before; otherwise the candidates are the closure of the sampling set under groups, listed unit after unit in the order of first occurrence, without repetition |
| Groups.Grouping.ListingClosure | src/backward.cpp:100-119 | the units in that order consist of the variables of the groups of the sampling set |
| Backward.StartUnknown | src/backward.cpp:95-126 | sorting (outside group mode) keeps the candidates a list of whole units |
| Backward.LastUnit | src/backward.cpp:168-190 | the last entry of a list of whole units ends its unit, which is its whole group or it alone |
| Backward.PopUnit | src/backward.cpp:168-190 | looking up the popped variable outside the table stops the round; otherwise popping size - 1 further entries removes exactly the tested group |
| Backward.TestUnit | src/backward.cpp:215-230 | the member-by-member test answers whether the assumptions determine the whole unit, in at most one query a member |
| Backward.KeepUnit | src/backward.cpp:258-265 | an independent unit is kept whole |
| Backward.DecideUnit | src/backward.cpp:197-270 | one turn stops for want of an indicator exactly when the specified walk does, and otherwise keeps the unit unless it is determined, as the specification does |
| Backward.Publish | src/backward.cpp:308-311 | the intermediate update publishes the flagged unknown and the independent variables and leaves the round unaffected |
| Backward.DecideAll | src/backward.cpp:165-312 | the loop ends where the specified walk ends, with its result, and at most one query per variable |
| Backward.BackwardRound | src/backward.cpp:90-313 | how the round ends is the specified function of table, marks, sampling set, indicators, formula and unanswered units; when it finishes it leaves, in order, Minimise of its units, in group mode those of the sampling set in the order it lists them; every undecided unit has cost `backw_max_confl` conflicts; at most as many queries as variables in the closure. Group numbers used outside group mode are not followed |
| Forward.SetGuessForwardRound | src/forward.cpp:28-76 | it gets through if and only if the groups of the window can be looked up and all their members have indicators; then the guess is the group closure of the window, the window itself is no longer unknown, and the scratch array is clean |
| Forward.FillAssumptionsForward | src/forward.cpp:79-145 | the assumptions are the indicators of the closure of the window; the scratch array is clean afterwards if and only if that closure is listed as unknown |
| Forward.NextTest | src/forward.cpp:286-337 | selecting a test variable and marking its group keeps the invariant of the loop, and nothing marked was guessed; it stops at a sampling variable that the table does not reach |
| Forward.GuessIsTail | src/forward.cpp:50-53 | the guess of a round with offset 0 is made of the last entries of the sampling set, as many as the window is wide |
| Forward.TestForward | src/forward.cpp:343-424 | after a test the variable is independent with its whole group and assumed, or determined by what is assumed; it stops at a kept variable without an indicator, and before a query that would assume a variable without one. A kept variable is not marked in the scratch array |
| Forward.EarnedStep | src/forward.cpp:350-380 | a unit joins the independent ones only when the variables assumed before do not determine the tested member, or its query went unanswered |
| Forward.ForwardSupports | src/forward.cpp:304-317 | when no candidate is left, guess and independent variables determine the sampling set |
| Forward.TestedBound | src/forward.cpp:279-318 | no variable is tested twice, so the tests number at most the reachable variables outside the guess |
| Forward.AllTested | src/forward.cpp:279-318 | after as many tests as candidates the sampling set is determined, also when the round returns that it ran out of iterations |
| Forward.ForwardRound | src/forward.cpp:147-508 | it gets through if all groups of the sampling set can be looked up and have indicators, and does not if that fails for the window; then: the exact list it leaves, of the guess unit by unit and of the independent units as they were found, without repetition; every independent unit was still open when it was found, up to unanswered queries, each of which has cost its limit; as many variables as queries are guessed, independent or determined; guess and independent variables determine the sampling set if the round completes or the iterations are at least as many as the candidates; it completes when they are more, and otherwise has used all its iterations; the scratch array is clean if and only if the guess lies in the sampling set |
| Forward.ForwardClosureSupports | src/forward.cpp:457-500 | when the round completes, the group closure of its result determines the sampling set |
| Forward.ForwardClosedIff | src/forward.cpp:457-473 | the result is group-closed if and only if every sampling variable that shares a group with the window lies in the window |
| Forward.ForwardResultExact | src/forward.cpp:457-473 | the result itself determines the sampling set if the window splits no group; on unconstrained variables, if and only if |
| Forward.FreeDetermines | src/forward.cpp:343-353 | unconstrained variables are determined by themselves only |
| Forward.SplitGroupLoses | src/forward.cpp:457-473 | an instance: two free variables in one group and a window of one, where the result alone does not determine the sampling set |
| Forward.BudgetExact | src/arjun.cpp:140-143 | on ungrouped, unconstrained variables the result determines the sampling set if and only if there are at least as many iterations as variables outside the window |
| Guess.FillAssumptionsGuess | src/guess.cpp:27-68 | the assumptions are exactly the indicators of the still unknown window variables, which become protected; the scratch array is left as found |
| Guess.RemoveImplied | src/guess.cpp:188-207 | removing an unprotected variable determined by protected ones keeps every remaining set a support |
| Guess.GuessRemoveAndUpdateAss | src/guess.cpp:174-210 | removed are exactly the unprotected unknown variables whose indicators the solver returned as false; each is determined by the assumed ones, is protected afterwards, and its indicator joins the assumptions |
| Guess.GuessRound | src/guess.cpp:70-172 | with too few variables for the window the round does nothing and asks nothing; otherwise the solver is asked ten times, about the still unknown variables of a window that grows by one group each time, and exactly the variables that some answer called equal while they were not in its window are removed; what remains, in the order of the round, determines the sampling set and keeps the window of the first step |
| Guess.FirstWindowStays | src/guess.cpp:27-68 | whatever the answers, the variables of the first window stay |
| Guess.DroppingRound | src/guess.cpp:188-207 | groups are not looked at: a whole round whose first query is answered with the indicator of any candidate outside the window, and the others with nothing, removes that candidate and no other |
| Guess.MaySay | src/guess.cpp:182-185 | such an answer is right when the window determines the candidate |
| Simplification.XorDetermines | src/simplify.cpp:406-430 | the other variables of an entailed xor determine the variable |
| Simplification.OrDetermines | src/simplify.cpp:431-447 | the inputs of an entailed or gate determine its output |
| Simplification.IteDetermines | src/simplify.cpp:448-464 | the inputs of an entailed if-then-else gate determine its output |
| Simplification.DropDetermined | src/simplify.cpp:426-430 | dropping a variable that the other kept ones determine keeps the support |
| Simplification.BuildOrOccurs | src/simplify.cpp:344-367 | every usable or gate up to the first one with a foreign output is recorded at its output; without foreign outputs that is every one |
| Simplification.InputsStillSeen | src/simplify.cpp:407-461 | a gate passes only if the variable is determined by what else is kept, which rules out cyclic definitions |
| Simplification.DefineAll | src/simplify.cpp:394-469 | one pass keeps the support, drops exactly the variables that some considered gate defines from what is left when their turn comes, and leaves no usable gate with inputs and output all kept |
| Simplification.RemoveDefinableByGates | src/simplify.cpp:297-495 | for any recovered entailed gates: going through the variables in some order, exactly those are dropped that a considered gate defines from what is left; the kept ones determine all the original ones, no usable gate is left, and the answer says whether anything changed |
| Simplification.RemoveZeroAssignedLiterals | src/simplify.cpp:523-556 | what is left is sorted, determines what was there, and is what was there without exactly the variables the solver names as fixed |
| Simplification.RemoveEqLiterals | src/simplify.cpp:558-588 | what is left is sorted, determines what was there, and lacks exactly the first ends of the pairs the solver returns, taken in order, whose two ends were left; no pair has both ends left |
| Simplification.StaysClosed | src/simplify.cpp:523-588 | dropping variables from a group-closed set leaves it group-closed if and only if every group that loses a member loses all |
| Pipeline.Remove | src/simplify.cpp:73-74 | any sequence of removals of equal and fixed literals leaves exactly what the answers of the solver leave, sorted, and that determines the first sampling set |
| Pipeline.AfterBoth | src/simplify.cpp:73-74 | an instance: of an equal pair the first end goes, then a fixed variable |
| Pipeline.ProbeAll | src/simplify.cpp:237-269 | every sampling variable is probed once, the solver simplifies, and what it then names as fixed and as equal is removed; the models stay and the set determines the first one; it fails only when there are no models |
| Simplification.CheckNoDuplicateInSamplingSet | src/simplify.cpp:33-43 | the assertion holds if and only if no variable is listed twice; the scratch array is cleaned |
| Simplification.AddBackbone | src/simplify.cpp:185-191 | a literal whose negation is unsatisfiable can be added as a unit without losing a model |
| Simplification.BackboneCandidates | src/simplify.cpp:123-133 | the candidates are the variables neither fixed nor empty, and the scratch array is restored |
| Simplification.BackboneStep | src/simplify.cpp:154-195 | one query, after which the candidate is settled without changing the models; the loop goes on exactly when the query is answered and the limit is not used up |
| Simplification.BackboneSimpl | src/simplify.cpp:102-221 | the models never change. With candidates and without a contradiction it finishes if and only if every query is answered and the conflicts, with 100 for every query after the first, stay within the limit; then a candidate is fixed by a unit clause if and only if it is constant, also when it was skipped |
| Simplification.BackboneLoop | src/simplify.cpp:145-197 | the same for the loop, which has found no contradiction when it finishes, as the program asserts there |
| Pipeline.Simplify | src/simplify.cpp:45-86 | it stops at the assertion if and only if a variable is listed twice; otherwise the solver is asked, in order, to simplify, for the backbone, for equal and fixed literals, and with probing for every variable, once more to simplify and for fixed and equal literals; exactly what its answers leave is sampled, sorted, and determines the given set over the same models; it fails only when there are no models |
| Pipeline.SimplifySolver | src/simplify.cpp:51-71 | pre-simplification as switched, then the backbone with its limit and its exact condition for finishing, or one query with a limit of 1000 conflicts |
| Pipeline.EqualitySplitsGroup | src/simplify.cpp:562-568 | a formula with two equal variables for which dropping the pair takes one member of a group out of a closed set |
| Pipeline.FixedLiteralSplitsGroup | src/simplify.cpp:523-556 | a formula with a fixed variable for which dropping it takes one member of a group out of a closed set |
| Pipeline.UnsatPair | src/simplify.cpp:223-235 | if the doubled formula has no model the original one has none, so that a contradiction found later in the run is one of the given problem |
| Pipeline.PreprocAndDuplicate | src/common.cpp:284-307 | with simplification it stops if and only if a variable is listed twice; otherwise what the simplification asks and leaves, and the doubled problem, with Gauss-Jordan elimination if asked for, is set up for the formula the run started with, with an indicator for exactly the sampling variables, numbered in their order |
| Pipeline.RunGuess | src/guess.cpp:213-254 | the solver simplifies, then exactly three guess rounds, each on what the one before it left, with one window size; they keep a subset that determines the sampling set, with a clean scratch array in between; up to 20 variables are left as they are |
| Pipeline.MinimisedSupport | src/backward.cpp:165-313 | what the minimising loop computes is a group-closed, duplicate-free support, minimal when everything was answered |
| Pipeline.ForwardStage | src/arjun.cpp:140-143 | how the round may end; after it the list the round leaves, and the closure of the set determines the original sampling set, given at most 5,000,000 variables in the closure of its input; the scratch array is clean if and only if the groups of the window lie in the sampling set |
| Pipeline.BackwardStage | src/arjun.cpp:145-148 | how the round ends; when it finishes it leaves, in order, Minimise of the groups of its input, a support of their closure, minimal if no query went unanswered; the undecided units have cost their limit, in at most as many queries as variables |
| Run.CarriesForward | src/arjun.cpp:137-148 | the closure of the handed-on set stays within the closure of the sampling set and keeps determining it |
| Run.DeliveredBefore | src/arjun.cpp:132-148 | a support that is minimal for the simplified set is minimal for the given one |
| Run.DeliveredCounts | src/backward.cpp:90-313 | on a group-closed sampling set the result lies in it and has the same projected model count |
| Run.EmptyOutIndepSetIfUnsat | src/simplify.cpp:223-235 | both sets are emptied exactly when the solver found a contradiction |
| Run.RunRounds | src/arjun.cpp:137-148 | the rounds in order deliver a support if they finish; how each came from the set it got to the set it left, what the solver was asked on the way, and how they end |
| Run.VerdictOfClosed | src/arjun.cpp:137-148 | from a group-closed sampling set no indicator is ever missing |
| Run.VerdictOfMarks | src/forward.cpp:135-144 | once the forward round is through, the scratch array stays marked if and only if the guess rounds removed a group partner of a variable of its window; never if they removed nothing |
| Run.GuessLeavesMark | src/guess.cpp:114-141 | for every n > 20 a run that ends so: all n variables sampled, the first and the last in one group and equal in every model; any guess round whose order puts one of them alone into its first window may remove the other and nothing else, and two of the three rounds shuffle |
| Run.TiedEnds | src/common.cpp:94-143 | such problems exist, with the doubled formula the program builds for them |
| Run.VerdictOfBackward | src/backward.cpp:39-74 | with the backward round alone, a missing indicator stops the run if and only if some unit of the sampling set other than the one tested first reaches outside it, or that one does, is kept, and is not the only one |
| Run.LoneGroupFinishes | src/backward.cpp:107-119 | the sampling set {1} with the group {0, 1} is not group-closed and the round finishes all the same, for every formula |
| Run.EarlierGroupMisses | src/backward.cpp:64-74 | with another variable sampled after it the round is stopped, for every formula |
| Run.FirstGroupMisses | src/backward.cpp:250-265 | with another variable sampled before it the round is stopped if and only if that variable does not determine the group |
| Run.GetIndepSet | src/arjun.cpp:132-165 | the whole run, in either mode and with a table of any length. When it finishes, the result lists the empty variables and then exactly what the last round leaves, in order and without repetition unless the input repeats: Minimise of the groups of the set the backward round got. The closure of that determines the sampling set, and it is closed and minimal after the backward round; nothing is listed when there is no model. Every set in between is what the log of the solver says, and unanswered queries of the two rounds have cost their limits. When it does not finish, it stops at a repeated variable, where the forward round may stop, or exactly where the backward round does; with the backward round alone, a missing indicator stops it if and only if the condition of VerdictOfBackward holds of the simplified sampling set |
| Renumbering.RankAscends | src/arjun.cpp:540-548 | the map keeps the order of the variables that stay, so no two share a number |
| Renumbering.RankOnto | src/arjun.cpp:540-548 | every new number belongs to a variable that stays |
| Renumbering.RankTotal | src/arjun.cpp:540-549 | there are as many new numbers as variables that stay |
| Renumbering.MapFits | src/arjun.cpp:549-549 | the assertion on the number of variables holds if and only if no empty variable is listed twice |
| Renumbering.BuildMap | src/arjun.cpp:540-548 | a variable that stays is mapped to the number of those below it |
| Renumbering.AddKeptClauses | src/arjun.cpp:553-568 | the added clauses are the renamed ones without an empty variable; it fails exactly when a dropped clause is not binary |
| Renumbering.AddKeptXors | src/arjun.cpp:572-581 | the added xors are the renamed ones between variables that stay |
| Renumbering.XorsMean | src/arjun.cpp:572-581 | the clauses of the binary xors hold exactly when the literals of every pair are equal |
| Renumbering.DontElim | src/arjun.cpp:583-591 | the literals to keep are the new numbers of the sampling variables that stay, ascending |
| Renumbering.FillSolverNoEmpty | src/arjun.cpp:525-592 | exactly when it succeeds, and what the solver then holds |
| Renumbering.RenamedModels | src/arjun.cpp:553-568 | corresponding assignments are models of both problems or of neither |
| Renumbering.RenumberedCount | src/arjun.cpp:637-637 | the kept problem has 2^|empty| times as many projected models over sampled and empty variables as the renumbered one |
| Renumbering.RenumberedModelCount | src/arjun.cpp:637-637 | the same for whole models |
| Renumbering.SameProjections | src/arjun.cpp:551-568 | of two problems, one weaker than the other, the projected counts agree if and only if every model of the weaker one agrees on the projected variables with some model of the other |
| Renumbering.DroppedClauses | src/arjun.cpp:551-568 | the printed factor is right for the projected count of the whole problem if and only if every model of the kept clauses agrees, on the sampled and the empty variables, with some model of all clauses |
| Renumbering.DroppedClauseCounts | src/arjun.cpp:551-568 | a formula on which dropping a clause makes the factor wrong |
| Renumbering.DroppedClauseHarmless | src/arjun.cpp:551-568 | a formula whose dropped clause does not follow from the kept ones and for which the factor is right all the same |
| Renumbering.FilledCount | src/arjun.cpp:525-592 | the same counts in terms of the arguments and the returned list of variables to keep, with the condition for the whole problem |
| Words.UsedBits | src/MersenneTwister.h:195-212 | cutting a draw to the used bits of n loses no number up to n, and at least half of what it leaves is accepted |
| Words.TwistLinear | src/MersenneTwister.h:126-132 | twisting is linear over the two-element field |
| Words.TwistFirst | src/MersenneTwister.h:126-132 | the far word goes in unchanged |
| Words.TwistSecond | src/MersenneTwister.h:126-132 | of the first word only the top bit goes in, one place down |
| Words.TwistThird | src/MersenneTwister.h:126-132 | of the second word the low bit turns on the magic word, the top bit is left out, and the others go one place down; with linearity these values determine the function |
| Words.TemperLinear | src/MersenneTwister.h:179-193 | tempering is linear over the two-element field |
| Words.TemperValues | src/MersenneTwister.h:179-193 | its values at the 32 single bits, which with linearity determine it |
| MersenneTwister.Recurrence | src/MersenneTwister.h:301-314 | the recurrence with its parameters 624 and 397 |
| MersenneTwister.ReferenceSeed | src/MersenneTwister.h:283-298 | the first words for the seed 5489, as the reference implementation has them |
| MersenneTwister.MTRand.RandIntTo | src/MersenneTwister.h:195-212 | a number from 0 to n is the first draw, cut to the used bits of n, that is accepted, and no draw after it is used up; given that some draw will be accepted |
| MersenneTwister.ReloadStep | src/MersenneTwister.h:301-314 | overwriting one word moves it from its term to the term N further on |
| MersenneTwister.TermShift | src/MersenneTwister.h:343-361 | the recurrence restarted from any N consecutive terms continues the same sequence |
| MersenneTwister.MTRand.Initialize | src/MersenneTwister.h:283-298 | the array holds the first N words of the initialisation by one seed |
| MersenneTwister.MTRand.Reload | src/MersenneTwister.h:301-314 | the three-part reload in place moves all N words one block on in the infinite sequence |
| MersenneTwister.MTRand.RandInt | src/MersenneTwister.h:179-193 | a draw is the next term, tempered |
| MersenneTwister.FirstDraws | src/MersenneTwister.h:179-193 | for every seed the k-th draw is the tempered term N + k, over any number of reloads |
| MersenneTwister.SaveThenLoad | src/MersenneTwister.h:343-361 | a generator that loads a saved state draws the same numbers for ever |
| Text.DigitsOfPrinted | src/streambuffer.h:209-221 | reading the printed digits of a number gives the number and leaves the text after it |
| Text.ParsePrinted | src/streambuffer.h:183-223 | printing and then parsing is the identity on 32-bit numbers |
| Text.ParsePlus | src/streambuffer.h:183-195 | a number may have a plus sign |
| Text.WordPrinted | src/streambuffer.h:225-233 | a word is read up to the blank or line end after it |
| Text.SkipLinePrinted | src/streambuffer.h:121-131 | the rest of a line is skipped whatever it says |
| Streams.StreamBuffer.AssureLookahead | src/streambuffer.h:75-80 | a refill does not change the text that is left, and at least one character is available unless the text is at its end |
| Streams.StreamBuffer.Advance | src/streambuffer.h:107-110 | one character is consumed, across chunk borders |
| Streams.StreamBuffer.ReadInt | src/streambuffer.h:183-223 | the number and the text after it are a function of the text that was left, whatever the chunks |
| Streams.StreamBuffer.ReadString | src/streambuffer.h:225-233 | likewise for a word |
| Dimacs.StrictNeverGrows | src/dimacsparser-gis.h:182-194 | the assertion holds: with a binding header no variable makes the problem grow |
| Dimacs.ReadClauseSound | src/dimacsparser-gis.h:200-233 | every literal that is read fits the problem |
| Dimacs.VariableGroupSound | src/dimacsparser-gis.h:708-738 | a group line keeps the two group tables in agreement, with group 0 empty |
| Dimacs.GroupStaysInside | src/dimacsparser-gis.h:724-736 | a group line stays inside the table if and only if every variable it lists is below its length, which is the header's number of variables at the first such line; it is then read as one more group of just these |
| Dimacs.SamplingLine | src/dimacsparser-gis.h:690-705 | a sampling set line is read whatever it lists |
| Dimacs.SamplingInside | src/dimacsparser-gis.h:690-705 | the sampling variables it leaves are variables of the problem if and only if all it lists are |
| Dimacs.ParseSound | src/dimacsparser-gis.h:587-657 | that holds after any accepted text |
| Dimacs.GroupsDisjoint | src/dimacsparser-gis.h:708-738 | over any state the parser can reach: read with zeros beyond its end, the table is what the rounds require if and only if no variable is listed twice; as it is, if and only if besides it is as long as the problem |
| Dimacs.ParsedGroups | src/dimacsparser-gis.h:587-657 | the same over whole texts |
| Dimacs.TableReach | src/main.cpp:250-260 | which look-ups stay inside the table: in group mode those of variables the table reaches; outside group mode, where the tables are not handed over, none of those of the backward round |
| Dimacs.TableLength | src/dimacsparser-gis.h:713-717 | in a text with one header the table is empty or as long as the header says |
| Dimacs.StrictOneHeader | src/dimacsparser-gis.h:587-600 | with a binding header no second one is accepted |
| Dimacs.XorMeaning | src/dimacsparser-gis.h:560-584 | the variables and right-hand side that are passed on hold exactly when an odd number of the literals is true |
| Dimacs.DimacsParser.ReadLits | src/dimacsparser-gis.h:200-233 | clause reading is the specified function of the text, including its errors |
| Dimacs.DimacsParser.ParseVariableGroup | src/dimacsparser-gis.h:708-738 | group reading is the specified function of the text |
| Dimacs.DimacsParser.ParseDimacs | src/dimacsparser-gis.h:587-657 | the whole parse is a function of the characters alone |
| Lines.PageRead | src/dimacsparser-gis.h:587-657 | any text made of header, sampling set, group, remark, empty, clause and parity lines is read as what these lines mean one after the other, with or without a line feed at its end, and rejected if one of them is |
| Lines.LineRead | src/dimacsparser-gis.h:587-657 | the same for one line, whatever follows it |
| Lines.IndentRead | src/dimacsparser-gis.h:592-594 | blanks at the start of a line make no difference |
| Lines.RemarkSkipped | src/dimacsparser-gis.h:470-479 | a comment line that starts with any word but ind and grp is skipped, whatever it says |
| Lines.NothingSaid | src/dimacsparser-gis.h:637-647 | so are comment lines without a word, and empty lines |
| Lines.OneLiteral | src/dimacsparser-gis.h:149-196 | a variable is accepted if and only if it is within the settings, below 2^28, and, with a binding header, below its number; the problem grows to hold it |
| Lines.ParityLine | src/dimacsparser-gis.h:560-584 | an x line adds one constraint, which an assignment meets if and only if an odd number of its literals is true |
| Lines.HeaderRead | src/dimacsparser-gis.h:280-330 | a header is rejected if it is a second binding one or a number is negative; otherwise the problem grows to its number of variables |
| Lines.HeaderRejected | src/dimacsparser-gis.h:310-327 | a header that does not say cnf is rejected |
| Lines.ThresholdRejected | src/dimacsparser-gis.h:626-636 | a threshold constraint is rejected |
| Lines.OpenClauseRejected | src/dimacsparser-gis.h:200-233 | a clause without its zero is rejected |
| Lines.NumberRejected | src/streambuffer.h:209-221 | a number is read if and only if it has at most 32 bits |
| Printing.DumpCnf | src/main.cpp:272-291 | the printer writes header, sampling set, clauses and factor line |
| Printing.PrintInd | src/main.cpp:207-211 | the printer writes the sampling set counted from one |
| Printing.SmallDocument | src/main.cpp:272-291 | an instance, letter by letter |
| Lines.LiteralsPrinted | src/dimacsparser-gis.h:200-233 | a list of literals is read as it is written, unless a variable is not admitted, and then rejected |
| Printing.IndPrinted | src/main.cpp:207-211 | a printed sampling set is read back |
| Lines.GroupRead | src/dimacsparser-gis.h:708-738 | a group line is read as one more group with the table entries of its members, whatever follows its zero; it is rejected if a member lies beyond the table |
| Printing.RoundTrip | src/main.cpp:272-291 | a printed problem is read back with the same variables, clauses and sampling set |
| Printing.DumpThenParse | src/main.cpp:272-291 | the same through the buffer and the parser, for any chunking |
| Printing.SmallText | src/dimacsparser-gis.h:587-657 | a literal text with every kind of line, and what is read |
| Printing.NoGroupLines | src/backward.cpp:178-178 | every printed problem without group lines is read with an empty table, in which no variable can be looked up |
| Printing.BeyondHeader | src/dimacsparser-gis.h:713-714 | a text whose last clause names a variable beyond a header that is not binding: the table does not reach it |

## Left out

- The inside of CryptoMiniSat (search, BVE, Gauss-Jordan, probing, its own renumbering): represented by contracts only.
- Pipeline.ProbeAll: the variables are probed in an arbitrary order, which stands for that of their incidence; the propagation counts recorded on the way are left out.
- Sat.SatSolver.Solve: that a query without an answer has used up its limit is an assumption about the solver, which an interrupted search would not keep.
- Pipeline.PreprocAndDuplicate: without bounded variable elimination of the doubled problem, which is off unless simplification is on.
- Run.GetIndepSet: a sampling set that lists a variable twice is excluded when the guess rounds run without simplification.
- Forward.TestForward: the round ends before a query that assumes the literal of no variable; what the solver makes of such a query is not modelled.
- Backward.BackwardRound: outside group mode the model does not follow the round beyond a variable with a group number (the end is then Mixed). The program hands tables over in group mode only.
- Backward.FillAssumptionsBackward: the vector updated in place is passed in and returned; aliasing of the vectors is not modelled. The branch that passes over switched-off groups is covered by the contract although the round never reaches it.
- Backward.PopUnit: the search for a switched-on candidate always stops at the first one, which the contract uses.
- Forward.SetGuessForwardRound: without the list of already independent variables, which is empty at its only call.
- Forward.FillAssumptionsForward: likewise without that list.
- Guess.FillAssumptionsGuess: likewise without that list.
- Guess.GuessRound: which order sorting by incidence, reversing and shuffling leave is not modelled; the round works in some order.
- Run.GuessLeavesMark: the orders of the rounds are arguments; that the first round sorts by incidence is not used.
- Forward rounds that add their assumptions to a copy of the solver (assign_fwd_val), off by default.
- Simplification.RemoveDefinableByGates: an or gate with a foreign output ends the scan of the or gates, so that maximality is for the gates up to it; before the problem is duplicated no output is foreign. The program does not call this function.
- Renumbering.FillSolverNoEmpty: the call that replaces equivalent variables between the clauses and the xors is not modelled; the xors are an argument.
- The fully simplified output after renumbering and its translation of the sampling set: solver calls.
- remove_definable_by_irreg_gates: a call into the solver.
- MersenneTwister.MTRand.Initialize: words are exactly 32 bits wide; the masks that keep a wider unsigned long to 32 bits appear only at the seed.
- MersenneTwister.MTRand.RandIntTo: that some draw is accepted is an argument; that it always comes about rests on the sequence.
- MersenneTwister.MTRand.Save: the words and the count are returned as values rather than written to one array of N + 1 words.
- Seeding from an array, from /dev/urandom or the clock.
- Floating point: parseDouble, rand, randNorm.
- Streams.StreamBuffer.ReadDigits: a number beyond 2^31 - 1 is an error; in the program the test comes after a signed overflow.
- Streams.StreamBuffer.Value: a byte 0xFF, which the program cannot tell from the end of the file, is an ordinary character here.
- Dimacs.GroupMembers: a variable beyond the header's number is an error; the program writes outside the table.
- Dimacs.Header: a second binding header makes the parse fail; the program exits.
- Dimacs.DimacsParser.ParseDimacs: threshold constraint lines make the parse fail, as in a build without them; weights, debug-library comments, the variable offset and line numbers in messages are left out.
- Printing.ClauseText: CryptoMiniSat's printing of a clause is taken as its literals separated by blanks.
- Lines.PageRead: in its lists one blank follows every number; other blanks between numbers are not spelled out.
- Verbosity, timing, option parsing, getters and setters, file and gzip handling.
