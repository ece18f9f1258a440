# SRTR threshold tuning core, modelled in Dafny

SRTR repairs the numeric
thresholds of robot state machines. A user labels transition events: should the
machine have switched state or not. The tuner then asks an optimising SMT solver
for the smallest perturbation of each threshold that makes the labelled events
come out right. This project models the core of `src/srtr/srtr.cpp` and proves
properties about it:

- **Parameter registry** (`GetParameters`). It walks every machine's tunable
  parameters in order and deduplicates them by name, so the first declaration
  wins. Each new name gets a baseline, a place in the name list, a perturbation
  variable ε and the term `ite(ε >= 0, ε, -ε)` for |ε|. Module `Parameters`
  (`parameters.dfy`).
- **Clause/block/event compiler** (inside `SolveWithBlocks`). Clause
  `lhs > p` becomes `int(lhs) > int(base[p]) + ε_p`, and `<` likewise. The
  clauses of a block, then the blocks of an event, are combined by a strict left
  fold driven by each later operand's AND/OR flag. Module `Compiler`
  (`compiler.dfy`), over the formula language of module `Formulas`
  (`formulas.dfy`).
- **Constraint assembly, objectives and extraction** (the rest of
  `SolveWithBlocks`).
  - Human-constrained events give weight-1 soft constraints.
  - The names they mention form an ordered set. Each name gets a minimisation
    objective on its |ε|, in the set's order.
  - After one solver check, the tuned bounds are written to `lowers`.

  Modules `Assembly` (`assembly.dfy`) and `Driver` (`driver.dfy`). The ordering
  of `std::set<std::string>` is modelled in module `StringOrder`
  (`string_order.dfy`).

The loops of the source are methods proved equal to recursive specification
functions: `GetParameters` against `RegisterAll`, `CompileBlock` and
`CompileEvent` against `Fold`, `Assemble` against `AssembleSoft`. The
properties are proved as lemmas about those functions. The solver is an
`Oracle`, a parameter holding the status `check` returns and the upper bound it
reports per objective handle. The optimiser is a value recording what was added
to it: soft constraints, and objectives whose handle is their index.

Behaviours of the code worth noting, which the model follows:

- A clause whose comparator is neither `>` nor `<` compiles to the constant
  `true`, not to an error. z3++'s `bool_val` takes a `bool`, so the placeholder
  `c->bool_val("case")` is `true`.
- An empty block or event likewise compiles to `true`. It is modelled, not
  refused.
- Both sides of a clause are truncated toward zero before comparing. With
  baseline 5 and no perturbation, `lhs > p` is therefore false at 5.5 as well as
  at 5 (`Compiler.GreaterThanBoundary`).
- A clause naming an unknown parameter fails only through the `at` lookups. A
  supported comparator fails immediately. Any tuned name without a baseline
  fails when its objective is registered, even one that only appears with an
  unsupported comparator. Both are modelled as `Err(UnknownParameter(name))`.
- The bound stored in `lowers` is the solver's upper bound on the objective.
- The extraction loop has two defects; see "## Findings". It resets its index
  in every iteration. It also stores each bound under `param_names[i]`, the
  i-th registered name in machine order, instead of the tuned name `param`.
  The driver uses the corrected loop, which advances the index and stores
  under the tuned name. The loop as written is modelled and characterised
  beside it.

## Model

| member | source | states |
|---|---|---|
| `Parameters.GetParameters` | src/srtr/srtr.cpp:23-55 | The nested loops leave the four containers equal to registering every machine's entries in order (`RegisterAll`). Names present before stay a prefix of the name list. Entries present before in the baseline, epsilon and absolute maps keep their values. |
| `Parameters.RegisterFirstSeen` | src/srtr/srtr.cpp:34-39 | From empty containers, the baselines' keys are exactly the declared names. Every listed name is declared. Names are listed in order of first declaration. Each baseline is the value of that first declaration. The four containers stay consistent (`Valid`). |
| `Parameters.FirstIndexIsFirst` | src/srtr/srtr.cpp:36-37 | No entry before the one `FirstIndex` picks declares the same name, so that entry is the first declaration. |
| `Parameters.RegisteredNames` | src/srtr/srtr.cpp:36-39 | The registered name list has no duplicates. Its elements are exactly the declared names. |
| `Parameters.RegisterCount` | src/srtr/srtr.cpp:36-39 | The number of registered names equals the number of distinct declared names. |
| `Parameters.RegisterKeepsValid` | src/srtr/srtr.cpp:36-51 | Registration keeps the containers consistent. The name list has no duplicates and holds exactly the baseline keys. The epsilon and absolute maps have the same keys as the baselines. Each epsilon is its own name's variable, and each absolute term is that variable's `ite`. |
| `Parameters.RegisterKeepsExisting` | src/srtr/srtr.cpp:36-51 | Registration only adds. The old name list stays a prefix. The baseline keys grow by exactly the declared names. Every existing baseline, epsilon and absolute entry keeps its value. |
| `Parameters.MapInsert` | src/srtr/srtr.cpp:50-51 | `std::map::insert` adds the key. It keeps every existing value, including the one under that key, and stores the new value only when the key was absent. |
| `Formulas.AbsTermIsMagnitude` | src/srtr/srtr.cpp:41-43 | The absolute term evaluates to ε or -ε. It is never negative, and it is zero exactly when ε is zero. |
| `Formulas.Trunc` | src/srtr/srtr.cpp:105-106 | The int conversion lies strictly within 1 of its argument. It is on the same side of zero as the argument and not farther from zero, i.e. truncation toward zero. |
| `Compiler.CompileClause` | src/srtr/srtr.cpp:101-114 | A clause fails to compile exactly when its comparator is `>` or `<` and its name has no epsilon. The failure then names that parameter. |
| `Compiler.ClauseMeaning` | src/srtr/srtr.cpp:104-113 | Under any assignment of the epsilons, a compiled clause holds exactly when the truncated literal compares as written with the truncated baseline plus ε. An unsupported comparator always holds. |
| `Compiler.GreaterThanBoundary` | src/srtr/srtr.cpp:104-108 | With baseline 5 and ε = 0, `lhs > p` is false at lhs 5, false at 5.5 (truncation) and true at 6. |
| `Compiler.MissingEpsilonFails` | src/srtr/srtr.cpp:105-112 | A supported clause compiled with no epsilons fails with an unknown-parameter error for its name. |
| `Compiler.FoldFailure` | src/srtr/srtr.cpp:117-134 | The left fold fails exactly when some operand fails, and then with the first failing operand's error. |
| `Compiler.FoldMeaning` | src/srtr/srtr.cpp:117-134 | Evaluating the folded formula equals folding the operands' truth values by their flags (`BoolFold`). |
| `Compiler.FoldIgnoresFirstFlag` | src/srtr/srtr.cpp:117-118 | Changing the first operand's flag does not change the fold. |
| `Compiler.BlockFailure` | src/srtr/srtr.cpp:94-126 | A block fails exactly when one of its clauses is unresolved. The error then belongs to the first unresolved clause. |
| `Compiler.BlockMeaning` | src/srtr/srtr.cpp:94-126 | A block whose clauses all resolve compiles. Its formula mentions only assigned epsilons and evaluates to the fold of its clauses' meanings (`BlockHolds`). |
| `Compiler.BlockGrouping` | src/srtr/srtr.cpp:117-125 | A block [A, B joined by AND, C joined by OR] compiles to exactly `Or(And(A, B), C)`. |
| `Compiler.BlockIsNotPrecedence` | src/srtr/srtr.cpp:117-125 | There is a block [A, B and, C or] whose formula holds while A ∧ (B ∨ C) does not. The fold is not operator precedence. |
| `Compiler.BlockIgnoresFirstFlag` | src/srtr/srtr.cpp:117-118 | The first clause's AND/OR flag does not change the block's formula. |
| `Compiler.EventIgnoresFirstFlag` | src/srtr/srtr.cpp:128-129 | The first block's AND/OR flag does not change the event's formula. |
| `Compiler.AndAdmitsNoMoreThanOr` | src/srtr/srtr.cpp:120-124 | A two-clause block joined by AND holds exactly when both clauses hold. Whenever it holds, the same block joined by OR holds. |
| `Compiler.TwoClauses` | src/srtr/srtr.cpp:117-125 | The meaning of a two-clause block is the first clause joined to the second by the second clause's flag. |
| `Compiler.EventMeaning` | src/srtr/srtr.cpp:89-135 | An event fails exactly when some clause of some block is unresolved. Otherwise its formula mentions only assigned epsilons and evaluates to the fold of its blocks' meanings by the blocks' flags (`EventHolds`). |
| `Compiler.CompileBlock` | src/srtr/srtr.cpp:91-126 | The clause loop returns exactly the block's fold (`BlockFormula`), including the first failure. The tuned set stays ascending. For a human-constrained event, the set gains exactly the block's rhs names. |
| `Compiler.CompileEvent` | src/srtr/srtr.cpp:85-135 | The block loop returns exactly the event's fold (`EventFormula`). The tuned set stays ascending. For a human-constrained event, it gains exactly the names the event's clauses mention. |
| `StringOrder.Insert` | src/srtr/srtr.cpp:99 | `std::set::insert` adds the name to the set's elements and nothing else. |
| `StringOrder.InsertAscending` | src/srtr/srtr.cpp:99 | Inserting keeps the set in strictly ascending order, with no duplicates. |
| `StringOrder.AscendingCard` | src/srtr/srtr.cpp:148 | Iterating the ordered set visits each tuned name exactly once. |
| `Assembly.TunedNamesMembership` | src/srtr/srtr.cpp:98-100 | A name is tuned exactly when a clause of some human-constrained event compares against it, whatever the clause's comparator. |
| `Assembly.NonHumanEventInert` | src/srtr/srtr.cpp:138-144 | An event that is not a human constraint adds no tuned name and no soft constraint. |
| `Assembly.AssembleFailure` | src/srtr/srtr.cpp:84-145 | Assembly fails exactly when some event fails to compile, and then with the first such event's error. |
| `Assembly.SoftsMatchHumanEvents` | src/srtr/srtr.cpp:137-144 | There is exactly one soft constraint per human-constrained event, in order. Each has weight 1. It is the event's formula if the event should transition, its negation otherwise. |
| `Assembly.SoftMeaning` | src/srtr/srtr.cpp:138-143 | Under any assignment of the epsilons, an event's soft constraint holds exactly when the event's clauses decide the way its label says. |
| `Assembly.Assemble` | src/srtr/srtr.cpp:83-145 | The event loop fails exactly when `AssembleSoft` does, with the same error. Otherwise it appends exactly `AssembleSoft`'s constraints to the optimiser and leaves the objectives alone. The tuned set it returns is ascending and holds exactly `TunedNames`. |
| `Assembly.RegisterObjectives` | src/srtr/srtr.cpp:147-152 | The objective loop fails exactly when some tuned name has no absolute term or epsilon, and then on the first such name. Otherwise objective i minimises the i-th name's absolute term. Handle i is that objective's index, and epsilon value i is that name's epsilon. The soft constraints are unchanged. |
| `Driver.UnregisteredIff` | src/srtr/srtr.cpp:149-151 | When the registry's maps share their keys, a tuned name fails its lookups exactly when it has no baseline. |
| `Driver.RegisteredFacts` | src/srtr/srtr.cpp:72-79 | In a run's registry, the absolute and epsilon maps have the baselines' keys, and each absolute term is the `ite` for its own name. |
| `Driver.ExtractAsWritten` | src/srtr/srtr.cpp:165-177 | The extraction loop as written leaves `lowers[param_names[0] := upper(handles[0])]` when the status is sat and a name is tuned. Otherwise `lowers` is unchanged. |
| `Driver.AsWrittenWritesOneName` | src/srtr/srtr.cpp:166-172 | The as-written extraction changes at most one key, always `param_names[0]`, to the bound of handle 0. It changes nothing unless the status is sat and a name is tuned. |
| `Driver.AsWrittenLosesTunedNames` | src/srtr/srtr.cpp:166-176 | With two or more tuned names and an empty `lowers`, the as-written extraction leaves some tuned name without a bound. |
| `Driver.AsWrittenWrongKey` | src/srtr/srtr.cpp:166-172 | With one tuned name "a" and registered names "z", "a", the as-written extraction stores handle 0's bound under "z" and gives "a" nothing: the key comes from the registered-name list, not from the tuned name. |
| `Driver.AsWrittenExample` | src/srtr/srtr.cpp:166-176 | Tuned names "a", "b" with handles 0, 1 leave only "a", holding handle 0's bound. |
| `Driver.ExtractLowers` | src/srtr/srtr.cpp:165-177 | The corrected extraction (index advancing, key the tuned name itself) leaves `lowers` unchanged unless the status is sat. On sat, its keys grow by exactly the tuned names, and the i-th tuned name holds the bound of handle i. Keys that are not tuned keep their values. |
| `Driver.AddObjectives` | src/srtr/srtr.cpp:147-152 | On a registry whose maps share their keys, objective registration fails exactly when some tuned name has no baseline. Otherwise the earlier objectives are kept, the i-th tuned name's absolute term is appended under handle number of earlier objectives plus i, and the soft constraints are untouched. |
| `Driver.BuildProblem` | src/srtr/srtr.cpp:83-152 | The problem handed to the solver fails exactly when assembly fails or some tuned name has no baseline. Otherwise it holds exactly the assembled soft constraints and one objective per tuned name: the i-th objective is that name's absolute term, with handle i. |
| `Driver.SolveFrom` | src/srtr/srtr.cpp:83-178 | After registration, the run fails exactly as `BuildProblem` does. Otherwise the outcome is the oracle's status on that problem. The tuned set has one entry per distinct tuned name. On sat, `lowers` gains exactly the tuned names, each with its own objective's upper bound (corrected extraction). Otherwise `lowers` is unchanged. Other keys never change. |
| `Driver.SolveWithBlocks` | src/srtr/srtr.cpp:57-184 | `params` is the registered baselines. Failure happens exactly when some event fails to compile or some tuned name is undeclared. On success, the solver gets the human events' soft constraints and one absolute-epsilon objective per distinct tuned name, in ascending order. On sat, each tuned name's upper bound goes to `lowers` (corrected extraction). Non-tuned keys keep their values. |

## Left out

- The solver itself is not modelled: the search of `opt.check`, the bounds of `opt.upper`/`opt.lower`, and `get_model`. The oracle's status and bounds are parameters, so nothing is proved about optimality. That covers satisfiability of consistent labels, unsatisfiability of contradictory ones, and zero perturbation when the baselines already fit.
- Console output, including the SMT2 dump and the per-parameter lines, is diagnostic only and not modelled.
- `get_decimal_string(5)` and `std::atof` are not modelled. The bound is taken from the oracle as a real, without rounding to five decimals.
- `float` inputs are exact reals, not IEEE values. `static_cast<int>` is truncation toward zero with no overflow for values outside the `int` range.
- The dead `sum` accumulation, the unused `solver` object, and the unused `opt` and `handles` parameters of `GetParameters` are not modelled, because they affect no output.
- The per-iteration placeholders `transition`, `neg_transition` and `block_transition` are not modelled, because each is overwritten or is the constant `true` the fold starts from.
- `epsilon_values` is modelled: `Assembly.RegisterObjectives` builds it and proves it index-aligned with the handles. `Driver.AddObjectives` then discards it, because the source reads it only for printing (src/srtr/srtr.cpp:174).
- The return value of `SolveWithBlocks` is the constant 0 and is not modelled.
- The protobuf records become datatypes holding only the fields that are read.
- C++ exceptions from `at` become an `Err` result. `params` is still set, as line 81 runs first, and `lowers` is left unchanged.
- Names are Dafny strings ordered by code point. The C++ set compares the names' bytes as `unsigned char`, and for valid UTF-8 that byte order is the code-point order, so the two agree. Names that are not valid UTF-8 are not modelled.
- The optimiser and the registry containers are values returned by the methods, not objects updated through pointers. Aliasing between the pointers is not modelled.
- `Driver.SolveFrom`: uses the corrected extraction (`Driver.ExtractLowers`), not the loop at src/srtr/srtr.cpp:165-177 as written, which stores only `lowers[param_names[0]]` from handle 0; that loop is modelled by `Driver.ExtractAsWritten`, as recorded under "## Findings".
- `Driver.SolveWithBlocks`: uses the corrected extraction (`Driver.ExtractLowers`). The source writes only `lowers[param_names[0]]`; that behaviour is modelled by `Driver.ExtractAsWritten`, as recorded under "## Findings".

## Findings

| source | as written | input that shows it | evidently intended | confidence | as-written member | corrected member |
|---|---|---|---|---|---|---|
| src/srtr/srtr.cpp:166-177 | Two defects. First, `int i = 0` is declared inside the loop, so `i++` has no effect and every iteration reads `handles[0]` and writes `lowers[param_names[0]]`. Second, the key is `param_names[i]`, the i-th registered name in machine order, rather than the tuned name `param`, so the bound would go under the wrong key even if the index advanced. | Tuned names "a", "b" with handles 0, 1 and a sat result: only "a" gets a bound (handle 0's), and "b" gets none. With one tuned name "a" and registered names "z", "a": the bound is stored under "z" and "a" gets none. | Each tuned name `param` receives the upper bound of its own objective handle, and untuned keys are left alone. | not executed | `Driver.AsWrittenWrongKey` | `Driver.ExtractLowers` |
