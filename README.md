# tulip-control: transition systems to GR(1), and the LTL syntax tree

This project models two parts of tulip-control in Dafny.

- **`tulip/synth.py`** encodes a finite transition system as a GR(1) specification.
  - A closed system (`FTS`) becomes the system's variables, initial conditions and safety formulas.
  - An open system (`OpenFTS`) becomes both players' parts, seen from the system's side or from the environment's side.
  - States and actions become boolean or integer variables.
  - The transitions become `(state) -> X(successor || ...)` formulas.
  - The atomic propositions of each state are tied to that state.
- **`tulip/spec/ast.py`** is the LTL syntax tree.
  - It covers the node kinds, size, variables and bottom-up `map`.
  - It renders into the gr1c, JTLV, SMV, Promela (SPIN) and Python dialects through fixed token tables.

## How the model is built

The encoder builds formulas as text, so the model keeps that text literally.

- The combinators (`Combinators.Disj`, `Conj`, `ConjNeg`, `Mutex`, `ExactlyOne`, `ConjAction`, `SprintAps`) are string functions, as in the source.
- The generators `sys_init_from_ts`, `sys_trans_from_ts`, `env_trans_from_sys_ts`, `env_trans_from_env_ts` and `ap_trans_from_ts` are methods with the source's loops.
- The drivers follow the source too.
  - `fts2spec` and the open variants are methods.
  - The caller's variable dictionary and formula lists that `create_states`/`create_actions` extend in place are the fields of the class `Encoding.SpecPart`.

Next to the text there is an independent formula tree, `Prop.Prop`.

- `Prop.Show` writes a tree in the same notation.
- `Prop.Eval` reads it over two states: a step from `now` to `nxt`, each given as the set of atoms that are true.

Each generator is proved to produce `ShowAll(...)` of a list of trees. Lemmas then state, for every input, what that list means. For example:

- a state's safety formula holds exactly when some transition leaving it is taken;
- the `mutex` constraint holds exactly when at most one non-empty label is true.

The LTL syntax tree is one datatype, `LtlAst.Node`.

- A node owns its children. The source's graph stores each child under the key `id(x)`, and `operand`/`_child` return that key rather than the node. The model reads each child as the node stored under its key (see "Left out").
- Rendering is one total function, `LtlAst.Render`. Its result is either the text or the exception the source raises.

Modules:

- `Wrappers`: `Option` and `Result`.
- `Text`: `str()`, `upper()` and `" && ".join`.
- `TransSys`: transition systems and their labels.
- `Prop`: formula trees.
- `Combinators`: `pstr` … `sprint_aps`.
- `Encoding`: states and actions as variables.
- `Generators`: `*_from_ts`.
- `Synth`: the drivers.
- `LtlAst`: the LTL syntax tree.

## Model

| member | source | states |
|---|---|---|
| Combinators.Pstr | tulip/synth.py:47-48 | `pstr(s)` is `s` between parentheses |
| Combinators.Disj | tulip/synth.py:50-54 | `_disj` joins the parenthesised items with ` \|\| `; its meaning is stated by `DisjShows` and `Prop.EvalAnyParens` |
| Combinators.Conj | tulip/synth.py:56-60 | `_conj` joins the parenthesised items with ` && `; its meaning is stated by `ConjShows` and `Prop.EvalAll` |
| Combinators.ConjIntersection | tulip/synth.py:62-74 | `_conj_intersection` joins, with ` && `, the items of the list that are in the set, parenthesised or not; stated by `ConjIntersectionShows` and `Inside` |
| Combinators.ConjNeg | tulip/synth.py:76-86 | `_conj_neg` joins `!(x)` or `!x` for each item with ` && `; stated by `ConjNegShows` and `Prop.EvalNegAtoms` |
| Combinators.ConjNegDiff | tulip/synth.py:88-100 | `_conj_neg_diff` is `_conj_neg` of the items outside the set; stated by `Outside` and `ConjNegShows` |
| Combinators.DisjShows | tulip/synth.py:50-54 | `_disj` of the texts of a list of formulas is the text of their disjunction, each disjunct parenthesised |
| Combinators.ConjShows | tulip/synth.py:56-60 | `_conj` of the texts is the text of the parenthesised conjunction |
| Combinators.ConjIntersectionShows | tulip/synth.py:62-74 | `_conj_intersection(xs, ys, False)` is the conjunction of the atoms of `xs` that are in `ys`, in order |
| Combinators.Inside | tulip/synth.py:62-74 | the items kept are exactly the items of `xs` that are in `ys`, and there are no more of them than of `xs` |
| Combinators.Outside | tulip/synth.py:88-100 | the items kept are exactly the items of `xs` outside `ys` |
| Combinators.OutsideNothing | tulip/synth.py:88-100 | removing nothing keeps the list as it is |
| Combinators.InsideNothing | tulip/synth.py:62-74 | intersecting with nothing keeps nothing |
| Combinators.SplitLength | tulip/synth.py:62-100 | every item lands in exactly one of the intersection and the difference |
| Combinators.ConjNegShows | tulip/synth.py:76-86 | `_conj_neg` is the conjunction of the negated names, written `!(x)` or `!x` as `parenth` says |
| Combinators.ShowNegParenAtom | tulip/synth.py:76-86 | a negated parenthesised atom is written `!(x)` |
| Combinators.Mutex | tulip/synth.py:102-114 | `mutex` yields at most one formula, and none exactly when at most one non-empty label is given |
| Combinators.MutexShows | tulip/synth.py:102-114 | the text of `mutex` is the text of its formula tree |
| Combinators.MutexClauseShows | tulip/synth.py:110-113 | the clause for label `x` is written `!(x) \|\| (...)` over the other labels |
| Combinators.MutexClauseMeaning | tulip/synth.py:110-113 | the clause for `x` holds exactly when `x` being true makes every other label false |
| Combinators.MutexMeaning | tulip/synth.py:102-114 | the `mutex` formula holds exactly when at most one non-empty label is true |
| Combinators.ExactlyOne | tulip/synth.py:116-127 | as many formulas as labels for at most one label, otherwise exactly one formula |
| Combinators.ExactlyOneShows | tulip/synth.py:116-127 | the text of `exactly_one` is the text of its formula tree |
| Combinators.ExactlyOneMeaning | tulip/synth.py:116-127 | for a non-empty list, the formulas hold exactly when some label is true and at most one is |
| Combinators.ExactlyOneImpliesMutex | tulip/synth.py:102-127 | whenever the `exactly_one` formula holds, the `mutex` formula holds too |
| Combinators.ConjAction | tulip/synth.py:129-140 | `_conj_action` is empty exactly when the label has no such action or the text written for it (its id, or the action itself without ids) is empty, otherwise ` && (id)`, or ` && X(id)` when `nxt`; stated by `AddActionShows` and `AddActionMeaning` |
| Combinators.ActionText | tulip/synth.py:129-140 | the id `_conj_action` prints for the label's action is never empty |
| Combinators.AddActionShows | tulip/synth.py:129-140 | appending `_conj_action` to a formula's text writes the extended formula, and nothing is appended exactly when the label has no such action or the text written for it (its id, or the action itself without ids) is empty |
| Combinators.AddActionMeaning | tulip/synth.py:129-140 | the extended formula holds when the formula holds and the action's id holds, in the next state when `nxt` |
| Combinators.SprintAps | tulip/synth.py:777-792 | `sprint_aps` glues the conjunction of the label's propositions to the conjunction of the negated others with ` && ` when both are non-empty; stated by `ApPropShows`, `ApPropMeaning` and `SprintApsLiterals` |
| Combinators.ApPropShows | tulip/synth.py:777-792 | `sprint_aps` writes the formula tree of the label's literals |
| Combinators.ApPropMeaning | tulip/synth.py:777-792 | with non-empty names, the text is empty only without propositions, and it holds exactly when every proposition is true iff the label lists it |
| Combinators.SprintApsLiterals | tulip/synth.py:777-792 | `sprint_aps` joins the label's propositions, then `!p` for every other proposition, one literal per proposition |
| Combinators.ShownEmpty | tulip/synth.py:56-60 | a conjunction is written as empty text only for at most one empty item |
| Prop.HoldsAppend | tulip/synth.py:426-435 | a list built by `+=` holds exactly when both parts hold |
| Prop.ShowAllAppend | tulip/synth.py:426-435 | the text of concatenated lists is the concatenated texts |
| Prop.EvalAll | tulip/synth.py:56-60 | a conjunction holds exactly when each item does |
| Prop.EvalAtomsAll | tulip/synth.py:62-74 | a conjunction of atoms holds exactly when all the names are true |
| Prop.EvalNegAtoms | tulip/synth.py:76-86 | a conjunction of negated names holds exactly when none of them is true |
| Prop.EvalAnyParens | tulip/synth.py:50-54 | a disjunction holds exactly when one of its items does |
| TransSys.OutEdges | tulip/synth.py:634 | `trans.find([s])` yields exactly the transitions leaving `s` |
| TransSys.SymbolText | tulip/synth.py:129-140 | an integer action is written as non-empty decimal text |
| Text.SpaceAfterSign | tulip/synth.py:192-198 | `int(state[1:])` accepts whitespace around the text and between the sign and the digits (`- 1`), and rejects a lone sign or digits split by a space |
| Encoding.StatesToInts | tulip/synth.py:175-211 | the flag-and-break loop computes the ids and domain of `IntStateIds`/`IntStateDomain` |
| Encoding.IntStateIds | tulip/synth.py:200-209 | every state gets an id |
| Encoding.IntStateIdsDistinct | tulip/synth.py:200-209 | two states share an integer id exactly when they are the same state or their numbers are written alike (`a01` and `b1` differ) |
| Encoding.IntStateDomainSize | tulip/synth.py:200-210 | the state domain has exactly one value per state |
| Encoding.EncodeStates | tulip/synth.py:142-173 | every state gets an id |
| Encoding.EncodeStatesFewStates | tulip/synth.py:162-169 | below 3 states the encoding is boolean whatever was asked; the `exactly_one` constraint holds exactly when one state variable is true |
| Encoding.EncodeStatesInt | tulip/synth.py:170-172 | with 3 states or more and integer states, one variable `statevar` and no constraint; letter-and-number names give `(0, n-1)` and `statevar = <number>` |
| Encoding.EncodeStatesDistinct | tulip/synth.py:142-211 | distinct states get distinct ids, unless their numbers are written alike |
| Encoding.IntActionEncoding | tulip/synth.py:303-326 | `actions2ints`: integer actions are their own ids; the domain is `(0, N)`, or `(0, N-1)` under `min_one`; string actions get `actionvar = a` and the enumerated names plus `actionvar + 'none'` unless `min_one`; mixed actions give the concatenation `TypeError`; stated by `IntActionDomainSize` and `IntActionIdsDistinct` |
| Encoding.ActionsToInts | tulip/synth.py:303-326 | the flag-and-break loop computes `IntActionEncoding` |
| Encoding.IntActionDomainSize | tulip/synth.py:309-326 | fails exactly for mixed integer and string actions; otherwise the domain has N+1 values, or N under `min_one` |
| Encoding.IntActionIdsDistinct | tulip/synth.py:319-322 | string actions get distinct ids |
| Encoding.StrNames | tulip/synth.py:319-322 | the domain lists the action names in order |
| Encoding.ActionNames | tulip/synth.py:282-283 | each action's name is `str(action)` |
| Encoding.EncodeActions | tulip/synth.py:213-301 | `create_actions` as a value: no actions give nothing; an unknown `actions_must` gives its `Exception`; otherwise the boolean or integer encoding with its constraint formulas; stated by `EncodeActionsOutcome`, `EncodeActionsIds`, `EncodeActionsErrors` and `EncodeActionsConstrained` |
| Encoding.EncodeActionsIds | tulip/synth.py:252-301 | a successful encoding has ids exactly when there are actions, and then an id for every action |
| Encoding.EncodeActionsErrors | tulip/synth.py:258-269 | the two errors: `Unknown value: actions_must = ...` for an unknown value, and the concatenation error for mixed actions |
| Encoding.EncodeActionsOutcome | tulip/synth.py:252-301 | no actions: nothing declared and `None`; otherwise failure exactly for an unknown `actions_must` or mixed actions under the integer encoding |
| Encoding.EncodeActionsUnconstrained | tulip/synth.py:258-287 | under `actions_must=None` every action is an unconstrained boolean variable named after it |
| Encoding.ActionConstraintMeaning | tulip/synth.py:286-294 | with two or more names, one constraint: at most one action true (`mutex`), or exactly one (`xor`) |
| Encoding.ActionConstraintNext | tulip/synth.py:290-294 | the `X (...)` safety formula holds exactly when the constraint holds of the next state |
| Encoding.EncodeActionsConstrained | tulip/synth.py:286-294 | under `mutex`/`xor` with boolean actions the constraint goes once into init and once, under `X `, into the safety list |
| Encoding.SpecPart.CreateStates | tulip/synth.py:142-173 | the variables and the safety list are extended by the state encoding, init is untouched, and the ids are returned |
| Encoding.SpecPart.CreateActions | tulip/synth.py:213-301 | on success the three lists are extended by the action encoding and its ids are returned; on failure nothing changes and the error is returned |
| Encoding.SpecPart.AddBoolActions | tulip/synth.py:279-295 | the boolean branch declares one boolean per action and appends the mutual exclusion (or exactly-one) constraint to the initial condition and, under `X`, to the safety formulas, as `BoolActionEncoding` describes |
| Generators.IdsOf | tulip/synth.py:608 | the ids of the given keys, in order |
| Generators.ShowAllAtoms | tulip/synth.py:50-54 | atoms are written as their names |
| Generators.SysInitFromTs | tulip/synth.py:576-609 | the loop produces the clause of each initial state with a non-empty proposition string, then the disjunction of the initial states unless ignored |
| Generators.InitApClauseShows | tulip/synth.py:590 | the clause of an initial state is `!((id)) \|\| (aps)` |
| Generators.InitTail | tulip/synth.py:592-609 | after the clauses come nothing when the initial states are ignored, `False` when there are none, and otherwise the disjunction of their ids |
| Generators.InitApClauseMeaning | tulip/synth.py:590 | the clause holds exactly when the state being current makes its label's propositions true and the others false |
| Generators.SprintApsEmpty | tulip/synth.py:587-589 | with non-empty names the proposition string is empty only without propositions |
| Generators.InitApPropsMeaning | tulip/synth.py:584-590 | the clauses hold exactly when every current initial state forces its label |
| Generators.SysInitMeaning | tulip/synth.py:576-609 | the initial condition holds exactly when every current initial state forces its label and, unless ignored, some initial state is current |
| Generators.SomeInitialMeaning | tulip/synth.py:596-609 | the last initial formula is `False` without initial states and otherwise holds exactly when some initial state is current |
| Generators.SysTransFromTs | tulip/synth.py:611-655 | one formula per state: `(id) -> X(False)` for a dead end, otherwise the disjunction of the transitions' targets and actions |
| Generators.SysTransLine | tulip/synth.py:630-654 | one pass of the state loop writes exactly the formula of that state |
| Generators.SysPostconds | tulip/synth.py:641-652 | the inner loop writes one disjunct per transition |
| Generators.SysEdgePostShows | tulip/synth.py:643-650 | a transition's disjunct is its target id followed by its actions' `_conj_action` texts |
| Generators.SysTransClauseShows | tulip/synth.py:630-654 | a state's formula is `(id) -> X(False)` or `(id) -> X((post) \|\| ...)` |
| Generators.SysEdgePostMeaning | tulip/synth.py:643-650 | a disjunct holds exactly when its transition is taken: target and action ids true |
| Generators.SysTransClauseMeaning | tulip/synth.py:611-655 | a state's formula holds exactly when, if the state is current, some transition leaving it is taken in the next state |
| Generators.SysEdgePostsMeaning | tulip/synth.py:652-654 | the disjunction holds exactly when one of the transitions is taken |
| Generators.SysTransMeaning | tulip/synth.py:630-654 | the formulas of `sys_trans_from_ts` hold exactly when every state that holds now moves along one of its transitions |
| Generators.SysSafetyMeaning | tulip/synth.py:431-435 | the formulas of `sys_trans_from_ts` followed by those of `ap_trans_from_ts` hold exactly when every current state moves along one of its transitions and every next state carries its label; the action constraint and `exactly_one` formulas `fts2spec` also adds are stated by `Encoding.ActionConstraintNext` and `Encoding.EncodeStatesFewStates` |
| Generators.EnvIdsOfMember | tulip/synth.py:683-691 | an id is collected exactly when some transition carries an environment action with that id |
| Generators.EnvIdsOfNoDup | tulip/synth.py:683-691 | each collected id appears once, as in the source's set |
| Generators.NextEnvActions | tulip/synth.py:683-690 | the inner loop collects those ids |
| Generators.EnvFromSysProps | tulip/synth.py:657-695 | no formulas without environment action ids, otherwise one per state |
| Generators.EnvFromSysClauseShows | tulip/synth.py:670-694 | a dead end gives `(id) -> X(!(a) && ...)` over all environment action ids, a live state `(id) -> X((a) \|\| ...)` over the ids on its transitions |
| Generators.EnvTransFromSysTs | tulip/synth.py:657-695 | the loop writes those formulas |
| Generators.EnvFromSysClauseMeaning | tulip/synth.py:670-694 | when a live state is current, some environment action on its transitions holds next; when a dead end is current, no environment action holds next |
| Generators.EnvFromSysEmptyNext | tulip/synth.py:683-694 | when no transition carries an environment action the formula is `(id) -> X()` |
| Generators.NextImplShows | tulip/synth.py:654 | the shape `(id) -> X(body)` |
| Generators.NextImplEval | tulip/synth.py:654 | `(id) -> X(body)` holds exactly when the state being current makes the body hold next |
| Generators.EnvEdgePosts | tulip/synth.py:728-746 | one disjunct per transition |
| Generators.EnvEnvProps | tulip/synth.py:697-755 | one formula per state |
| Generators.EnvEdgePostShows | tulip/synth.py:732-746 | a transition's disjunct is `(X(target) && X(env action) && X(action) && (sys action))` |
| Generators.GuardAnyShows | tulip/synth.py:754 | the shape `((id)) -> (... \|\| ...)` |
| Generators.GuardAnyEval | tulip/synth.py:754 | that shape holds exactly when the state being current makes one of the items hold |
| Generators.EnvEnvClauseShows | tulip/synth.py:710-754 | a dead end is `(id) -> X(False)`, a live state the guarded disjunction with the optional escape disjunct |
| Generators.EnvPostconds | tulip/synth.py:728-746 | the inner loop writes the disjuncts and sets `found_free` exactly when some transition carries no system action |
| Generators.EnvPostcond | tulip/synth.py:731-746 | one transition yields its disjunct, and it is free exactly when it carries no system action |
| Generators.EnvTransFromEnvTs | tulip/synth.py:697-755 | the loop writes one formula per state |
| Generators.EnvTransLine | tulip/synth.py:710-754 | one pass of the state loop writes exactly the formula of that state, escape disjunct included |
| Generators.EnvItemsShows | tulip/synth.py:728-752 | the items are the disjuncts, followed by the escape disjunct when it is needed |
| Generators.EnvEdgePostMeaning | tulip/synth.py:732-746 | a disjunct holds exactly when the transition is taken: target, environment and plain action next, system action now |
| Generators.EnvEnvItemsMeaning | tulip/synth.py:748-754 | the disjunction holds exactly when one transition is taken, or the escape is needed and no system action is true |
| Generators.EnvEnvClauseMeaning | tulip/synth.py:708-755 | a state's assumption holds exactly when, if the state is current, one transition is taken or the system is idle and may escape |
| Generators.ActionAtoms | tulip/synth.py:129-140 | the atoms of a transition's action include its printed id |
| Generators.EnvNotBlockedWhenSysIdle | tulip/synth.py:748-752 | with the escape disjunct present, a live state never blocks the environment while no system action is true |
| Generators.NextGuardShows | tulip/synth.py:774 | the shape `X((id) -> (q))` |
| Generators.ApTransClauseShows | tulip/synth.py:774 | a state's formula is `X((id) -> (aps))` |
| Generators.ApTransStep | tulip/synth.py:766-774 | one loop step adds a formula exactly when the proposition string is non-empty |
| Generators.ApTransFromTs | tulip/synth.py:757-775 | the loop returns `[]` without propositions and skips states whose proposition string is empty |
| Generators.ApTransNoAps | tulip/synth.py:762-764 | without propositions there is nothing to generate, so the early return changes nothing |
| Generators.ApTransClauseMeaning | tulip/synth.py:774 | the formula holds exactly when the state being next makes its label hold next |
| Generators.ApTransMeaning | tulip/synth.py:757-775 | the formulas hold exactly when every next state carries its label |
| Generators.ApTransCount | tulip/synth.py:757-775 | with non-empty propositions every state gets exactly one formula |
| Synth.ApVars | tulip/synth.py:419 | every proposition is declared `boolean`, and nothing else |
| Synth.WellFormedCovered | tulip/synth.py:421-436 | for a well-formed system the encodings give ids to every state, initial state and action tag the generators look up |
| Synth.SysTransFormulas | tulip/synth.py:431-435 | `sys_trans_from_ts(...) + ap_trans_from_ts(...)` |
| Synth.EnvTransFormulas | tulip/synth.py:564-568 | `env_trans_from_env_ts(...) + ap_trans_from_ts(...)` |
| Synth.FillSys | tulip/synth.py:429-435 | init and the safety list are extended by the generated formulas; the variables are untouched |
| Synth.FillEnvFromSys | tulip/synth.py:513-515 | the environment's safety list is extended by `env_trans_from_sys_ts` |
| Synth.FillEnv | tulip/synth.py:562-568 | the environment's init and safety list are extended by the generated formulas |
| Synth.FtsSpec | tulip/synth.py:397-437 | `fts2spec` as a value: the action error, or the declared variables, initial formulas and safety formulas of a closed system; stated by `FtsSpecOutcome` and `FtsSpecVars` |
| Synth.FtsToSpec | tulip/synth.py:397-437 | `fts2spec` returns the triple `FtsSpec` describes, or the error of `create_actions` |
| Synth.FtsSpecOutcome | tulip/synth.py:397-437 | a closed system is rejected exactly when its actions are |
| Synth.FtsSpecVars | tulip/synth.py:419-427 | propositions, action variables and state variables are declared; states are booleans, or `statevar` has one value per state |
| Synth.SysOpenSpec | tulip/synth.py:439-521 | `sys_open_fts2spec` as a value: the first action error, or both players' parts; stated by `SysOpenSpecOutcome` and `SysOpenSpecSides` |
| Synth.SysOpenFtsToSpec | tulip/synth.py:439-521 | `sys_open_fts2spec` returns the specification `SysOpenSpec` describes |
| Synth.FinishSysOpen | tulip/synth.py:501-521 | after the actions, the state encoding and the generated formulas complete both parts |
| Synth.SysOpenSpecOutcome | tulip/synth.py:439-521 | rejected exactly when the system or environment actions are, the system's error first |
| Synth.SysOpenSpecSides | tulip/synth.py:439-521 | propositions and states are system variables; an environment without actions contributes nothing |
| Synth.EnvOpenSpec | tulip/synth.py:523-574 | `env_open_fts2spec` as a value: the first action error, or both players' parts; stated by `EnvOpenSpecOutcome` and `EnvOpenSpecSides` |
| Synth.EnvOpenFtsToSpec | tulip/synth.py:523-574 | `env_open_fts2spec` returns the specification `EnvOpenSpec` describes |
| Synth.FinishEnvOpen | tulip/synth.py:558-574 | after the actions, the state encoding and the generated formulas complete the environment part |
| Synth.EnvOpenSpecOutcome | tulip/synth.py:523-574 | rejected exactly when the environment or system actions are, the environment's error first |
| Synth.EnvOpenSpecSides | tulip/synth.py:523-574 | propositions and states (`eloc`) are environment variables, at least one safety formula per state; a system without actions contributes nothing |
| Synth.SysSpec | tulip/synth.py:328-367 | `sys_to_spec` as a value: the missing-`action_vars` error, the closed system on the system side with `loc`, or the system-open specification; stated by `ClosedSides` and `SysOpenSpecSides` |
| Synth.EnvSpec | tulip/synth.py:369-395 | `env_to_spec` as a value: the same dispatch with the closed system on the environment side and `eloc`; stated by `ClosedSides` and `EnvOpenSpecSides` |
| Synth.SysToSpec | tulip/synth.py:328-367 | `sys_to_spec` dispatches a closed system to `fts2spec` with `loc` and the second action variable, an open one to `sys_open_fts2spec` |
| Synth.EnvToSpec | tulip/synth.py:369-395 | `env_to_spec` dispatches a closed system with `eloc` and the first action variable, an open one to `env_open_fts2spec` |
| Synth.ClosedSides | tulip/synth.py:328-395 | a closed system fills only its own side, with at least one safety formula per state, and is rejected exactly when its actions are |
| Synth.CheckSolverOptions | tulip/synth.py:948-962 | `_check_solver_options`: missing action variables become the defaults, and `jtlv` turns integer states and actions into boolean ones; stated by `CheckedOptions` |
| Synth.DefaultActionVars | tulip/synth.py:964-965 | the two default action variables differ |
| Synth.CheckedOptions | tulip/synth.py:948-962 | after the check, conversion never fails for want of action variables; under JTLV the states are boolean and each of the system's action lists is rejected only for an unknown `actions_must`; other solvers keep the choices |
| LtlAst.NewUnTempOp | tulip/spec/ast.py:331-334 | the token is normalised through `TEMPORAL_OP_MAP`; an unknown token is a `KeyError` |
| LtlAst.NewBiTempOp | tulip/spec/ast.py:497-500 | the same normalisation for binary temporal operators |
| LtlAst.TemporalNormalisation | tulip/spec/ast.py:47-52 | `[]`→G, `<>`→F, `next` and `'`→X, `V`→R; normalised tokens are fixed points except `False`/`True` |
| LtlAst.NewComparator | tulip/spec/ast.py:536-542 | `==` is stored as `=`, other tokens as given |
| LtlAst.NewBool | tulip/spec/ast.py:248-255 | true exactly when the token upper-cases to `TRUE` |
| LtlAst.Size | tulip/spec/ast.py:187-188 | at least 1, and larger than each child's size |
| LtlAst.Nodes | tulip/spec/ast.py:162-166 | the tree's nodes in pre-order, starting with the root |
| LtlAst.SizeCountsNodes | tulip/spec/ast.py:320-321 | `len` counts the nodes: leaves 1, unary `1 + len(x)`, binary `1 + len(l) + len(r)` |
| LtlAst.Vars | tulip/spec/ast.py:138-144 | `get_vars` yields only variable nodes |
| LtlAst.VarsAreVarNodes | tulip/spec/ast.py:138-144 | `get_vars` yields exactly the variable nodes of the tree |
| LtlAst.Map | tulip/spec/ast.py:316-318 | `map` rebuilds the children bottom-up and applies `f` to each rebuilt node; stated by `MapIdentity` and `MapKeepsShape` |
| LtlAst.MapIdentity | tulip/spec/ast.py:316-318 | mapping the identity rebuilds the same tree |
| LtlAst.MapKeepsShape | tulip/spec/ast.py:422-424 | a map that only rewrites leaves keeps the size and the operators |
| LtlAst.Repr | tulip/spec/ast.py:386-387 | `str` of a node: the leaf's text, `( op x )` or `( l op r )`; stated by `ReprBalanced` |
| LtlAst.Render | tulip/spec/ast.py:147-182 | `to_gr1c`, `to_jtlv`, `to_smv`, `to_promela` and `to_python` through `flatten`: the text, or the exception the dialect's table raises; stated by `RenderOkIff`, `RenderErrorKind`, `LeafRendering` and `RenderBalanced` |
| LtlAst.RenderOkIff | tulip/spec/ast.py:340-373 | outside Python, a tree renders exactly when its dialect's tables know every operator in it |
| LtlAst.PythonRenders | tulip/spec/ast.py:551-557 | Python rendering fails only inside a comparator, whose children are written as Promela |
| LtlAst.RenderErrorKind | tulip/spec/ast.py:372-373 | SMV failures are raw `KeyError`s, other dialects fail with `LTLException` |
| LtlAst.Gr1cRejectsUntilRelease | tulip/spec/ast.py:516-523 | a binary U or R node fails in gr1c with this node's `LTLException`, whatever its children |
| LtlAst.JtlvRejectsRelease | tulip/spec/ast.py:363-370 | R, unary or binary, fails in JTLV |
| LtlAst.PromelaRejectsNext | tulip/spec/ast.py:340-347 | X fails in Promela |
| LtlAst.Gr1cRejectsBinaryTemporal | tulip/spec/ast.py:497-523 | every binary temporal node built from `U`, `V` or `R` fails in gr1c |
| LtlAst.Gr1cNext | tulip/spec/ast.py:349-351 | gr1c writes X as `(  s )` with its operand rendered primed, whatever the surrounding mode |
| LtlAst.PrimedOnlyTouchesNames | tulip/spec/ast.py:190-240 | without variables or constants, a tree reads the same primed and unprimed in gr1c |
| LtlAst.LeafRendering | tulip/spec/ast.py:190-282 | numbers ignore `primed`; variables and constants gain `'` when primed and parentheses in JTLV; booleans are `TRUE`/`FALSE` in JTLV and `True`/`False` elsewhere |
| LtlAst.ComparatorEquality | tulip/spec/ast.py:536-557 | `==` and `=` build the same node, written `==` in Promela and Python and `=` elsewhere; Python writes a comparator as Promela does |
| LtlAst.PythonQuirks | tulip/spec/ast.py:323-329 | `Not` in Python is the bare `not`; implication and equivalence write their children with `str` and always succeed |
| LtlAst.RenderBalanced | tulip/spec/ast.py:307-314 | with parenthesis-free names and tokens every rendering is balanced, in every dialect |
| LtlAst.UnaryShape | tulip/spec/ast.py:307-314 | helper for `RenderWrapped`: a unary node is `( op o )` around its operand's rendering, primed under gr1c's X; Python's `Not` is the bare `not` |
| LtlAst.BinaryShape | tulip/spec/ast.py:408-420 | helper for `RenderWrapped`: a binary node is `( l op r )` around its children's renderings, and renders exactly when its token and both children do; Python writes implication as `( (not (l)) or r)` and equivalence as `( l and r ) or not ( l or r )`, with `str` of the children |
| LtlAst.RenderWrapped | tulip/spec/ast.py:307-420 | every operator node of a clean tree renders as one parenthesised group `( ... )` whose first parenthesis closes last, except Python's `not`, implication and equivalence |
| LtlAst.ReprBalanced | tulip/spec/ast.py:294-295 | `str` of a tree is balanced too |
| LtlAst.UnaryBalanced | tulip/spec/ast.py:307-314 | `( op o )` is balanced |
| LtlAst.BinaryBalanced | tulip/spec/ast.py:408-420 | `( l op r )` is balanced |
| LtlAst.ImpBalanced | tulip/spec/ast.py:465-479 | Python's implication text is balanced |
| LtlAst.BiImpBalanced | tulip/spec/ast.py:481-495 | Python's equivalence text is balanced |

## Left out

- Warnings and logging (`warn`, `logger`) are not modelled. They change no result.
- `synthesize` and `is_realizable` are not part of this model. They run the external gr1c and JTLV solvers.
- `spec_plus_sys` is not part of this model. It relies on `GRSpec.__or__` and `pretty`, which are not shown.
- `import_PropPreservingPartition` is not part of this model. It relies on `sym_to_prop` and `PropPreservingPartition`, which are not shown.
- `ast_to_labeled_graph`, `dump_dot` and `write_pdf` are left out. They are graph and Graphviz export.
- The networkx graph that holds the syntax tree is left out, along with node identity.
  - A node owns its children.
  - `get_vars` returns variable nodes as values, so two variables with the same name are one element.
  - `get_vars` ranges over one tree, not over every tree stored in a shared graph.
- `FULL_OPERATOR_NAMES` is not modelled. No function of the syntax tree uses it; it serves the parser.
- `Node.map` and `Unary.new`/`Binary.new` call the node constructors with the wrong number of arguments. `LtlAst.Map` models the evident intent: rebuild the children, then apply `f`.
- `Num(t)` parses its token with `int(t)`. The model takes the integer directly.
- `LtlAst.NewBool`: `str.upper` is modelled for ASCII only.
- `Bool` rendering's error branch is not modelled. That branch refers to a missing attribute, and it cannot be reached, because both tables know `True` and `False`.
- `LtlAst.Render`, `LtlAst.Repr`, `LtlAst.SizeCountsNodes`: as written, `Unary.operand` and `Binary._child` return a child's graph key `id(x)`, a Python int, not the node. On every operator node `flattener(child)` therefore raises `AttributeError`, and the fallback writes `str(id(x))`. `__repr__` prints the ids too, and `len` raises `TypeError` through `len(int)`. The model reads each child as the node stored under its key, then renders, prints and counts that node.
- The `AttributeError` fallbacks in `flatten` are not modelled. Under that reading every child is a node with every `to_*` method.
- A node used as both children of one binary node is not modelled. The source's graph keeps one edge for the pair, and the second `add_edge` overwrites its `pos` to `'right'`. Even under the reading above, `op_l` is then `None`: the source writes `None` for the left side, and `len` raises `TypeError`. The model's `Binary(And, x, x)` renders both sides and has size `1 + 2 * Size(x)`.
- Python dict and set iteration order is fixed by sequences:
  - the dictionary order of ids is the order of the state and action lists;
  - `env_action_ids.values()` and `sys_action_ids.values()` follow the declared action lists (the `envOrder` and `sysOrder` parameters);
  - the set `_disj` in `env_trans_from_sys_ts` follows the order of first appearance.
- Python's `is` comparisons (`action is ''`, `option is 'jtlv'`, `self.operator is '=='`) are modelled as equality.
- Actions are Python ints or strings. An int action is written as its decimal text.
- `Encoding.BoolActionEncoding`, `Encoding.ActionNames`, `Encoding.SpecPart.AddBoolActions`: an int action and a string action with the same text, such as `1` and `'1'`, are two keys in the source but one name in the model. Under `'mutex'` the source declares two variables and writes `(!(1) || (!(1))) && (!(1) || (!(1)))`. The model declares one variable and writes `(!(1) || ()) && (!(1) || ())`.
- States are names (strings). The source's boolean state encoding accepts any hashable state, using it as a dictionary key and writing it with `str()`; states that are not strings are not modelled. Under the integer encoding such a state makes `setloc` raise `TypeError`; that error is not modelled either.
- When `create_actions` mixes int and str names under the integer encoding, the model returns the `TypeError` that the source's string concatenation raises.
- The type assertions of the drivers (`isinstance(fts, FiniteTransitionSystem)`) are replaced by the `TransitionSystem` datatype.
- The guarantees of the `transys` package are taken as the precondition `TransSys.WellFormed`: distinct states, initial states among the states, transition ends among the states, and tags from the declared alphabets.
- The progress formulas (`env_prog`, `sys_prog`) are not fields of `Synth.GRSpec`. No function modelled here fills them.
- `Combinators.SprintApsLiterals`: states how many literals there are and that they join the label's propositions and then the negations of the others. It does not state the multiset of literals.
- `Synth.EnvOpenSpecSides`, `Synth.ClosedSides`: state a lower bound on the number of safety formulas, not the exact count, which depends on the action constraint formulas.
- `Generators.EnvTransFromSysTs`: reproduces the source's `X()` when no transition of a live state carries an environment action.
- `Encoding.SpecPart`, `Synth.FillSys`, `Synth.FillEnv`, `Synth.FillEnvFromSys`, `Synth.FinishSysOpen`, `Synth.FinishEnvOpen`: the caller's objects are modelled as `SpecPart` objects. Aliasing among the caller's own lists is not modelled; the drivers always pass distinct lists.
