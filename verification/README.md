# A verified model of the HATP/EHDA co-planning engine

This project models the core of a planner for a human and a robot who share a task. Each
agent has a hierarchical task network (HTN): operators for primitive tasks, methods that
decompose abstract tasks, and an agenda of tasks still to do. The robot knows the true,
designated world. The human may be unsure of it, so every node also carries the worlds the
human still considers possible.

The planner builds a tree of action pairs, one action per agent. On the human's turn every
applied decomposition of the human's agenda becomes a candidate. On the robot's turn the
robot's decompositions become candidates, and the human's possible worlds are updated
according to what the human can see:

- when the agents are apart, the human cannot rule out anything the robot might have done;
- when they are together, the human keeps only the worlds in which the robot could have
  done what it was seen doing.

After each step, situation assessment drops the worlds the human can tell apart from the
designated one, and duplicates are removed. An AND/OR search labels the tree. Human turns
are AND nodes and robot turns are OR nodes. Solved marks are propagated upwards, and a
policy is extracted. Finally, the final branches are measured, ranked lexicographically on
a list of criteria, and the best rank below each step is found by backward induction.

The model is generic over the world state `S`. A domain supplies the operators, methods,
copresence test, state equivalence and assessment rule as values (`Htn.Domain`). The
"prepare dinner" scenario is modelled concretely (`Dinner`), and the engine is instantiated
on it. Python exceptions of the engine are modelled as `Htn.EngineError` values returned
in a `Result`.

| file | module | what |
|---|---|---|
| wrappers.dfy | Wrappers | `Option` and `Result` |
| tasks.dfy | Tasks | agents, tasks, actions, `are_similar`, `check_list` |
| fluents.dfy | Fluents | fluent states, `compare_data`, `sort_dict_recursive`, `compare_states` |
| htn.dfy | Htn | operators, methods, per-agent tables, joint world, domain, errors |
| apply.dfy | Apply | `Operator.apply` over the designated and the possible worlds |
| refine.dfy | Refine | `refine_agenda`, `refine_method`, `get_subtask_list` |
| applied.dfy | Applied | `get_applied_refinement` |
| worlds.dfy | Worlds | situation assessment, `are_worlds_logically_different`, de-duplication |
| tree.dfy | ActionTree | pairs, human options, steps, `arrange_pairs_in_HumanOption`, `identify_CRA` |
| explore.dfy | Explore | `exploration_step_tt` and its two robot-turn helpers |
| andor.dfy | AndOr | `fun_AND_OR_search_new`, `regress_new_status_backward`, `extract_complete_andor_policy` |
| metrics.dfy | Metrics | `get_final_leaves`, `compute_metrics` |
| ranking.dfy | Ranking | `compare_metrics`, `sorting_branches`, `compute_best_rank_from_step_*` |
| dinner.dfy | Dinner | the "prepare dinner" scenario and its plan |
| findings.dfy | Findings | the scenario that exhibits the finding below |

Loops the source runs until a condition holds take a `fuel` or `steps` bound. These are the
refinement loop and the search loop. Running out of the bound is the `OutOfFuel` error.

## Model

| member | source | states |
|---|---|---|
| Tasks.CastToAction | domains_and_results/CommonModule.py:240-246 | the action keeps the primitive task's name, parameters and agent, and carries exactly the cost and shared resource it was given |
| Tasks.CreatePassive | domains_and_results/CommonModule.py:264-268 | a passive action (recognised as passive) of the given kind, owned by the agent, costing that agent's waiting cost (2 for the human, 0 for the robot) with no shared resource |
| Tasks.CreatePassiveSignal | domains_and_results/CommonModule.py:270-271 | a signal wait is a GET_SIGNAL action of the given kind that does not count as passive |
| Tasks.AreSimilarProperties | domains_and_results/CommonModule.py:273-281 | action similarity is reflexive and symmetric, holds between any two passive actions whatever their kinds, and for a non-passive action means agreement on everything except the shared resource |
| Tasks.AreSimilar | domains_and_results/CommonModule.py:273-281 | two actions are similar exactly when both are passive or they agree on name, parameters, cost and agent, whatever shared resource they use |
| Tasks.CheckList | domains_and_results/ConcurrentModule.py:2463-2469 | nothing is found exactly when no element meets the condition; otherwise the result is the first element that does |
| Tasks.ContainsIff | domains_and_results/CommonModule.py:224 | the `in` substring test used to recognise communication operators holds exactly when the marker occurs at some position of the name |
| Tasks.ShorterNotContains | domains_and_results/CommonModule.py:224 | a name shorter than the marker never passes the `in` test |
| Tasks.NoRoomNotContains | domains_and_results/CommonModule.py:224 | a name passes the `in` test only if the marker's first letter occurs early enough in it for the whole marker to fit |
| Htn.World.WithAgenda | domains_and_results/CommonModule.py:333-347 | replacing one agent's agenda leaves the other agent's agenda and the shared state unchanged |
| Htn.MethodsNamed | domains_and_results/CommonModule.py:543-550 | only methods declared for the given task name are kept, never more than the list holds |
| Htn.DeclareMethodsSpec | domains_and_results/CommonModule.py:543-550 | after `declare_methods` a task name is known exactly when it was known before or is declared in the list, and its methods are the earlier ones followed by the declared ones for that name in list order |
| Htn.DeclaredMethodFrom | domains_and_results/CommonModule.py:543-550 | every method in a task's list after `declare_methods` was there before at the same position or is one of the declared methods |
| Htn.DeclareMethods | domains_and_results/CommonModule.py:543-550 | declaring methods never forgets a task name, and a table that files every method under the task it refines keeps doing so |
| Htn.MethodsNamedFrom | domains_and_results/CommonModule.py:543-550 | every method selected for a task name comes from the declared list |
| Htn.DeclareOperatorsSpec | domains_and_results/CommonModule.py:552-556 | after `declare_operators` a name is known exactly when it was known before or is declared; a declared name maps to the last operator of that name and any other name keeps its old operator |
| Htn.DeclaredOperatorFrom | domains_and_results/CommonModule.py:552-556 | every operator in the table after `declare_operators` was there before or is one of the declared operators |
| Htn.DeclareOperators | domains_and_results/CommonModule.py:552-556 | declaring operators never forgets a name, the last operator declared is stored under its own name, and a table that files every operator under its own name keeps doing so |
| Htn.MakeTask | domains_and_results/CommonModule.py:565-571 | an entry becomes a task exactly when the agent has methods or an operator for its name; it is abstract exactly when the agent has methods for it, keeps the name and parameters, belongs to the agent, and an unknown name is reported as such |
| Htn.MakeTasks | domains_and_results/CommonModule.py:565-571 | a list of entries succeeds exactly when every entry does, giving one task per entry in order; a failure is an unknown-task error |
| Htn.AddTasks | domains_and_results/CommonModule.py:561-571 | `add_tasks` succeeds exactly when every name is known to the agent, keeps the old agenda as a prefix and appends one task per entry with its name, parameters, owner and abstract flag |
| Fluents.StrLeTotal | domains_and_results/CommonModule.py:731 | the code-point ordering `sorted` uses on names relates any two strings |
| Fluents.StrLeAntisymmetric | domains_and_results/CommonModule.py:731 | two strings each below the other are equal, so sorting has one answer |
| Fluents.StrLeTransitive | domains_and_results/CommonModule.py:731 | the string ordering is transitive |
| Fluents.Insert | domains_and_results/CommonModule.py:735 | inserting a name into a sorted list keeps it sorted and adds exactly that name |
| Fluents.SortStrings | domains_and_results/CommonModule.py:735 | `sorted` on a list of names gives a sorted permutation of it |
| Fluents.HeadIsLeast | domains_and_results/CommonModule.py:735 | the first element of a sorted list is below every element of it |
| Fluents.SortedUnique | domains_and_results/CommonModule.py:735 | two sorted lists holding the same names the same number of times are the same list |
| Fluents.SortStringsEqualIff | domains_and_results/CommonModule.py:735 | two lists sort to the same list exactly when they are permutations of each other |
| Fluents.NormalEntryEqualIff | domains_and_results/CommonModule.py:728-738 | two values have the same `sort_dict_recursive` normal form exactly when they are equivalent: dictionaries key by key, lists as multisets, anything else by equality |
| Fluents.SortDictEqualIff | domains_and_results/CommonModule.py:728-738 | two dictionaries normalise to the same dictionary exactly when they have the same keys and equivalent values under each |
| Fluents.SortDictRecursive | domains_and_results/CommonModule.py:728-738 | the normal form keeps the keys, turns every list into a sorted list of the same names, keeps the keys of nested dictionaries and leaves any other value alone |
| Fluents.CompareData | domains_and_results/CommonModule.py:701-726 | `compare_data` never accepts two dictionaries whose key sets differ |
| Fluents.CompareDataIff | domains_and_results/CommonModule.py:701-726 | `compare_data` holds exactly when both dictionaries have the same keys and under each key there are two equivalent dictionaries or two equal values |
| Fluents.NestedEquivReflexive | domains_and_results/CommonModule.py:728-738 | every value is equivalent to itself under the normal form |
| Fluents.NestedEquivSymmetric | domains_and_results/CommonModule.py:728-738 | the equivalence the normal form decides is symmetric |
| Fluents.CompareDataReflexive | domains_and_results/CommonModule.py:701-726 | every dictionary matches itself |
| Fluents.CompareDataSymmetric | domains_and_results/CommonModule.py:701-726 | the comparison does not depend on argument order |
| Fluents.ListOrderMattersAtTop | domains_and_results/CommonModule.py:714-720 | two lists stored directly under a compared key match exactly when they are equal, order included |
| Fluents.ListOrderIgnoredWhenNested | domains_and_results/CommonModule.py:714-720 | two lists one dictionary deeper match exactly when they hold the same names the same number of times, in any order |
| Fluents.CompareStatesProperties | domains_and_results/CommonModule.py:683-699 | on two states of one schema the comparison can be run both ways, a state matches itself, and the verdict does not depend on argument order |
| Fluents.CompareStates | domains_and_results/CommonModule.py:683-699 | two states compare equal only if every compared fluent holds dictionaries with the same keys in both |
| Fluents.DifferentKeysDiffer | domains_and_results/CommonModule.py:683-699 | a dynamic fluent whose dictionaries have different keys makes the default comparison fail |
| Worlds.Assess | domains_and_results/ConcurrentModule.py:1259-1269 | situation assessment keeps, in order, exactly the possible worlds the domain's assessment rule accepts against the designated state, and no others |
| Worlds.AgendaKeys | domains_and_results/ConcurrentModule.py:1283-1294 | the agenda comparison sees, for each task in order, its abstractness, name and parameters and nothing else |
| Worlds.ParamsDifferFromIff | domains_and_results/ConcurrentModule.py:1292-1294 | the parameter loop finds a difference from position `j` on exactly when the two parameter lists differ from there |
| Worlds.AgendasDifferFromIff | domains_and_results/ConcurrentModule.py:1283-1294 | the task loop finds a difference from position `i` on exactly when the tasks' abstractness, name or parameters differ somewhere from there |
| Worlds.AgendasDifferIff | domains_and_results/ConcurrentModule.py:1279-1294 | two agendas differ for `are_worlds_logically_different` exactly when their lengths differ or some task differs in abstractness, name or parameters; the owning agent is ignored |
| Worlds.WorldsDifferentIff | domains_and_results/ConcurrentModule.py:1272-1317 | two worlds are logically different exactly when the robot's agendas differ, or the agents are together and the human's agendas differ, or the domain finds the states different |
| Worlds.DedupFrom | domains_and_results/ConcurrentModule.py:1383-1395 | the loop only adds worlds, never more than it is given, and keeps the worlds already kept as a prefix |
| Worlds.Dedup | domains_and_results/ConcurrentModule.py:1379-1395 | de-duplication never yields more worlds than it is given |
| Worlds.DedupTurn | domains_and_results/ConcurrentModule.py:1385-1395 | one turn of the de-duplication loop keeps its invariant |
| Worlds.KeptSeenTurn | domains_and_results/ConcurrentModule.py:1385-1395 | a world the turn keeps was seen and differs from the designated world |
| Worlds.KeptDistinctTurn | domains_and_results/ConcurrentModule.py:1388-1395 | a newly kept world differs from every world kept before it |
| Worlds.SeenCoveredTurn | domains_and_results/ConcurrentModule.py:1385-1395 | a seen world that differs from the designated world is kept or matches a kept world |
| Worlds.DedupFromSpec | domains_and_results/ConcurrentModule.py:1383-1395 | the loop invariant holds over any remaining input |
| Worlds.DedupSpec | domains_and_results/ConcurrentModule.py:1379-1395 | the kept worlds come from the input, differ from the designated world and from each other, and every input world that differs from the designated world is kept or matches one that is |
| Worlds.MaxWorlds | domains_and_results/ConcurrentModule.py:1402-1404 | the running maximum is at least both the previous maximum and the new count, and equals one of them |
| Apply.ReplayEffects | domains_and_results/CommonModule.py:210-212 | every possible world gets the action's effects on its own state and keeps its agendas, one result per world in order |
| Apply.KeepAgreeing | domains_and_results/CommonModule.py:218-226 | the pruning after a communication only drops worlds |
| Apply.KeepAgreeingSpec | domains_and_results/CommonModule.py:218-226 | a world survives a communication exactly when it was possible and shows the communicated value the designated world shows |
| Apply.ApplyOperator | domains_and_results/CommonModule.py:147-233 | `Operator.apply` reports done exactly when the done test passes (for the human: in the designated state and every possible world; for the robot: in the designated state), reports not applicable exactly when it is not done and the precondition fails in the same sense, leaves everything unchanged in both cases, and otherwise charges the cost of the state before the effects, applies the effects, reads the shared resource after them and never adds worlds; it fails exactly when a communication operator without a value function has a possible world to prune, and only with `MissingGetEffect` |
| Apply.ApplyPossibleWorlds | domains_and_results/CommonModule.py:208-226 | after an applied action the possible worlds are the replayed ones (human) or the untouched ones (robot); after a communication they are exactly the replayed worlds that observe the designated world's value, and a robot action never creates a world |
| Apply.NotDoneNeverReportedDone | domains_and_results/CommonModule.py:182-195 | a task that is not done in the designated state is never reported done, whoever acts |
| Apply.BareOperator | domains_and_results/CommonModule.py:118-233 | an operator declared with its name alone applies at cost 1 without changing the state or using a resource, and fails only for a communication without a value function that has a possible world to prune |
| Applied.Tail | domains_and_results/ConcurrentModule.py:1847 | Python's `subtasks[1:]`: the list without its head, and empty on an empty list |
| Applied.EndAgendaAsWritten | domains_and_results/ConcurrentModule.py:1848 | the agenda the source writes holds everything the subtasks and the new agenda held except the first subtask |
| Applied.EndAgenda | domains_and_results/ConcurrentModule.py:1848 | the corrected end agenda is the source's one except after a decomposition without an applicable method, where no task is lost and the stuck task comes first, then the remaining subtasks in the method's order, then the rest of the agenda |
| Applied.WithHumanAgenda | domains_and_results/ConcurrentModule.py:1851-1853 | every possible world gets the human agenda of the decomposition just applied, and nothing else about the worlds changes |
| Applied.Finish | domains_and_results/ConcurrentModule.py:1845-1853 | the applied decomposition records its action, its end world carries the new state and the acting agent's new agenda (the corrected end agenda, see "Left out"), and after a human action every possible world shares that agenda while a robot action leaves them |
| Applied.ApplyPrimitive | domains_and_results/ConcurrentModule.py:1821-1843 | applying an `OK` decomposition's primitive task either makes the agent wait with the task put back in front of its agenda, or performs exactly that task with the rest of the subtasks and the new agenda left; the other agent's agenda is untouched; a robot's own action never creates a possible world |
| Applied.ApplyDecomposition | domains_and_results/ConcurrentModule.py:1810-1853 | without an applicable method the agent waits and, with the corrected end agenda, keeps the stuck task followed by every remaining subtask in the method's order and then the rest (the source as written drops the first subtask, see "Findings"); with an empty agenda it idles; an `OK` decomposition without an operator for its primitive task raises; the other agent's agenda is never touched |
| Applied.NoTaskLost | domains_and_results/ConcurrentModule.py:1810-1853 | with the corrected end agenda, a task leaves the acting agent's agenda only by being performed: otherwise the subtasks and new agenda are exactly the agenda afterwards |
| Applied.AgreesWithSourceOutsideStuck | domains_and_results/ConcurrentModule.py:1810-1853 | for every decomposition that has an applicable method or an empty agenda, the agenda afterwards is the one the source writes, with the primitive task put back in front when the agent waits |
| Applied.AsWrittenDropsFirstSubtask | domains_and_results/ConcurrentModule.py:1812-1848 | without an applicable method the source's agenda is the model's minus the first remaining subtask, and loses that task altogether when it occurs nowhere else |
| Applied.ApplyAll | domains_and_results/ConcurrentModule.py:1810-1853 | the loop yields one applied decomposition per decomposition, in order, each with the same subtasks and primitive task and the other agent's agenda untouched |
| Applied.ApplyAllStep | domains_and_results/ConcurrentModule.py:1810-1853 | the loop is the first decomposition applied to the current possible worlds followed by the rest applied to the worlds it leaves |
| Applied.ApplyAllRobotWorlds | domains_and_results/CommonModule.py:208-226 | a robot performing only its own tasks can only remove the human's possible worlds |
| Applied.ApplyAllHumanWorlds | domains_and_results/ConcurrentModule.py:1851-1853 | after a human turn every possible world carries the human agenda of the last applied decomposition |
| Applied.LastCommunication | domains_and_results/ConcurrentModule.py:1805-1809 | the saved decomposition is the last one whose primitive task communicates, and there is none exactly when no decomposition communicates |
| Applied.SignalDecomposition | domains_and_results/ConcurrentModule.py:1864-1869 | the extra decomposition renames the primitive task to `passive_wait_for_signal`, gives the human a signal wait, keeps the world as it was before anything was applied and gives the agent the corrected end agenda (see "Left out") |
| Applied.SignalAgendaAgainstSource | domains_and_results/ConcurrentModule.py:1863-1869 | the signalling decomposition's agenda is the one the source writes except after a decomposition without applicable method, where the source's is the model's minus the first subtask and loses that task altogether when it occurs nowhere else |
| Applied.ApplyRefinement | domains_and_results/ConcurrentModule.py:1805-1882 | applying a non-empty refinement yields at least one decomposition, never touches the other agent's agenda, and can only fail on a communication operator without a value function that has a possible world to prune |
| Applied.ApplyRefinementShape | domains_and_results/ConcurrentModule.py:1805-1882 | there is one applied decomposition per decomposition, plus one exactly when some decomposition communicates; a robot performing its own tasks only removes possible worlds; after a human action every possible world carries the last decomposition's human agenda |
| Applied.GetAppliedRefinement | domains_and_results/ConcurrentModule.py:1780-1882 | the applied refinement is never empty, never touches the other agent's agenda, and never reaches the raise for a missing operator nor the tuple-indexing of a `DONE` outcome |
| Applied.AppliedRefinementShape | domains_and_results/ConcurrentModule.py:1780-1882 | the applied refinement of an agent's agenda has the shape above; a robot whose agenda holds only its own tasks only removes possible worlds |
| Refine.CommunicateTask | domains_and_results/ConcurrentModule.py:2112 | the inserted task is the abstract `Communicate` task without parameters, owned by the refined task's agent |
| Refine.SubtaskList | domains_and_results/ConcurrentModule.py:1994-2018 | `get_subtask_list` succeeds exactly when every entry of every decomposition is known to the refined task's agent, giving one alternative per decomposition that shares the given agenda and holds one task per entry, owned by that agent and abstract exactly when it has methods for the name; a failure is an unknown task |
| Refine.RefineMethods | domains_and_results/ConcurrentModule.py:2030-2150 | every alternative the method loop offers has the shape of `refine_method`: an unset agenda only on the empty decomposition of a done method, an agenda of its own headed by the refined task when one is inserted, and subtasks of the refined task's agent; the robot never gets a communication agenda |
| Refine.NoMethodApplies | domains_and_results/ConcurrentModule.py:2030-2150 | a task none of whose methods is done or applicable has no alternative |
| Refine.TailOfRefineMethods | domains_and_results/ConcurrentModule.py:2030-2150 | the alternatives of the later methods end the list, and once a communication is inserted the later methods see the refined task's fresh agenda |
| Refine.DoneMethodGivesEmpty | domains_and_results/ConcurrentModule.py:2033-2034 | a done method contributes the empty decomposition, with no agenda |
| Refine.CommunicatesSuffix | domains_and_results/ConcurrentModule.py:2030-2150 | a communication offered by the later methods is offered by the whole loop |
| Refine.CommunicationInserted | domains_and_results/ConcurrentModule.py:2052-2119 | a human method applicable in the designated world but not in some possible world yields a `Communicate` task whose agenda starts with the refined task |
| Refine.CommunicationLater | domains_and_results/ConcurrentModule.py:2052-2119 | the same holds when that method is not the first one |
| Refine.CommunicationAtHead | domains_and_results/ConcurrentModule.py:2100-2119 | when the first method needs communication, the first alternative is the `Communicate` task with the refined task put in front of the current agenda |
| Refine.RefineMethod | domains_and_results/ConcurrentModule.py:2021-2029 | `refine_method` raises exactly when the agent has no methods for the task; otherwise every alternative has the method loop's shape, and the only other error is an unknown task |
| Refine.NewDraft | domains_and_results/CommonModule.py:402-407 | a new decomposition shares the local agenda, has status `OK`, and its primitive task is its first subtask if it has one |
| Refine.Finalize | domains_and_results/ConcurrentModule.py:1978-1979 | at the end of a decomposition's refinement its first subtask, if any, becomes its primitive task; nothing else changes |
| Refine.Candidates | domains_and_results/ConcurrentModule.py:1922-1932 | a primitive task with an operator is its own single alternative, a task that is neither that nor abstract with methods raises, and otherwise the method alternatives keep the lead task's owner and shape |
| Refine.Extras | domains_and_results/ConcurrentModule.py:1967-1970 | every alternative after the first becomes a new decomposition of its subtasks followed by the rest of the current one, sharing the local agenda |
| Refine.Expand | domains_and_results/ConcurrentModule.py:1961-1970 | the current decomposition takes the first alternative's subtasks followed by the rest of its own, the others are appended, finished decompositions are untouched and the loop invariant holds |
| Refine.ExpandOwned | domains_and_results/ConcurrentModule.py:1961-1970 | expanding keeps every task the agent's own when the alternatives' tasks are |
| Refine.Proceed | domains_and_results/ConcurrentModule.py:1943-1960 | a lead needing no refinement moves on to the next subtask, or pops the next task of the local agenda, or ends the decomposition as `AGENDA_EMPTY`; the local agenda only loses tasks from its front and the invariant holds |
| Refine.Stuck | domains_and_results/ConcurrentModule.py:1934-1942 | with no applicable method the decomposition ends as `NO_APPLICABLE_METHOD` with the rest of its subtasks and the stuck task put back in front of its agenda |
| Refine.ExpandOwnedIfOwned | domains_and_results/ConcurrentModule.py:1961-1970 | the ownership of tasks survives an expansion turn |
| Refine.RefineTurn | domains_and_results/ConcurrentModule.py:1914-1970 | one turn of the inner loop keeps the invariant, never changes finished decompositions, only pops from the local agenda, fails on an empty decomposition and otherwise only with a refinement error |
| Refine.RefineLoop | domains_and_results/ConcurrentModule.py:1910-1980 | the outer loop ends with every decomposition finished, having only popped from the local agenda and only added decompositions; its errors are refinement errors |
| Refine.ResolveAll | domains_and_results/ConcurrentModule.py:1891-1982 | each returned decomposition reads its new agenda from its own snapshot or from the final local agenda |
| Refine.RefineAgenda | domains_and_results/ConcurrentModule.py:1884-1982 | `refine_agenda` yields at least one decomposition; each `OK` one starts with a primitive task of the agent that is not done and is its primitive task, each `NO_APPLICABLE_METHOD` one has an abstract task heading its agenda, each `AGENDA_EMPTY` one has no subtasks; an agenda of the agent's own tasks gives primitive tasks of the agent |
| Refine.EmptyAgendaRefinement | domains_and_results/ConcurrentModule.py:1897-1899 | an empty agenda refines into the single `AGENDA_EMPTY` decomposition |
| Refine.PrimitiveHeadRefinement | domains_and_results/ConcurrentModule.py:1900-1982 | an agenda headed by a primitive task that is not done refines into that task alone, with the rest of the agenda as the new agenda |
| Refine.UnknownHeadRefinement | domains_and_results/ConcurrentModule.py:1928-1932 | an agenda headed by a task the agent can neither decompose nor perform raises |
| ActionTree.Flip | domains_and_results/ConcurrentModule.py:212-216 | a pair below an AND pair is an OR pair and the other way round |
| ActionTree.SameLinksWf | domains_and_results/ConcurrentModule.py:31-98 | changing only the search marks or possible worlds of pairs keeps the tree well formed and `is_final` unchanged on every pair |
| ActionTree.InitTree | domains_and_results/ConcurrentModule.py:432-460 | the initial tree is one step at depth 0 holding one `BEGIN` pair in the starting world, with no possible world, not done, not final, an AND node exactly when the human starts |
| ActionTree.FlattenAppend | domains_and_results/ConcurrentModule.py:261-265 | the pairs of a step listed option by option (`get_pairs`) split along any split of its options |
| ActionTree.FindGroup | domains_and_results/ConcurrentModule.py:1640-1645 | a human action's option is found exactly when some option holds it |
| ActionTree.Insert | domains_and_results/ConcurrentModule.py:1640-1645 | adding a pair to the dictionary of options keeps every option non-empty, single-action and distinct from the others |
| ActionTree.ArrangeFrom | domains_and_results/ConcurrentModule.py:1640-1645 | the grouping loop keeps the options well grouped |
| ActionTree.Arrange | domains_and_results/ConcurrentModule.py:1637-1652 | `arrange_pairs_in_HumanOption` gives non-empty options, each holding pairs of one human action, no two options sharing one |
| ActionTree.InsertKeeps | domains_and_results/ConcurrentModule.py:1640-1645 | adding a pair to the options adds exactly that pair |
| ActionTree.ArrangeFromKeeps | domains_and_results/ConcurrentModule.py:1640-1645 | the grouping loop adds exactly the remaining pairs |
| ActionTree.ArrangeIsPermutation | domains_and_results/ConcurrentModule.py:1637-1652 | the human options hold exactly the candidate pairs, each once |
| ActionTree.Singletons | domains_and_results/ConcurrentModule.py:1648-1650 | one option per pair, in order |
| ActionTree.InsertNew | domains_and_results/ConcurrentModule.py:1642-1643 | a pair whose human action no option holds opens a new option after the others |
| ActionTree.SingletonsCons | domains_and_results/ConcurrentModule.py:1648-1650 | one-pair options of a list are the first pair's option followed by those of the rest |
| ActionTree.SingletonsAfter | domains_and_results/ConcurrentModule.py:1648-1650 | appending one-pair options one at a time gives the one-pair options of the whole list |
| ActionTree.ArrangeFromDistinct | domains_and_results/ConcurrentModule.py:1640-1645 | pairs with pairwise different human actions each open their own option, in order |
| ActionTree.DistinctStep | domains_and_results/ConcurrentModule.py:1640-1645 | the hypotheses of the distinct-actions case survive one turn of the loop |
| ActionTree.FlattenSingletons | domains_and_results/ConcurrentModule.py:261-265 | listing one-pair options option by option gives back the pairs |
| ActionTree.ArrangeDistinct | domains_and_results/ConcurrentModule.py:1637-1652 | with a different human action per pair every pair is its own option and the options keep the pairs' order |
| ActionTree.ArrangeFromOneKey | domains_and_results/ConcurrentModule.py:1640-1645 | pairs sharing the human action of an existing option all join it, in order |
| ActionTree.ArrangeOneKey | domains_and_results/ConcurrentModule.py:1637-1652 | with one human action shared by all pairs they form a single option, in order |
| ActionTree.Range | domains_and_results/ConcurrentModule.py:210-211 | the indices of pairs appended to the arena are consecutive from the given base |
| ActionTree.Ranges | domains_and_results/ConcurrentModule.py:202-211 | the options of a new step list consecutive new pair indices, one per pair of the matching group, and together exactly the appended range |
| ActionTree.Place | domains_and_results/ConcurrentModule.py:210-216 | a placed pair keeps the candidate's actions and worlds, extends the selected pair, is not yet extended, has the opposite node type and no search mark |
| ActionTree.PlaceAll | domains_and_results/ConcurrentModule.py:210-216 | every candidate is placed the same way, in order |
| ActionTree.Extended | domains_and_results/ConcurrentModule.py:208-216 | adding a step appends the new pairs in option order, links them to the selected pair's `next` after its earlier extensions, and changes no other pair |
| ActionTree.NewStep | domains_and_results/ConcurrentModule.py:202-216 | the new step comes from the selected pair, its parent is that pair's step, its depth is one more, it has one option per group, and its options list exactly the appended pairs |
| ActionTree.AddStepOptions | domains_and_results/ConcurrentModule.py:202-216 | after a step is added the pairs every step lists exist and belong to it |
| ActionTree.AddStepPairStep | domains_and_results/ConcurrentModule.py:202-216 | after a step is added every pair belongs to an existing step |
| ActionTree.AddStepPrevious | domains_and_results/ConcurrentModule.py:210-214 | after a step is added every pair extends an earlier pair |
| ActionTree.AddStepNext | domains_and_results/ConcurrentModule.py:210-212 | after a step is added the pairs extending a pair are later pairs in later steps |
| ActionTree.AddStepSteps | domains_and_results/ConcurrentModule.py:330-335 | after a step is added every step's parent is an earlier step and its selected pair exists |
| ActionTree.AddStepWf | domains_and_results/ConcurrentModule.py:202-216 | adding a step keeps the tree well formed |
| ActionTree.AddStep | domains_and_results/ConcurrentModule.py:202-216 | `Step(parent=...)` with `init` adds exactly one step, keeps the tree well formed, keeps the earlier steps and places the pairs as `Extended` says |
| ActionTree.KeepSimilar | domains_and_results/ConcurrentModule.py:1658-1666 | filtering against one option never adds a candidate |
| ActionTree.CommonRobotActions | domains_and_results/ConcurrentModule.py:1654-1667 | the common robot actions never outnumber the first option's robot actions |
| ActionTree.CommonRobotActionsSpec | domains_and_results/ConcurrentModule.py:1654-1667 | an action is common exactly when it is one of the first option's robot actions and every other option has a robot action similar to it |
| ActionTree.KeepSimilarCommon | domains_and_results/ConcurrentModule.py:1656-1666 | filtering the common actions against one more option gives the common actions of all the options |
| ActionTree.KeepSimilarStep | domains_and_results/ConcurrentModule.py:1658-1666 | the filter over one more candidate adds that candidate exactly when the option has a similar action |
| ActionTree.DropDissimilar | domains_and_results/ConcurrentModule.py:1658-1666 | the index-and-pop loop removes exactly the candidates the option has no similar robot action for, keeping the others in order |
| ActionTree.IdentifyCRA | domains_and_results/ConcurrentModule.py:1654-1667 | `identify_CRA` returns the first option's robot actions similar to a robot action of every other option, in their order |
| ActionTree.CommonNone | domains_and_results/ConcurrentModule.py:1656 | with no other option every robot action of the first option is common |
| Explore.ActingAgent | domains_and_results/ConcurrentModule.py:1350-1358 | an acting agent exists exactly after `BEGIN` or when one side waits for its turn; after `BEGIN` it is the starting agent, otherwise the human exactly when the human waits for its turn; any other pair is the `Problem` error |
| Explore.Assessed | domains_and_results/ConcurrentModule.py:1361-1395 | assessing the selected pair only records whether the agents are together and narrows its possible worlds, never adding one |
| Explore.AssessedWorlds | domains_and_results/ConcurrentModule.py:1259-1270 | the worlds kept are earlier possible worlds the assessment rule accepts, each logically different from the designated world and from the other kept ones, and every accepted world that differs from the designated one is matched by a kept world |
| Explore.WithPass | domains_and_results/ConcurrentModule.py:1459-1464 | marking a candidate appends `PASS` to one side's action and leaves the other side, the end world and the possible worlds alone |
| Explore.FirstPassive | domains_and_results/ConcurrentModule.py:769-775 | finds the first candidate whose action on the chosen side is passive, or reports that none is |
| Explore.MarkPass | domains_and_results/ConcurrentModule.py:1459-1464 | only the first passive action of the chosen side gets `PASS`; the flag says whether a passive action exists; lengths, end worlds and the other side are unchanged |
| Explore.WithoutSignalWaits | domains_and_results/ConcurrentModule.py:1453-1456 | keeps exactly the human's applied decompositions that do not wait for a signal, in order |
| Explore.HumanOptions | domains_and_results/ConcurrentModule.py:1409-1470 | the human's candidates have distinct keys, the robot waiting for its turn in each, one per allowed decomposition plus at most one (one option per decomposition, see "Left out") |
| Explore.OwnOptions | domains_and_results/ConcurrentModule.py:1453-1470 | the same bounds for a given list of allowed decompositions (one option per decomposition, see "Left out") |
| Explore.HumanBase | domains_and_results/ConcurrentModule.py:1453-1456 | one candidate per decomposition, with its action, its end world and the worlds after assessment, keyed by its position (see "Left out") |
| Explore.HumanOptionsSpec | domains_and_results/ConcurrentModule.py:1409-1470 | each candidate performs its decomposition, possibly marked `PASS`; an extra `H:PASS` candidate in the current world exists exactly when the agents are together and none of the human's actions is passive |
| Explore.OwnOptionsSpec | domains_and_results/ConcurrentModule.py:1453-1470 | the same characterisation for a given list of allowed decompositions |
| Explore.OtherEnds | domains_and_results/ConcurrentModule.py:853-857 | the end world of every decomposition other than the chosen one is kept |
| Explore.OtherEndsOnly | domains_and_results/ConcurrentModule.py:853-857 | nothing but end worlds of the other decompositions is kept |
| Explore.UnseenHere | domains_and_results/ConcurrentModule.py:816-831 | from one possible world, the human must consider every outcome of the robot's decompositions there, and the world itself exactly when the robot need not wait |
| Explore.RefineEach | domains_and_results/ConcurrentModule.py:808-818 | the robot's refinement is computed once per possible world, in order, and any error stops the whole computation |
| Explore.UnseenWorlds | domains_and_results/ConcurrentModule.py:808-831 | the unseen worlds exist exactly when the robot's refinement succeeds in every possible world, and there are none without possible worlds |
| Explore.UnseenFromComplete | domains_and_results/ConcurrentModule.py:808-831 | every outcome in every possible world, and every world where the robot need not wait, is among the unseen worlds |
| Explore.UnseenFromSound | domains_and_results/ConcurrentModule.py:808-831 | every unseen world is a possible world or an outcome of the robot's refinement in one |
| Explore.UnseenWorldsComplete | domains_and_results/ConcurrentModule.py:796-831 | the same completeness stated for the robot's real refinement in each possible world |
| Explore.UnseenWorldsSound | domains_and_results/ConcurrentModule.py:796-831 | the same soundness stated for the robot's real refinement in each possible world |
| Explore.ApartOptions | domains_and_results/ConcurrentModule.py:833-884 | when the agents are apart the robot's candidates share one key, the human waiting for its turn in each, one per designated decomposition plus at most one, never none when a decomposition exists |
| Explore.ApartWorldsSpec | domains_and_results/ConcurrentModule.py:853-862 | after an unseen robot action the human considers possible exactly the unseen worlds, the other designated outcomes, and the current world when the robot need not wait |
| Explore.ApartWorlds | domains_and_results/ConcurrentModule.py:853-862 | the human's possible worlds after an unseen robot action start with the unseen worlds, include every other designated outcome, and end with the current world when the robot need not wait |
| Explore.ApartBase | domains_and_results/ConcurrentModule.py:853-863 | one candidate per designated decomposition, with its action, end world and the worlds the human cannot rule out |
| Explore.ApartOptionsSpec | domains_and_results/ConcurrentModule.py:833-884 | each candidate performs its decomposition, possibly marked `PASS`; an extra `R:PASS` candidate in the current world exists exactly when none of the robot's actions is passive |
| Explore.SameAction | domains_and_results/ConcurrentModule.py:746-755 | two actions look the same exactly when names and parameter lists agree; comparing same-named actions with different numbers of parameters is the index error the source's loop raises |
| Explore.MatchingEnds | domains_and_results/ConcurrentModule.py:740-763 | keeps exactly the outcomes of the decompositions whose action the human cannot tell from the robot's, failing exactly when a comparison does |
| Explore.ObservedExplained | domains_and_results/ConcurrentModule.py:733-766 | every world the human infers after seeing the robot act is reached in one of its possible worlds by an action that looks like the robot's |
| Explore.TogetherFrom | domains_and_results/ConcurrentModule.py:733-766 | one candidate per designated decomposition, with its action and end world, the human waiting for its turn |
| Explore.TogetherFromExplained | domains_and_results/ConcurrentModule.py:733-766 | every world a candidate keeps possible is explained by that candidate's robot action |
| Explore.TogetherOptions | domains_and_results/ConcurrentModule.py:705-794 | when the agents are together the robot's candidates share one key, the human waiting for its turn in each |
| Explore.TogetherActing | domains_and_results/ConcurrentModule.py:727-766 | the robot has no acting candidate when one of its decompositions only waits, and otherwise one per decomposition |
| Explore.TogetherOptionsSpec | domains_and_results/ConcurrentModule.py:727-794 | each candidate performs its decomposition, possibly marked `PASS`; an extra waiting `PASS` candidate exists exactly when none of the actions is passive and the human is not waiting for a signal |
| Explore.PassAppendedSpec | domains_and_results/ConcurrentModule.py:769-792 | the PASS marking and the extra waiting candidate, for any acting candidates that follow the decompositions |
| Explore.Candidates | domains_and_results/ConcurrentModule.py:1406-1513 | the human's candidates have distinct keys and leave the possible worlds as assessed; the robot's share one key, and when the agents are apart there is at least one (the human's keys are per decomposition, see "Left out") |
| Explore.KeptFrom | domains_and_results/ConcurrentModule.py:1521-1537 | exactly the new pairs that are neither final nor a repeated pass are explored further, in order |
| Explore.MarkPassFrom | domains_and_results/ConcurrentModule.py:1530-1535 | a new pair gets the `pass` mark exactly when it and the pair it extends are passive and that one is not `BEGIN`; links are unchanged |
| Explore.LabelFrom | domains_and_results/ConcurrentModule.py:1526-1535 | the goal test's verdict changes only while it runs and only for a pair that is not explored further, and becomes `goal` only for a final pair |
| Explore.Explored | domains_and_results/ConcurrentModule.py:1330-1405 | the selected pair is replaced by its assessed version, and nothing else in the tree changes |
| Explore.Grow | domains_and_results/ConcurrentModule.py:1515-1517 | growing adds one step holding the arranged candidates and one pair per candidate, keeping the tree well formed |
| Explore.GrowPairs | domains_and_results/ConcurrentModule.py:202-219 | earlier pairs are untouched except the selected one, which gains the new pairs as next pairs; each new pair extends it, sits in the new step, has the opposite node type and is not done |
| Explore.ExplorationStep | domains_and_results/ConcurrentModule.py:1320-1560 | an empty frontier is an error; otherwise the tree stays well formed and gains one step, the new frontier is the kept new pairs in front of the rest of the old frontier, the worlds bound only grows, and the goal test's mode is kept |
| Explore.NextFrontierInTree | domains_and_results/ConcurrentModule.py:1560 | the next frontier only refers to pairs of the grown tree |
| Explore.ExploredGrownFrom | domains_and_results/ConcurrentModule.py:1405-1517 | assessing and then growing the selected pair changes the tree only below it |
| Explore.ExplorationStepPairs | domains_and_results/ConcurrentModule.py:1320-1560 | a successful step explored the first pair of the frontier, and the tree changes only by growing below that pair |
| AndOr.SetDone | domains_and_results/ConcurrentModule.py:551 | marking a pair solved changes no other pair and clears no solved mark |
| AndOr.MarkIfSolved | domains_and_results/ConcurrentModule.py:546-566 | a pair ends solved exactly when it was or its children solve it: one solved child that is not a pass for an OR node, every child that is not a pass for an AND node |
| AndOr.RegressUp | domains_and_results/ConcurrentModule.py:545-574 | the walk upwards only sets solved marks and never touches a pair created after the one it starts from |
| AndOr.RegressUpDecides | domains_and_results/ConcurrentModule.py:545-566 | the walk decides its first pair by that pair's children |
| AndOr.SolvedKept | domains_and_results/ConcurrentModule.py:546-566 | whether children solve a pair depends only on the marks of pairs created after it |
| AndOr.RegressUpJustified | domains_and_results/ConcurrentModule.py:545-574 | every pair the walk marks lies on the way up from its start and is solved by its children in the resulting tree |
| AndOr.JustifiedBelow | domains_and_results/ConcurrentModule.py:553-558 | one more step up the walk keeps every new mark on the way up and justified by children |
| AndOr.Regress | domains_and_results/ConcurrentModule.py:540-574 | regressing from an unmarked pair changes nothing; from a solved or passed pair it only adds solved marks to earlier pairs; it fails exactly for a solved or passed initial pair, which has no parent |
| AndOr.RegressSpec | domains_and_results/ConcurrentModule.py:540-574 | after a solved or passed pair, its parent ends solved exactly when it was or its children solve it; every newly solved pair is an ancestor solved by its children; and the walk stops at the first ancestor that is already solved, marking nothing above it |
| AndOr.RegressUpStopsAtDone | domains_and_results/ConcurrentModule.py:543-572 | every pair the upward walk marks lies below every ancestor of its start that was already solved |
| AndOr.RegressStopsAtDone | domains_and_results/ConcurrentModule.py:540-574 | after a solved or passed pair, no pair gets marked above an ancestor of it that was already solved |
| AndOr.MarkVerdict | domains_and_results/ConcurrentModule.py:596-599 | a `goal` verdict solves the pair and a `pass` verdict marks it passed, nothing else changing |
| AndOr.VerifyCycle | domains_and_results/ConcurrentModule.py:644-645 | the repeated exploration runs with the goal test on and never lowers the number of worlds seen |
| AndOr.Settle | domains_and_results/ConcurrentModule.py:592-602 | settling a pair keeps every solved mark, solves the pair exactly when it was or the verdict is `goal`, and fails exactly for a marked initial pair |
| AndOr.SearchTurn | domains_and_results/ConcurrentModule.py:585-606 | a turn keeps the search state well formed, never shrinks the tree, never switches the goal test off and never lowers the worlds bound |
| AndOr.CloseTurn | domains_and_results/ConcurrentModule.py:591-602 | closing a turn keeps every solved mark and takes the goal test and worlds bound of the repeated exploration |
| AndOr.ExplorationKeepsSolved | domains_and_results/ConcurrentModule.py:1320-1560 | exploring a pair never clears a solved mark |
| AndOr.SearchTurnKeepsSolved | domains_and_results/ConcurrentModule.py:585-606 | a turn never clears a solved mark of a pair already in the tree |
| AndOr.AndOrSearch | domains_and_results/ConcurrentModule.py:578-606 | the search ends with the initial pair solved or nothing left to explore, keeps every solved mark, and does nothing when it starts solved with an empty frontier |
| AndOr.StartSearch | domains_and_results/ConcurrentModule.py:440-477 | the search starts from a well formed tree with the initial pair as the only pair to explore and the goal test off |
| AndOr.ExploreAndOr | domains_and_results/ConcurrentModule.py:432-480 | the search from the initial world ends with the initial pair solved or nothing left to explore |
| AndOr.Children | domains_and_results/ConcurrentModule.py:207-219 | lists exactly the steps below a step, in creation order |
| AndOr.DoneAmong | domains_and_results/ConcurrentModule.py:504-507 | keeps exactly the child steps whose pair is solved |
| AndOr.Pruned | domains_and_results/ConcurrentModule.py:503-517 | a step keeps only children whose pair is solved |
| AndOr.PrunedAnd | domains_and_results/ConcurrentModule.py:503-509 | below an AND node the policy keeps exactly the solved children |
| AndOr.PrunedOr | domains_and_results/ConcurrentModule.py:510-517 | below an OR node the policy keeps one child exactly when some child is solved, and then the first solved one |
| AndOr.ExtractFrom | domains_and_results/ConcurrentModule.py:495-519 | the extraction yields a choice for every step, or fails only at an initial step without children |
| AndOr.ExtractAll | domains_and_results/ConcurrentModule.py:505-516 | the extraction over a list of kept children yields a choice for every step, or fails only at an initial step without children |
| AndOr.ExtractPolicy | domains_and_results/ConcurrentModule.py:490 | the policy holds one list of kept children per step |
| AndOr.RootReaches | domains_and_results/ConcurrentModule.py:500-502 | from the initial step the extraction reaches exactly the step itself and what its first child reaches |
| AndOr.LoneReaches | domains_and_results/ConcurrentModule.py:496 | from any other step without a pair the extraction reaches nothing else |
| AndOr.PrunedReaches | domains_and_results/ConcurrentModule.py:503-517 | from a step extending a pair the extraction reaches exactly the step and what its kept children reach |
| AndOr.ExtractFromSpec | domains_and_results/ConcurrentModule.py:495-519 | the extraction from a step sets the pruned children of exactly the reached steps that extend a pair, and leaves every other step as it was |
| AndOr.ExtractAllSpec | domains_and_results/ConcurrentModule.py:505-516 | the same for the extraction over a list of kept children |
| AndOr.ExtractPolicySpec | domains_and_results/ConcurrentModule.py:495-519 | every step reached from the initial step that extends a pair keeps exactly its pruned children, and every other step keeps all its children |
| Metrics.StepPairs | domains_and_results/ConcurrentModule.py:261-265 | every pair listed for a step belongs to that step |
| Metrics.FinalLeavesFrom | domains_and_results/ConcurrentModule.py:267-272 | lists exactly the final steps without children from a given index on |
| Metrics.FinalLeaves | domains_and_results/ConcurrentModule.py:267-272 | lists exactly the final steps without children, each holding a single final pair |
| Metrics.FinalLeavesIncreasing | domains_and_results/ConcurrentModule.py:267-272 | each final leaf is listed once, in increasing order |
| Metrics.Walk | domains_and_results/ConcurrentModule.py:2182-2209 | walking up the branch never changes the task completion time |
| Metrics.PairCounts | domains_and_results/ConcurrentModule.py:2185-2206 | a pair adds one to the human's effort for a human action, one to the joint effort per acting agent, one to the risk when the robot's action is neither a skip nor a common robot action, and takes one off the human's duty time for a passive human action before the human has acted |
| Metrics.LeafMetrics | domains_and_results/ConcurrentModule.py:2170-2211 | a final leaf's completion time is its depth less one; a leaf pair without a parent, on which the source would fail, is an error |
| Metrics.Branch | domains_and_results/ConcurrentModule.py:2182-2209 | the branch visited from a pair only holds pairs of the tree |
| Metrics.WalkCounts | domains_and_results/ConcurrentModule.py:2182-2209 | the walk adds the counts over its branch: human actions, acting agents, risky robot actions and the passive tail before the human's last action |
| Metrics.CountsBounded | domains_and_results/ConcurrentModule.py:2182-2209 | no count exceeds the branch length, and the passive tail plus the human's actions fit in it |
| Metrics.LeafMetricsSpec | domains_and_results/ConcurrentModule.py:2170-2211 | a final leaf's metrics are the counts over its branch; hence the joint effort is at least the human's and at most twice the branch length, the human's duty ends no later than the task, and the risk is at most the branch length |
| Metrics.AllMetrics | domains_and_results/ConcurrentModule.py:2170-2211 | every final leaf gets the metrics of its branch, keyed by its pair, and the whole computation fails exactly when one leaf's does |
| Ranking.BetterIff | domains_and_results/ConcurrentModule.py:2449-2457 | one metrics record is at least as good as another exactly when they tie on every criterion or the first win, on a criterion where they agree before, goes to the first record: a larger value for a maximised criterion, a smaller one otherwise |
| Ranking.BetterTotal | domains_and_results/ConcurrentModule.py:2449-2457 | of any two records one is at least as good as the other |
| Ranking.BetterTransitive | domains_and_results/ConcurrentModule.py:2449-2457 | the comparison is transitive |
| Ranking.BetterAntisymmetric | domains_and_results/ConcurrentModule.py:2449-2457 | two records each at least as good as the other tie on every criterion |
| Ranking.BetterRespectsTies | domains_and_results/ConcurrentModule.py:2449-2457 | records that tie on every criterion compare alike with any third |
| Ranking.InsertLeaf | domains_and_results/ConcurrentModule.py:2240-2241 | inserting a leaf adds exactly that leaf |
| Ranking.InsertLeafSorted | domains_and_results/ConcurrentModule.py:2240-2241 | inserting into a sorted list keeps it sorted |
| Ranking.Sort | domains_and_results/ConcurrentModule.py:2240-2241 | the sort returns a permutation of its input |
| Ranking.SortSorted | domains_and_results/ConcurrentModule.py:2240-2241 | the sort's result has every leaf at least as good as every later one |
| Ranking.CountBetter | domains_and_results/ConcurrentModule.py:2250-2265 | the number of strictly better leaves is at most the number of leaves |
| Ranking.CountBetterAppend | domains_and_results/ConcurrentModule.py:2250-2265 | the count over two lists joined is the sum of the counts |
| Ranking.CountBetterPermutation | domains_and_results/ConcurrentModule.py:2240-2265 | the count does not depend on the order of the leaves, so any order of equal leaves the sort picks gives the same ranks |
| Ranking.CountBetterTies | domains_and_results/ConcurrentModule.py:2250-2265 | tied records have the same count |
| Ranking.CountBetterAll | domains_and_results/ConcurrentModule.py:2250-2265 | when every leaf is strictly better the count is the length |
| Ranking.CountBetterTail | domains_and_results/ConcurrentModule.py:2250-2265 | in a sorted list no leaf at or after a position is strictly better than the leaf there |
| Ranking.RankAt | domains_and_results/ConcurrentModule.py:2250-2265 | the rank set at a position is between one and the position plus one |
| Ranking.RankAtCounts | domains_and_results/ConcurrentModule.py:2250-2265 | in a sorted list the rank at a position, copied from the predecessor on a tie and the position plus one otherwise, is one plus the number of earlier leaves strictly better |
| Ranking.RankIsCount | domains_and_results/ConcurrentModule.py:2250-2265 | in a sorted list a leaf's rank is one plus the number of leaves of the whole list strictly better |
| Ranking.SortingBranches | domains_and_results/ConcurrentModule.py:2235-2268 | the leaves come back as a sorted permutation, each ranked one plus the number of input leaves strictly better than it, so tied leaves share a rank |
| Ranking.Ties | domains_and_results/ConcurrentModule.py:2251-2255 | the comparison loop reports a tie exactly when the two records agree on every criterion |
| Ranking.RanksCount | domains_and_results/ConcurrentModule.py:2250-2265 | ranks set position by position over a sorted permutation count the strictly better leaves of the input |
| Ranking.RankMap | domains_and_results/ConcurrentModule.py:2258-2265 | ranks are stored for exactly the pairs of the ranked leaves |
| Ranking.RankMapValue | domains_and_results/ConcurrentModule.py:2258-2265 | each stored rank is the rank of a leaf holding that pair |
| Ranking.LeavesOf | domains_and_results/ConcurrentModule.py:2211 | each final leaf is paired with its metrics |
| Ranking.FinalLeafPairsDistinct | domains_and_results/ConcurrentModule.py:2170-2173 | no two final leaves share a pair |
| Ranking.RankMapSpec | domains_and_results/ConcurrentModule.py:2250-2265 | the stored ranks cover exactly the leaf pairs, each one plus the number of leaves strictly better than that leaf |
| Ranking.RankBranches | domains_and_results/ConcurrentModule.py:2170-2268 | after computing metrics, sorting and ranking, every final leaf's pair has one plus the number of final leaves strictly better than it; it fails exactly when the metrics do |
| Ranking.Keep | domains_and_results/ConcurrentModule.py:2404-2413 | one comparison keeps the old best or the candidate, never loses a rank, and keeps a rank no larger than either; a later candidate with an equal rank wins |
| Ranking.LastBestUnique | domains_and_results/ConcurrentModule.py:2404-2407 | at most one candidate is the last of least rank |
| Ranking.ScanSpec | domains_and_results/ConcurrentModule.py:2391-2413 | the scan finds nothing exactly when no pair has a rank, and otherwise the last pair of least rank |
| Ranking.ScanNone | domains_and_results/ConcurrentModule.py:2391-2413 | the scan finds nothing exactly when no pair has a rank |
| Ranking.ScanBest | domains_and_results/ConcurrentModule.py:2391-2413 | a found candidate is the last pair of least rank |
| Ranking.LastBestAtEnd | domains_and_results/ConcurrentModule.py:2406-2407 | a new candidate no worse than the best so far becomes the best |
| Ranking.LastBestKept | domains_and_results/ConcurrentModule.py:2404-2407 | a new candidate without a rank or with a larger one leaves the best |
| Ranking.LastBestAlone | domains_and_results/ConcurrentModule.py:2404-2407 | the only candidate with a rank is the best |
| Ranking.ScanAppend | domains_and_results/ConcurrentModule.py:2391-2413 | scanning two lists joined is keeping the better of their scans |
| Ranking.OptionBests | domains_and_results/ConcurrentModule.py:2391-2408 | each human option's best pair is the scan of its pairs |
| Ranking.ScanNested | domains_and_results/ConcurrentModule.py:2391-2413 | picking the best of each human option and then the best of those equals scanning every pair of the step at once |
| Ranking.PairRank | domains_and_results/ConcurrentModule.py:2395-2402 | a pair's rank fails only on a final successor without a stored rank |
| Ranking.OptionCands | domains_and_results/ConcurrentModule.py:2393-2407 | a human option's candidates fail only on a missing rank |
| Ranking.StepCands | domains_and_results/ConcurrentModule.py:2391-2413 | a step's candidates fail only on a missing rank |
| Ranking.BestRank | domains_and_results/ConcurrentModule.py:2389-2417 | the best rank below a step fails only on a missing rank |
| Ranking.OptionCandsSpec | domains_and_results/ConcurrentModule.py:2393-2407 | an option's candidates exist exactly when every pair has a rank, and then hold each pair with its rank |
| Ranking.StepCandsOk | domains_and_results/ConcurrentModule.py:2391-2413 | a step's candidates exist exactly when every pair of its options has a rank |
| Ranking.StepCandsRanked | domains_and_results/ConcurrentModule.py:2391-2413 | when every pair has a rank the step's candidates exist |
| Ranking.StepCandsSpec | domains_and_results/ConcurrentModule.py:2391-2413 | the step's candidates, flattened, hold each pair with its rank |
| Ranking.Candidates | domains_and_results/ConcurrentModule.py:2391-2402 | every pair of the step appears with its rank, in the order of the human options |
| Ranking.BestRankScan | domains_and_results/ConcurrentModule.py:2389-2417 | the best rank of a step is an error exactly when some pair's rank is, and otherwise the scan of all its pairs |
| Ranking.BestRankNone | domains_and_results/ConcurrentModule.py:2389-2417 | a step has no best pair exactly when none of its pairs has a rank |
| Ranking.BestRankLeast | domains_and_results/ConcurrentModule.py:2389-2417 | the best pair of a step is one of its pairs whose rank is the least of the step's ranks, the last such |
| Ranking.UpdateChoices | domains_and_results/ConcurrentModule.py:2373-2387 | the choices start from the first child of the initial step, and fail when there is none |
| Findings.TopAlternatives | domains_and_results/ConcurrentModule.py:1994-2033 | in the scenario the goal `Top` has the single alternative `Blocked` then `step` |
| Findings.FirstTurn | domains_and_results/ConcurrentModule.py:1914-1981 | the first refinement turn replaces `Top` by that alternative |
| Findings.SecondTurn | domains_and_results/ConcurrentModule.py:1932-1940 | the second turn finds no method for `Blocked`, puts it back in front of the agenda and stops with `step` left as a subtask |
| Findings.ScenarioLoop | domains_and_results/ConcurrentModule.py:1908-1990 | two turns finish the scenario's refinement |
| Findings.ScenarioResolved | domains_and_results/ConcurrentModule.py:1932-1989 | the stuck draft resolves to one decomposition without applicable method that still holds `step` |
| Findings.ScenarioRefinement | domains_and_results/ConcurrentModule.py:1884-1990 | refining the scenario's agenda yields exactly that decomposition |
| Findings.DroppedSubtask | domains_and_results/ConcurrentModule.py:1812-1848 | for that decomposition the end agenda as written is `[Blocked]` and loses `step`, which was never performed, while the corrected end agenda is `[Blocked, step]` |
| Dinner.DinnerState.MovedTo | domains_and_results/prepare_dinner_k_comm.py:26-29 | moving sets the mover's location and context to the target and leaves the other agent's alone |
| Dinner.FluentOf | domains_and_results/prepare_dinner_k_comm.py:271-326 | each fluent of the scenario is dynamic exactly when the initial state creates it as dynamic, and every dynamic fluent holds a dictionary |
| Dinner.Encode | domains_and_results/prepare_dinner_k_comm.py:271-326 | the encoded state holds exactly the scenario's fluents |
| Dinner.EncodeComparable | domains_and_results/CommonModule.py:683-699 | any two encoded states can be compared without the error the source would raise |
| Dinner.EntryCompare | domains_and_results/CommonModule.py:701-726 | two one-entry dictionaries with the same key match exactly when the values are equal |
| Dinner.PerAgentCompare | domains_and_results/CommonModule.py:701-726 | two per-agent dictionaries match exactly when both agents' values agree |
| Dinner.DynamicFluents | domains_and_results/prepare_dinner_k_comm.py:283-316 | each dynamic fluent holds the field it is named after |
| Dinner.DynamicFluentOf | domains_and_results/prepare_dinner_k_comm.py:283-316 | a dynamic fluent depends only on the dynamic fields |
| Dinner.SameStateSound | domains_and_results/CommonModule.py:683-699 | states agreeing on every dynamic field are equal for `compare_states` |
| Dinner.SameStateComplete | domains_and_results/CommonModule.py:683-699 | states equal for `compare_states` agree on every dynamic field |
| Dinner.SameStateIff | domains_and_results/CommonModule.py:683-699 | `compare_states` on this scenario holds exactly when the dynamic fields agree |
| Dinner.RobotOperatorTable | domains_and_results/prepare_dinner_k_comm.py:101-102 | the robot's operators are the common three plus seasoning and putting on the stove, each under its own name |
| Dinner.HumanOperatorTable | domains_and_results/prepare_dinner_k_comm.py:101-103 | the human's operators are the common three plus moving, fetching, adding the ingredient and finishing the cooking |
| Dinner.RobotMethodTable | domains_and_results/prepare_dinner_k_comm.py:230-231 | the robot has one method for each of its three abstract tasks |
| Dinner.HumanMethodTable | domains_and_results/prepare_dinner_k_comm.py:230-232 | the human has one method for each of its six abstract tasks |
| Dinner.HumanOwnMethodsDeclared | domains_and_results/prepare_dinner_k_comm.py:232 | declaring the human's own methods adds one entry per task name |
| Dinner.TableOperators | domains_and_results/prepare_dinner_k_comm.py:101-103 | every operator either agent has is one of the nine, stored under its own name |
| Dinner.CutAndWash | domains_and_results/prepare_dinner_k_comm.py:54-65 | for either agent, cutting is possible exactly when the vegetable is not cut and cuts it; washing exactly when it is cut and not washed, and washes it |
| Dinner.RobotCooking | domains_and_results/prepare_dinner_k_comm.py:67-80 | seasoning needs the vegetable washed and not seasoned and seasons it; putting on the stove needs it washed and not boiling and makes it boil |
| Dinner.HumanMove | domains_and_results/prepare_dinner_k_comm.py:22-29 | moving is possible exactly for the human, from where it is and has its context, and takes both to the target |
| Dinner.HumanIngredient | domains_and_results/prepare_dinner_k_comm.py:32-51 | fetching needs the human in the pantry with the ingredient and gives it the ingredient; adding it needs the human in the kitchen holding it with the vegetable boiling, and puts it in the vegetable; finishing marks the food ready |
| Dinner.OperatorStep | domains_and_results/prepare_dinner_k_comm.py:22-98 | an applicable operator keeps the state consistent and undoes no reached fact; moving and communicating leave the progress alone and every other operator advances it |
| Dinner.HumanOnlyActions | domains_and_results/prepare_dinner_k_comm.py:22-103 | the robot can never move, fetch or add the ingredient; seasoning and the stove are only in the robot's table and the human's four actions only in the human's |
| Dinner.CommunicationRevealsSeasoning | domains_and_results/prepare_dinner_k_comm.py:90-98 | communicating changes nothing and tells two states apart exactly when they differ on seasoning |
| Dinner.PrimCommunication | domains_and_results/prepare_dinner_k_comm.py:29-98 | among the scenario's nine primitive operators exactly the status communication is recognised as a communication, and it has a value function |
| Dinner.CommunicationOperators | domains_and_results/prepare_dinner_k_comm.py:98-103 | in either agent's table a name is a communication exactly when it is the status communication, which has a value function, so no operator of the scenario ever reaches the missing-value-function error |
| Dinner.Assess | domains_and_results/ConcurrentModule.py:1225-1256 | a possible world is kept exactly when the agents are apart or it agrees with the designated state on everything the human can observe there |
| Dinner.CopresentAfterMove | domains_and_results/ConcurrentModule.py:1228 | after a move the agents are together exactly when the other agent is at the target place and has it as context |
| Dinner.SeasoningUnseen | domains_and_results/ConcurrentModule.py:1225-1256 | the designated state is always kept; unobservable seasoning never affects the rule; observable washing that differs drops a world when the agents are together |
| Dinner.MethodsDecided | domains_and_results/prepare_dinner_k_comm.py:122-226 | every method of either agent is stored under its task, and one with a done condition is applicable exactly when it is not done |
| Dinner.PrepareDinnerDoneIffReady | domains_and_results/prepare_dinner_k_comm.py:122-126 | for either agent Prepare_Dinner is done exactly when the food is ready and applicable exactly when it is not |
| Dinner.CutNWashAlternatives | domains_and_results/prepare_dinner_k_comm.py:212-226 | Cut_n_Wash is done exactly when the vegetable is cut and washed; in the kitchen with it uncut its only alternative is cut, wash, Cut_n_Wash, with it cut but unwashed wash, Cut_n_Wash, and outside the kitchen there is none |
| Dinner.RobotEntriesKnown | domains_and_results/prepare_dinner_k_comm.py:101-102 | every task the robot's decompositions name is in its tables with the right kind |
| Dinner.HumanEntriesKnown | domains_and_results/prepare_dinner_k_comm.py:101-103 | every task the human's decompositions name is in its tables with the right kind |
| Dinner.CommonDecompositions | domains_and_results/prepare_dinner_k_comm.py:111-118 | the common methods only name common tasks |
| Dinner.RobotDecompositions | domains_and_results/prepare_dinner_k_comm.py:175-185 | the robot's methods only name tasks of the robot |
| Dinner.HumanDecompositions | domains_and_results/prepare_dinner_k_comm.py:142-173 | the human's methods only name tasks of the human |
| Dinner.DecompositionsKnown | domains_and_results/prepare_dinner_k_comm.py:111-232 | every decomposition any method of either agent offers, in any state, names only tasks that agent can handle, so the refinement never meets an unknown task |
| Dinner.CutNWashRuns | domains_and_results/prepare_dinner_k_comm.py:212-226 | with tables that hold the needed entries, carrying out Cut_n_Wash's alternative leaves the vegetable cut and washed and only Cut_n_Wash to do |
| Dinner.CutNWashEntries | domains_and_results/prepare_dinner_k_comm.py:101-103 | either agent's tables hold what Cut_n_Wash needs |
| Dinner.CutNWashExecutes | domains_and_results/prepare_dinner_k_comm.py:212-226 | Cut_n_Wash, applicable in the kitchen, offers one alternative whose primitives all apply and leave it done |
| Dinner.BringEntries | domains_and_results/prepare_dinner_k_comm.py:103 | the human's tables hold what bringing the ingredient needs |
| Dinner.BringRuns | domains_and_results/prepare_dinner_k_comm.py:153-161 | with tables that hold the needed entries, bringing the ingredient from the kitchen goes to the pantry, fetches it and comes back, leaving the human holding it |
| Dinner.BringExecutes | domains_and_results/prepare_dinner_k_comm.py:153-161 | bringing the ingredient, applicable in the kitchen with it in the pantry, offers one alternative whose primitives all apply and leave the human holding it |
| Dinner.InitialWorldOk | domains_and_results/prepare_dinner_k_comm.py:265-340 | the initial world is built without error, each agent's agenda holding Prepare_Dinner, in a consistent state where nothing is done yet and the agents are together |
| Dinner.Plan | domains_and_results/prepare_dinner_k_comm.py:361-372 | the exploration of the scenario ends with the initial pair solved or nothing left to explore |

## Left out

- Copying (`State.__deepcopy__`, `Agent.__deepcopy__`, CommonModule.py:321-371) is not modelled as an operation. Datatypes are values, so every copy is independent by construction, and the agents' tables live in the domain, which every world shares.
- `planned_actions` is not modelled: the engine only appends to it and never reads it.
- `check_triggers` is not modelled: the trigger lists of the scenario are empty.
- The signalling macro of `exploration_step_tt` (ConcurrentModule.py:1421-1449) is modelled as switched off. It builds `take_out` actions from the cube and box names of another scenario.
- The legacy search path is not modelled: `exploration_step`, `compute_parallel_pairs`, `get_agents_after_action`, `get_applied_refinement_wrt_a_possible_world`, the recursive `fun_AND_OR_search`, `is_goal_node` and `HumanOption.add_robot_passive`. Their calls do not match the current signatures: for example, `add_robot_passive` builds an `ActionPair` with three of its four arguments.
- `identify_CRA` is modelled (`ActionTree.IdentifyCRA`), but only the legacy path calls it. On the current path every new step keeps an empty list of common robot actions, and the metrics use that list.
- The multi-threaded exploration, the GRAAL rule reasoner, the unused rule-inference helper and the older situation-assessment variant are not modelled.
- The duplicate `ActionPair.is_it_an_and_node` is not modelled. The engine reads the node type directly, and the second definition, which wins, is never called on the modelled path.
- Printing, logging, rendering, XML and dill persistence, timing and `solution_checker` are not modelled.
- Floating point is not modelled: costs are only compared for equality, and the metrics are counters, so both are integers.
- The preference tables `get_exec_prefs` and `esti_prefs_pairs` are not modelled: the criteria list is a parameter of the ranking.
- Ranking.Sort: the source calls numpy's sort, whose order among equal leaves is not specified. The model uses an insertion sort by `compare_metrics`. The ranks are proved independent of that order (`Ranking.CountBetterPermutation`, `Ranking.SortingBranches`). `Step.__lt__` (ConcurrentModule.py:243-244) returns `compare_metrics`, which returns True on a full tie (ConcurrentModule.py:2457), so the sort is handed a comparator that is not strict; the model's `Ranking.Better` is that same non-strict relation, and only the order among tied leaves depends on it.
- Applied.EndAgenda: the engine uses the corrected end agenda of the finding below, not line 1848 as written. After a decomposition without an applicable method the agent keeps the stuck task, then the remaining subtasks in the method's order, then the rest; the source drops the first remaining subtask. `Applied.AgreesWithSourceOutsideStuck` shows the two agree in every other case, and `Applied.AsWrittenDropsFirstSubtask` shows exactly what the source loses.
- Applied.Finish: writes the corrected end agenda, not the one at line 1848 (see `Applied.EndAgenda`).
- Applied.ApplyDecomposition: its contract for a decomposition without an applicable method describes the corrected end agenda, not the source's.
- Applied.NoTaskLost: holds for the corrected end agenda only; the source as written loses the first remaining subtask.
- Applied.ApplyAll: every applied decomposition without an applicable method uses the corrected end agenda.
- Applied.ApplyRefinement: the same, through `Applied.ApplyAll`, and also in the signalling decomposition (`Applied.SignalDecomposition`).
- Applied.SignalDecomposition: gives the agent the corrected end agenda, not `subtasks[1:] + new_agenda` as ConcurrentModule.py:1868 writes. The decomposition it copies can be one without an applicable method, whose first subtask the source then drops as at line 1848; `Applied.SignalAgendaAgainstSource` states exactly where the two differ.
- Applied.GetAppliedRefinement: the same, through `Applied.ApplyRefinement`. The exploration (`Explore`), the search (`AndOr`) and `Dinner.Plan` build on it, so they too follow the corrected end agenda.
- Explore.HumanBase: each of the human's applied decompositions gets its own key, and so its own human option. The source groups the human's pairs by the identity of the action object (ConcurrentModule.py:1637-1652; `Action` defines no equality). That object is the primitive task cast in place (CommonModule.py:240-246), and two decompositions of one refinement can share the same task object, because an extra decomposition reuses the subtasks that follow (ConcurrentModule.py:1972-1980). For example, one alternative reaches a primitive task after skipping a done one while another reaches it directly. The source then puts both pairs in one human option, while the model keeps two. The model has no object identity, so this sharing is not modelled.
- Explore.HumanOptions: has distinct keys because of the per-decomposition keys of `Explore.HumanBase`. Where the source would share an action object, it gives fewer human options than the model.
- Explore.OwnOptions: the same, for a given list of decompositions.
- Explore.Candidates: the human's candidates have distinct keys only under the per-decomposition keys of `Explore.HumanBase`. The step's human options, and the best pair per option (`Ranking.OptionBests`), follow the model's grouping.
- Worlds.Dedup: the source collects the kept worlds in a Python set, which is iterated in hash order. The model keeps them in a list in first-occurrence order.
- Fluents.CompareStates requires `Fluents.Comparable`, because the source raises when a compared fluent is missing from the second state or is not a dictionary. `Dinner.EncodeComparable` shows that the scenario's states always meet it.
- Explore.TogetherFromExplained: each world the human keeps after seeing the robot act is shown to be reached by a look-alike robot action from some world. It is not shown that this starting world is one the human considered possible, because the list of possible worlds is pruned by communications while it is being walked.
- Explore.ActingAgent: a pair that is neither `BEGIN` nor a wait for a turn is the source's `Problem` exception, returned as `NoActingAgent`.
- Dinner.Plan states only what the search guarantees, and does not evaluate the scenario's tree. The reporting after the search is modelled separately, by `Metrics.AllMetrics`, `Ranking.RankBranches` and `AndOr.ExtractPolicy`.
- A wrong number of task parameters, which Python reports as a `TypeError`, is not modelled: conditions receive the parameter list as one value.

## Findings

| source | as written | input that shows it | evidently intended | confidence | as-written member | corrected member |
|---|---|---|---|---|---|---|
| domains_and_results/ConcurrentModule.py:1848 | The end agenda is `subtasks[1:] + new_agenda` for every decomposition. For a decomposition that stopped because no method applies (ConcurrentModule.py:1932-1940), the first subtask was never performed, and it is dropped. The signalling decomposition does the same at ConcurrentModule.py:1868. | Agent H with agenda `[Top]`; `Top` decomposes into `Blocked` then the primitive `step`; no method of `Blocked` applies. The decomposition holds subtasks `[step]` and new agenda `[Blocked]`, and the end agenda becomes `[Blocked]`: `step` is lost. | When no method applies, keep every task in the method's order: the end agenda is the stuck task, then the remaining subtasks, then the rest of the agenda (`[task] + next_subtasks + rest`), so a task leaves the agenda only by being performed. | not executed | Applied.EndAgendaAsWritten, Applied.AsWrittenDropsFirstSubtask, Findings.DroppedSubtask, Applied.SignalAgendaAgainstSource | Applied.EndAgenda, Applied.NoTaskLost |
