# fsm-rust in Dafny

This project models the engine of fsm-rust: a finite state machine with side
effects (a Mealy automaton). It also models the test automatas written on top of
the engine. The engine has four parts:

- **Transitions.** A transition has a target state, an optional condition (a
  predicate on one character) and an optional effect.
- **The transition table.** It maps every state to the list of transitions
  leaving it. The transitions are tried in list order.
- **`proceed`.** It runs a string through the machine, one character at a time.
  It takes the first transition whose condition accepts the character, and
  hands that transition's effect to an effector. After the last character it
  dispatches the optional post-effect. It reports a missing state or a
  character that no transition accepts.
- **`merge_effects`.** It patches effect lists into an existing table. The list
  of the connection (from, to) is spread over the transitions from `from` to
  `to`, in list order.

The test automatas are:

- the words-and-numbers automaton (`init_fsm`);
- a float-number validator;
- a word and number counter;
- the word side of a store that splits a text into words.

## How the model is organised

- **Types** (`types.dfy`) and **Errors** (`errors.dfy`). `Transition`,
  `Transit`, `StreamData`, `StatesConnection`, and the three ways a run or a
  merge can fail. `src/fsm.rs` imports `StatesConnection` from `src/types.rs`,
  but that file does not define it. The model supplies the `(from, to)`
  record that its uses in `src/fsm.rs` and the tests imply.
- **FsmRun** (`fsm_run.dfy`). The meaning of a run, as pure functions:
  - `Select` is the first matching transition.
  - `RunFrom`/`Run` give `proceed`'s outcome and its ordered list of
    effector calls.
  - `Walk` consumes a string and collects the effects it fires.

  It also holds the lemmas on runs: acceptance, rejection position,
  post-effect placement, totality and effect-free tables.
- **FsmMerge** (`fsm_merge.dfy`). The meaning of `merge_effects`:
  - `Assign` and `MergeOne` describe one entry.
  - `MergeInOrder` processes the entries in a given order.
  - `Merged` is a closed form over a set of connections.

  It proves that any two orders in which the map can be visited both
  succeed or both fail, and that on success they give the same table. Which
  error is reported on failure depends on the order.
- **Fsm** (`fsm.dfy`). The `FSM` class itself:
  - `New`;
  - `MergeEffects`, which rewrites `transitionTable` in place with the source's
    loops;
  - `Proceed`, with the source's character loop and transition loop.

  Each method is proved against the functions above.
- **TestUtils** (`utils.dfy`). `is_letter`, `is_digit` and the two test
  helpers `test_valid_string` and `test_invalid_string`.
- **LetterRuns** (`letter_runs.dfy`). A reference definition of "the words of
  a text": its maximal runs of ASCII letters.
- **WordsAndNumbers**, **FloatNumbers**, **CountWordsAndNumbers** and
  **SplitWords**. The test automatas, their effectors as classes, and the
  tests' concrete strings and expected results.

### How the effector is modelled

- **Outside → log.** `proceed` calls `effector.dispatch(effect, input_data)`
  on an object it does not own. The model does not call it. It returns the
  sequence of `Dispatch(effect, inputData)` calls, in order. With no effector
  (`withEffector == false`) that sequence is empty.
- **Concrete effectors.** `Counter` and `Store` are classes with the source's
  fields. `Dispatch` updates them in place. `Receive` applies a whole log, one
  dispatch at a time.
- **Folds.** Their state after a run is a fold of the fired effects:
  `Tally` for the counter and `Replay` for the store.

## Model

| member | source | states |
|---|---|---|
| Types.Transit | src/types.rs:37-48 | The transition yields its own target exactly when it has no condition or its condition accepts the character. Its effect comes with the target, and nothing comes otherwise. |
| FsmRun.Select | src/fsm.rs:115-135 | The chosen transition matches the character, and no earlier one does. There is no choice exactly when no transition of the list matches. |
| FsmRun.SelectFirst | src/fsm.rs:117-133 | If transition k matches and none before it does, then k is what the loop picks. |
| FsmRun.RunFromTake | src/fsm.rs:117-131 | From a registered state whose k-th transition is the first match: the run moves to that transition's target. It fires that transition's effect with the current position and character. |
| FsmRun.RunFromStuck | src/fsm.rs:137-146 | From a registered state in which no transition matches the next character: the run stops with NoValidTransition for that state, position and character, and dispatches nothing. |
| FsmRun.WalkAppend | src/fsm.rs:112-154 | Consuming u + v is consuming u and then, unless that got stuck, v from the state reached. The effects are concatenated. |
| FsmRun.WalkPrefix | src/fsm.rs:112-154 | A string that can be consumed has every prefix consumable. |
| FsmRun.RunFromWalk | src/fsm.rs:101-167 | A run succeeds exactly when the walk of the remaining input does not get stuck. With an effector, the run dispatches the walk's effects and then the post-effect, the latter only on success. Without one it dispatches nothing. |
| FsmRun.FiredAppend | src/fsm.rs:121-129 | The effects of two consecutive parts of a dispatch log are those of each part, in order. |
| FsmRun.RunAcceptsIffWalks | src/fsm.rs:101-167 | proceed returns Ok exactly when the whole string can be consumed from the initial state. |
| FsmRun.AcceptedPrefix | src/fsm.rs:112-154 | Every prefix of an accepted string is accepted. |
| FsmRun.NoEffectorNoDispatch | src/fsm.rs:121-129 | Without an effector nothing is dispatched, the post-effect included. |
| FsmRun.RunFromRejects | src/fsm.rs:137-146 | A NoValidTransition error names the input string, a position inside it and the character there. The state it names is the one the walk reached at that position, that state has an entry, and none of its transitions accepts the character. |
| FsmRun.RunFromRejectsAt | src/fsm.rs:137-146 | Conversely, reaching a registered state at position k whose transitions all refuse s[k] makes the run fail with exactly that error. |
| FsmRun.RunRejectsAt | src/fsm.rs:137-146 | The two directions together for a whole run: it fails with NoValidTransition(from, (s, k, s[k])) if and only if the walk of s[..k] reaches from and no transition of from accepts s[k]. |
| FsmRun.RunFromMissingState | src/fsm.rs:148-150 | A run never reports TransDoesNotExist. It reports StateDoesNotExist only for an unregistered state that the walk reached before some character. |
| FsmRun.RunFromNoTransError | src/fsm.rs:101-167 | No run from any position returns TransDoesNotExist. |
| FsmRun.RunFromMissingReached | src/fsm.rs:148-150 | A StateDoesNotExist error from any position names an unregistered state that the walk reached before a character. |
| FsmRun.RunFromMissingAt | src/fsm.rs:148-150 | Conversely, reaching an unregistered state before some character makes the run fail with StateDoesNotExist for exactly that state. |
| FsmRun.RunMissingAt | src/fsm.rs:148-150 | The two directions together for a whole run. It fails with StateDoesNotExist(st) if and only if st is unregistered and the walk of a proper prefix s[..k] (k < len(s)) reaches it. A state reached after the last character is never looked up. |
| FsmRun.RunFromLogShape | src/fsm.rs:121-129 | Every dispatch carries the input string and a position from i to the string's length. Positions strictly increase along the log, and a position inside the string comes with the character there. |
| FsmRun.RunFromLogEnd | src/fsm.rs:156-164 | The last dispatch is at position len(s) exactly when the run succeeded with an effector and a post-effect. That dispatch is the post-effect with character '\0'. |
| FsmRun.EndIsLast | src/fsm.rs:153-164 | In a log of that shape, a dispatch at position len(s) can only be the last one. |
| FsmRun.PostEffectOnce | src/fsm.rs:156-164 | The post-effect is dispatched only after the last character: at most once, last, and only for an accepted run with an effector. All other dispatches are in stream order, one per character at most. |
| FsmRun.SelectTotal | src/fsm.rs:115-135 | A list that ends with an unconditional transition matches every character. |
| FsmRun.WalkTotal | src/fsm.rs:112-154 | A walk never gets stuck in a table whose lists all end unconditionally and whose targets are all registered. |
| FsmRun.RunTotal | src/fsm.rs:101-167 | Under those conditions every run from a registered initial state returns Ok. |
| FsmRun.WalkEffectFree | src/fsm.rs:121-129 | A table without effects fires none. |
| FsmRun.RunEffectFree | src/fsm.rs:121-164 | Over a table without effects, the only possible dispatch is the post-effect. |
| FsmMerge.CountToPrefix | src/fsm.rs:76-83 | One more transition raises the count of transitions to `to` by one exactly when it leads to `to`. No prefix counts more than the whole list. |
| FsmMerge.CountToTargets | src/fsm.rs:76-83 | The count depends on the targets only, so two lists with equal targets count alike. |
| FsmMerge.AssignIndex | src/fsm.rs:78-82 | The i-th transition to `to` that is counted receives effects[number of transitions to `to` before it]. Every other transition is unchanged. |
| FsmMerge.AssignAt | src/fsm.rs:76-83 | The same, for all positions at once. |
| FsmMerge.AssignExtend | src/fsm.rs:76-83 | Spreading over one more transition extends the result by that transition. A transition to `to` gets the next unused effect, and that effect index is in bounds. |
| FsmMerge.AssignStep | src/fsm.rs:78-82 | One iteration of the effect-assigning loop. It turns "assigned up to i, untouched after it" into the same for i + 1, and keeps the counter equal to the count so far. |
| FsmMerge.AssignNothing | src/fsm.rs:85-87 | With no transition to `to`, spreading changes nothing. This is the case reported as TransDoesNotExist. |
| FsmMerge.AssignShape | src/fsm.rs:74-83 | Assigning effects leaves every state, every target and every condition of the table as it was. |
| FsmMerge.MergedShape | src/fsm.rs:65-96 | Merging any set of entries changes effects only. |
| FsmMerge.SameShapeEntries | src/fsm.rs:70-91 | Tables of the same shape give every connection the same outcome (missing state, missing transition, or the same count), and are fit for the same effects map. |
| FsmMerge.MergedNothing | src/fsm.rs:65-96 | Merging no entry leaves the table as it was. |
| FsmMerge.MergedStep | src/fsm.rs:74-83 | Merging one more entry into the closed form of a set gives the closed form of the larger set. |
| FsmMerge.MergeOne | src/fsm.rs:69-93 | One loop iteration keeps the table's shape and its fitness for the map. |
| FsmMerge.MergeInOrderShape | src/fsm.rs:65-96 | Processing entries in any order keeps the table's shape and its fitness. |
| FsmMerge.MergeInOrderSnoc | src/fsm.rs:69-93 | After a successful prefix of the order, the next entry is merged into the table that prefix produced. |
| FsmMerge.MergedEntries | src/fsm.rs:70-91 | The merged table is still fit for the map. |
| FsmMerge.MergedEntry | src/fsm.rs:70-91 | Every connection fails or passes on the merged table exactly as on the original one. |
| FsmMerge.MergeInOrderFrom | src/fsm.rs:65-96 | Processing further distinct entries after a set already merged succeeds exactly when none of them fails on the original table, and then yields the closed form of the union. |
| FsmMerge.MergeInOrderFromOk | src/fsm.rs:65-96 | The same, when the first further entry succeeds. |
| FsmMerge.MergeNext | src/fsm.rs:69-93 | The loop invariant of merge_effects survives taking any remaining connection next. |
| FsmMerge.MergeInOrderSpec | src/fsm.rs:65-96 | For any order of the map's entries: merge_effects succeeds exactly when no entry meets a missing state or lacks a transition, and then yields the closed form of all entries. |
| FsmMerge.MergeOrderIrrelevant | src/fsm.rs:69 | Two visiting orders of the same entries both succeed or both fail, and on success they give the same table. The unspecified HashMap order therefore does not matter. |
| FsmMerge.CountToDistinct | src/fsm.rs:76-83 | A list whose targets are distinct has one transition to `to` if any transition leads there, and none otherwise. |
| FsmMerge.MergedDistinct | src/fsm.rs:76-83 | In a table with distinct targets, every merged connection's only transition takes the first effect of its list. Every other transition is untouched. |
| FsmRun.Fire | src/fsm.rs:121-129 | Definition: one dispatch call with the given stream data when there is an effector and an effect, none otherwise. It is used for both transition effects and the post-effect (src/fsm.rs:156-164). |
| FsmRun.RunFrom | src/fsm.rs:107-166 | Definition of the rest of proceed's loop from state `state` before character i: its outcome and its dispatch calls, in order. Its properties are stated by RunFromTake, RunFromStuck, RunFromWalk, RunFromRejects, RunFromMissingAt and RunFromLogEnd. Fsm.FSM.Proceed is proved to compute it. |
| FsmRun.Run | src/fsm.rs:101-167 | Definition of a whole call of proceed from the initial state. Its properties are stated by RunAcceptsIffWalks, RunRejectsAt, RunMissingAt and PostEffectOnce. |
| FsmRun.Step | src/fsm.rs:115-135 | Definition of one character of proceed's loop without positions: the target of the first matching transition and its effect, or nothing when the state is unregistered or no transition matches. |
| FsmRun.Walk | src/fsm.rs:112-154 | Definition of consuming a string by repeated Step: the state reached (none if stuck) and the effects fired. Its properties are stated by WalkAppend, WalkPrefix and WalkTotal, and RunFromWalk ties it to RunFrom. |
| FsmMerge.CountTo | src/fsm.rs:76-83 | The number of transitions leading to `to` is at most the length of the list. It is the final value of eff_counter (Fsm.FSM.AssignEffects). |
| FsmMerge.Assign | src/fsm.rs:78-83 | Spreading an effect list over a transition list keeps its length. What each position receives is stated by AssignIndex and AssignAt. |
| FsmMerge.EntryError | src/fsm.rs:70-91 | Definition of the error one entry of merge_effects meets on a table: a missing destination first, then a missing source, then no transition between them. Fsm.FSM.MergeEntry is proved to follow it. |
| FsmMerge.MergeInOrder | src/fsm.rs:69-95 | Definition of merge_effects's loop over the entries in a given order. It stops at the first failing entry and keeps what the entries before it did. Fsm.FSM.MergeEffects is proved to equal it for the order it took. |
| FsmMerge.Merged | src/fsm.rs:65-96 | Definition of the table once a set of connections has been merged, independent of order. MergeInOrderSpec proves every successful order yields it. |
| Fsm.FSM.Init | src/fsm.rs:50-54 | The struct literal of new: the machine holds exactly the given initial state, table and post-effect. |
| Fsm.FSM.New | src/fsm.rs:42-56 | Fails with StateDoesNotExist(initial state) if and only if the initial state has no entry. Otherwise it builds a fresh machine holding the three arguments. |
| Fsm.FSM.MergeEffects | src/fsm.rs:65-96 | The table it leaves, and its result, are those of processing the map's entries in the order it took (some order of distinct keys). It succeeds exactly when every entry would succeed on the original table, and then every key is merged. On failure the error is that of an unmerged entry, and the merges done before it stay. Only effects ever change, so a machine whose initial state is registered keeps it registered. |
| Fsm.FSM.MergeEntry | src/fsm.rs:70-92 | One loop iteration: the target must exist, then the source. Then effects are assigned, and at least one transition must have received one. The new table and the result are MergeOne's. |
| Fsm.FSM.AssignEffects | src/fsm.rs:76-83 | Gives the k-th transition to conn.to the effect effects[k], in place. It returns how many such transitions there were. |
| Fsm.FSM.Proceed | src/fsm.rs:101-167 | Returns Run's outcome and its dispatch log on the current table. |
| Fsm.FSM.FirstMatch | src/fsm.rs:117-133 | Finds the first transition whose condition accepts the character, its target and its effect, and finds nothing when none does. |
| TestUtils.IsLetter | src/tests/utils.rs:57-60 | Definition of is_letter: an ASCII letter, 'A' to 'Z' or 'a' to 'z'. |
| TestUtils.IsDigit | src/tests/utils.rs:62-64 | Definition of is_digit: '0' to '9'. |
| TestUtils.ClassesDisjoint | src/tests/utils.rs:57-64 | No character is both a letter and a digit. Neither class contains '.', ' ' or '\0'. |
| TestUtils.TestValidString | src/tests/utils.rs:6-24 | Passes exactly when proceed returns Ok. The effector receives the run's dispatches. |
| TestUtils.TestInvalidString | src/tests/utils.rs:26-55 | Passes exactly when proceed fails with NoValidTransition, whatever position and character it was given. |
| TestUtils.TestInvalidStringAt | src/tests/utils.rs:26-55 | The intended check: passes exactly when proceed fails with NoValidTransition at the given position on the given character. |
| TestUtils.InvalidAtMeans | src/tests/utils.rs:26-55 | If the intended check passes, the character is at that position, everything before it was consumed, and no transition of the state reached accepts it. |
| LetterRuns.RunsSnoc | src/tests/split_into_words_and_count_sum.rs:217-285 | One more character extends the last word when that word is still open. Otherwise a letter starts a new word, and anything else changes nothing. |
| LetterRuns.RunsAreWords | src/tests/utils.rs:57-60 | Every word is non-empty and made of letters. |
| LetterRuns.RunsLetters | src/tests/utils.rs:57-60 | Concatenated, the words are the text's letters in order, so no letter is lost or repeated. |
| LetterRuns.RunsSplit | src/tests/split_into_words_and_count_sum.rs:217-285 | A text cut after a non-letter has the words of both parts. |
| WordsAndNumbers.Outgoing | src/tests/automatas/words_and_numbers.rs:23-99 | Definition of each state's transition list in init_fsm's table, in the source's order, with no effects. |
| WordsAndNumbers.WordsTable | src/tests/automatas/words_and_numbers.rs:23-99 | Definition of init_fsm's table: INIT, WORD, NUMBER_IP and NUMBER_FP, each with its list. |
| WordsAndNumbers.Next | src/tests/automatas/words_and_numbers.rs:23-99 | Reference definition of the successor state by character class. WordsStep proves the table follows it. |
| WordsAndNumbers.WordsTableAt | src/tests/automatas/words_and_numbers.rs:23-99 | Every state of the automaton has its entry, with the listed transitions. |
| WordsAndNumbers.InitFsm | src/tests/automatas/words_and_numbers.rs:16-113 | Builds a machine starting in INIT with the given post-effect. Its table is the automaton, or the automaton with the effects map merged in when one is given. |
| WordsAndNumbers.OutgoingFacts | src/tests/automatas/words_and_numbers.rs:23-99 | Every state's list ends with an unconditional transition, has distinct targets and carries no effect. |
| WordsAndNumbers.WordsTotal | src/tests/automatas/words_and_numbers.rs:23-102 | INIT is registered, every list ends unconditionally and every target is registered, so FSM::new succeeds. |
| WordsAndNumbers.WordsDistinct | src/tests/automatas/words_and_numbers.rs:23-99 | No state has two transitions to the same target. |
| WordsAndNumbers.WordsEffectFree | src/tests/automatas/words_and_numbers.rs:23-99 | No transition carries an effect before merging. |
| WordsAndNumbers.WordsShapedFacts | src/tests/automatas/words_and_numbers.rs:23-110 | A table shaped like the automaton is total: INIT is registered, lists end unconditionally and targets are registered. |
| WordsAndNumbers.WordsStep | src/tests/automatas/words_and_numbers.rs:23-99 | A letter leads to WORD, and a digit to NUMBER_IP (NUMBER_FP keeps digits). A point leads to NUMBER_FP from NUMBER_IP only, and anything else to INIT. This holds in every table of this shape. |
| WordsAndNumbers.WordsRunOk | src/tests/automatas/words_and_numbers.rs:23-110 | Every run over such a table succeeds. |
| WordsAndNumbers.WordsOnlyPostEffect | src/tests/automatas/words_and_numbers.rs:16-113 | Without an effects map every run succeeds, and the only dispatch is the post-effect after the last character. |
| WordsAndNumbers.WordsMerged | src/tests/automatas/words_and_numbers.rs:106-110 | After the merge each transition keeps its target and condition. It carries the first effect of its connection's list when the map has that connection, and no effect otherwise. |
| CountWordsAndNumbers.Fallback | src/tests/count_words_and_numbers.rs:28-30 | Definition of fallback: accepts every character. |
| CountWordsAndNumbers.Outgoing | src/tests/count_words_and_numbers.rs:88-166 | Definition of each state's transition list in the counter's table, in the source's order, with its increments. |
| CountWordsAndNumbers.CounterTable | src/tests/count_words_and_numbers.rs:88-166 | Definition of the counter's table: the four states, each with its list. |
| CountWordsAndNumbers.Count | src/tests/count_words_and_numbers.rs:59-64 | Definition of what dispatch does to the counts: INCREMENT_WORD_COUNT adds one word, INCREMENT_NUMBER_COUNT adds one number. Counter.Dispatch is proved to follow it. |
| CountWordsAndNumbers.Tally | src/tests/count_words_and_numbers.rs:59-64 | Definition of the counts a sequence of effects adds up to. TallyAppend and Counter.Receive are stated with it. |
| CountWordsAndNumbers.CounterTableAt | src/tests/count_words_and_numbers.rs:88-166 | Every state of the counter's automaton has its entry, with the listed transitions. |
| CountWordsAndNumbers.CountPlus | src/tests/count_words_and_numbers.rs:42-50 | Counting an effect after a sum is counting it in the second summand. |
| CountWordsAndNumbers.TallyAppend | src/tests/count_words_and_numbers.rs:59-64 | The counts of two consecutive effect sequences add up. |
| CountWordsAndNumbers.Counter.constructor | src/tests/count_words_and_numbers.rs:80-85 | A new counter starts at zero words and zero numbers. |
| CountWordsAndNumbers.Counter.IncrementWordCount | src/tests/count_words_and_numbers.rs:43-45 | Adds one to the word count and leaves the number count alone. |
| CountWordsAndNumbers.Counter.IncrementNumberCount | src/tests/count_words_and_numbers.rs:47-49 | Adds one to the number count and leaves the word count alone. |
| CountWordsAndNumbers.Counter.Dispatch | src/tests/count_words_and_numbers.rs:59-64 | The counter's data moves as Count says for that effect. |
| CountWordsAndNumbers.Counter.ClearState | src/tests/count_words_and_numbers.rs:73-76 | Both counts return to zero. |
| CountWordsAndNumbers.Counter.Receive | src/fsm.rs:121-129 | After a run's dispatches, the counter holds its old data plus the tally of the fired effects. |
| CountWordsAndNumbers.CounterEffects | src/tests/count_words_and_numbers.rs:88-166 | The effect of each transition of the counter's table: a word is counted on entering WORD from elsewhere, and a number on entering NUMBER_IP from INIT or WORD. |
| CountWordsAndNumbers.OutgoingStep | src/tests/count_words_and_numbers.rs:88-166 | Some transition of every state accepts every character. The first one goes to Next and carries Increment's effect. |
| CountWordsAndNumbers.CounterStep | src/tests/count_words_and_numbers.rs:79-172 | The same, read from the machine's table. |
| CountWordsAndNumbers.CountFromRun | src/tests/count_words_and_numbers.rs:79-172 | Every run from any position succeeds. The counts of the effects it fires are CountFrom's. |
| CountWordsAndNumbers.TallyFire | src/fsm.rs:121-129 | Dispatching an effect before a log adds its count to that log's tally. |
| CountWordsAndNumbers.CountFromWords | src/tests/count_words_and_numbers.rs:107-123 | The words counted from position i, plus the words of the prefix before i, are the words of the whole text, when WORD at i means the prefix ends in a letter. |
| CountWordsAndNumbers.CountsWords | src/tests/count_words_and_numbers.rs:107-123 | The word count the counter reaches on any text equals the number of that text's maximal letter runs. |
| CountWordsAndNumbers.PlusCount | src/tests/count_words_and_numbers.rs:42-50 | Counting an effect commutes with adding counts. |
| CountWordsAndNumbers.ProgressFrom | src/tests/count_words_and_numbers.rs:79-172 | The state and counts after a prefix, combined with the counts from there on, give the counts of the whole text. |
| CountWordsAndNumbers.ProgressIsCountFrom | src/tests/count_words_and_numbers.rs:79-172 | The left-to-right state and counts agree with the run's. |
| CountWordsAndNumbers.RunCounts | src/tests/count_words_and_numbers.rs:79-172 | Every run of the counter's machine succeeds. It counts exactly what Progress computes. |
| CountWordsAndNumbers.ProgressConcat | src/tests/count_words_and_numbers.rs:79-172 | A text cut where the machine is back in INIT counts as the sum of its parts. |
| CountWordsAndNumbers.ProgressOfFirstPieces | src/tests/count_words_and_numbers.rs:178-218 | The counts of the pieces of the first two test texts. |
| CountWordsAndNumbers.ProgressOfThirdPieces | src/tests/count_words_and_numbers.rs:220-239 | The counts of the first pieces of the third test text. |
| CountWordsAndNumbers.ProgressOfLastPieces | src/tests/count_words_and_numbers.rs:220-239 | The counts of the last pieces of the third test text. |
| CountWordsAndNumbers.CountsOfFirstTexts | src/tests/count_words_and_numbers.rs:178-218 | "the123fox jumps,,,," has 3 words and 1 number. "!@#..,.?" has none of either. |
| CountWordsAndNumbers.ProgressPrefix7 | src/tests/count_words_and_numbers.rs:220-239 | The prefix of the third text up to "of " has 7 words and 2 numbers. |
| CountWordsAndNumbers.CountsOfThirdText | src/tests/count_words_and_numbers.rs:220-239 | "Add 1.5 pinches of salt and 2 cups of water!" has 8 words and 2 numbers. |
| CountWordsAndNumbers.SetupFsm | src/tests/count_words_and_numbers.rs:79-172 | Builds the counter's machine, starting in INIT, with no post-effect. |
| CountWordsAndNumbers.CountText | src/tests/count_words_and_numbers.rs:178-197 | One test block: the run passes, the counter reads Progress's counts, and clear_state resets it. |
| CountWordsAndNumbers.ItCountsNumbersAndWordsCorrectly | src/tests/count_words_and_numbers.rs:174-240 | All three blocks pass, with counts (3, 1), (0, 0) and (8, 2). |
| FloatNumbers.Outgoing | src/tests/float_numbers.rs:20-121 | Definition of each state's transition list in the validator's table, in the source's order. |
| FloatNumbers.FloatTable | src/tests/float_numbers.rs:20-121 | Definition of the validator's table, every state with its list. |
| FloatNumbers.Next | src/tests/float_numbers.rs:20-121 | Reference definition of the successor state by character, none where no transition matches. OutgoingStep proves the table follows it. |
| FloatNumbers.FloatTableAt | src/tests/float_numbers.rs:20-121 | Every state of the validator has its entry, with the listed transitions. |
| FloatNumbers.SetupFsm | src/tests/float_numbers.rs:20-121 | Builds the validator starting in INIT, with no post-effect. |
| FloatNumbers.FloatWellFormed | src/tests/float_numbers.rs:20-121 | INIT is registered, every target is registered and no transition has an effect. |
| FloatNumbers.OutgoingStep | src/tests/float_numbers.rs:20-121 | A state accepts a character exactly when Next has a successor for it, and then moves to that successor. |
| FloatNumbers.WalkCons | src/tests/float_numbers.rs:20-121 | Consuming a character and then a string follows Next one character at a time. |
| FloatNumbers.WalkFractionPart | src/tests/float_numbers.rs:20-121 | From FRACTION_PART exactly strings of digits are consumed. |
| FloatNumbers.WalkZero | src/tests/float_numbers.rs:20-121 | From ZERO exactly the empty string, or a point followed by digits, is consumed. |
| FloatNumbers.AllDigitsCons | src/tests/float_numbers.rs:20-121 | A non-empty string is all digits exactly when its head is a digit and its tail is all digits. |
| FloatNumbers.AfterNonZeroCons | src/tests/float_numbers.rs:20-121 | A non-empty string can follow a non-zero digit exactly when its head is a digit followed by such a string, or a point followed by digits. |
| FloatNumbers.WalkIntegerPart | src/tests/float_numbers.rs:20-121 | From INTEGER_PART exactly digits, optionally followed by a point and digits, are consumed. |
| FloatNumbers.WalkSign | src/tests/float_numbers.rs:20-121 | From SIGN exactly the prefixes of unsigned numbers are consumed. |
| FloatNumbers.WalkInit | src/tests/float_numbers.rs:20-121 | From INIT exactly the prefixes of (optionally signed) decimal numbers without a leading zero are consumed. |
| FloatNumbers.FloatAccepts | src/tests/float_numbers.rs:20-121 | proceed accepts a string exactly when it is such a prefix, and it never dispatches anything. |
| FloatNumbers.FloatRejectsAt | src/tests/float_numbers.rs:20-121 | A string fails at the first position where Next has no successor. The prefix before that position is a valid prefix, and adding that character makes it invalid. |
| FloatNumbers.FloatTestIntegers | src/tests/float_numbers.rs:127-166 | "0", "12345", "+12345" and "-12345" are accepted. |
| FloatNumbers.FloatTestFractions | src/tests/float_numbers.rs:167-196 | "12345.9876" is accepted, with either sign and without one. |
| FloatNumbers.FloatTestZeroFractions | src/tests/float_numbers.rs:197-225 | "0.12345" is accepted, with either sign and without one. |
| FloatNumbers.RejectedFromInit | src/tests/float_numbers.rs:233-243 | "w1234" fails in INIT at position 0 on 'w'. |
| FloatNumbers.RejectedFromSign | src/tests/float_numbers.rs:246-256 | "++1234" fails in SIGN at position 1 on '+'. |
| FloatNumbers.RejectedFromIntegerPart | src/tests/float_numbers.rs:259-269 | "1110b" fails in INTEGER_PART at position 4 on 'b'. |
| FloatNumbers.RejectedFromZero | src/tests/float_numbers.rs:272-282 | "001234" fails in ZERO at position 1 on '0'. |
| FloatNumbers.RejectedFromFractionPart | src/tests/float_numbers.rs:285-295 | "12..0126" fails in FRACTION_PART at position 3 on '.'. |
| FloatNumbers.InvalidStringIgnoresPosition | src/tests/utils.rs:41-48 | "w1234" fails at a position other than 3 and on a character other than 'x', so test_invalid_string as written would pass even with those arguments. |
| FloatNumbers.ItValidatesFloatNumbers | src/tests/float_numbers.rs:123-226 | Every string of the test passes test_valid_string. |
| FloatNumbers.ItInvalidatesIncorrectString | src/tests/float_numbers.rs:228-295 | Every string of the test fails at the stated position on the stated character. |
| SplitWords.Store.constructor | src/tests/split_into_words_and_count_sum.rs:32-40 | A new store has no words and an empty word buffer. |
| SplitWords.Store.PushToWordbuff | src/tests/split_into_words_and_count_sum.rs:50-52 | Appends the character to the word buffer. |
| SplitWords.Store.AcceptWordbuffer | src/tests/split_into_words_and_count_sum.rs:54-58 | Appends the buffer as a word, even an empty one, and clears the buffer. |
| SplitWords.Store.CleanupBuffers | src/tests/split_into_words_and_count_sum.rs:81-90 | Appends the buffer as a word only when it is non-empty, and clears it. |
| SplitWords.Store.ApplyEffect | src/tests/split_into_words_and_count_sum.rs:92-102 | The store's words change as Apply says for that basic effect and character. |
| SplitWords.Store.Dispatch | src/tests/split_into_words_and_count_sum.rs:105-113 | Applies the first basic effect, then the second one if present, with the same data. |
| SplitWords.Store.Receive | src/fsm.rs:121-129 | After a run's dispatches, the store holds the replay of the fired effects over its old contents. |
| SplitWords.Apply | src/tests/split_into_words_and_count_sum.rs:92-102 | Definition of what one basic effect does to the words and the word buffer. The number effects leave both unchanged. Store.ApplyEffect is proved to follow it. |
| SplitWords.ApplyPair | src/tests/split_into_words_and_count_sum.rs:105-113 | Definition of dispatch on the word side: the first basic effect, then the optional second one. |
| SplitWords.Replay | src/tests/split_into_words_and_count_sum.rs:105-113 | Definition of the store's word side after a sequence of fired effects. Store.Receive and SplitIntoWords are stated with it. |
| SplitWords.SetupEffects | src/tests/split_into_words_and_count_sum.rs:115-215 | Definition of setup_effects: the one-effect list of each connection. SetupEffectsAt lists its entries. |
| SplitWords.SetupEffectsAt | src/tests/split_into_words_and_count_sum.rs:115-215 | The effects map has an entry for a connection exactly when EffectOn gives it an effect, and that entry holds that one effect. |
| SplitWords.SetupEffectsMerge | src/tests/automatas/words_and_numbers.rs:106-110 | Merging this map into the automaton succeeds, as init_fsm asserts. |
| SplitWords.SetupEntry | src/tests/split_into_words_and_count_sum.rs:115-215 | Each entry names existing states and exactly one transition, for its one effect. |
| SplitWords.SplitStep | src/tests/split_into_words_and_count_sum.rs:115-215 | One character moves the machine as the automaton does, and fires the effect of the connection taken, if any. |
| SplitWords.SplitSelect | src/tests/split_into_words_and_count_sum.rs:115-215 | Every state accepts every character and moves to Next. |
| SplitWords.SplitEffect | src/tests/split_into_words_and_count_sum.rs:115-215 | Each transition of the merged table carries its connection's effect. |
| SplitWords.StoreStep | src/tests/split_into_words_and_count_sum.rs:105-113 | After one more character, the store still holds the runs of letters read so far. |
| SplitWords.WalkStore | src/tests/split_into_words_and_count_sum.rs:115-215 | Along any prefix of the text, the walk never gets stuck. The store's words, with the open word when in WORD, are the prefix's runs of letters. |
| SplitWords.ReplayAppend | src/tests/split_into_words_and_count_sum.rs:105-113 | Replaying two effect sequences in a row is replaying their concatenation. |
| SplitWords.SplitIntoWords | src/tests/split_into_words_and_count_sum.rs:217-285 | For every text the run succeeds. After the post-effect, the store holds exactly the text's maximal runs of letters, in order, and an empty buffer. |
| SplitWords.SplitRunOk | src/tests/split_into_words_and_count_sum.rs:217-285 | Every run of the merged machine succeeds. |
| SplitWords.SplitRunFired | src/fsm.rs:156-164 | The fired effects are the walk's, followed by the post-effect CleanupBuffers. |
| SplitWords.ReplayPost | src/tests/split_into_words_and_count_sum.rs:81-90 | Replaying the post-effect cleans up the buffer. |
| SplitWords.TestTextRuns | src/tests/split_into_words_and_count_sum.rs:217-285 | The three test texts have the words ["the", "quick", "brown", "fox", "uw"], [] and ["go"]. |
| SplitWords.RunsGo | src/tests/split_into_words_and_count_sum.rs:268-281 | The only word of "1, 2, 2.5, 3 - go!" is "go". |
| SplitWords.CollectWords | src/tests/split_into_words_and_count_sum.rs:217-243 | One test block: a fresh store, then the run passes and the store's words are the text's runs of letters. |
| SplitWords.ItWorksCorrectly | src/tests/split_into_words_and_count_sum.rs:217-285 | All three blocks pass, with the expected word lists. |

## Left out

- Floating point:
  - The number side of the splitting store is not modelled: push_to_numbuffer, accept_numbuffer, numbers_sum, number_buffer and precision_buffer, and the f64 sums of the test.
  - Its number effects are modelled as leaving the words and the word buffer unchanged, which is what they do to them.
- Context files not modelled:
  - src/tests.rs and src/tests/mod.rs are older copies of the tests, written against an earlier API.
  - src/tests/split_into_words.rs is the older variant of the splitting test.
  - src/macros.rs (`map!`) is modelled by map displays.
  - src/lib.rs only declares modules.
- Test output and Rust-only features:
  - The `println!` output and `Debug` formatting of errors are not modelled.
  - Lifetimes, `Box`/`dyn`, and the `Copy`/`Hash` bounds have no counterpart.
- The effector:
  - `Effector` cannot be an open interface here.
  - Proceed returns the ordered list of dispatch calls instead of calling an object.
  - `Counter` and `Store` apply such a list with `Receive`, one call at a time, in the order proceed makes them.
- `StreamData.string` is the string itself, not a reference to it.
- Fsm.FSM.Proceed: the post-effect's index is the number of characters. The source uses `string.len()`, a byte length, which differs for non-ASCII text. Strings are sequences of characters here.
- Integer width:
  - Positions and counters are unbounded naturals, so usize overflow of `char_id`, `eff_counter` and the counts is not modelled.
- Fsm.FSM.MergeEffects:
  - The order in which a HashMap visits its entries is unspecified. The method picks any remaining key, and MergeOrderIrrelevant proves the outcome on success independent of that choice. Which entry's error is reported on failure does depend on the order, as in the source.
  - `effects[eff_counter]` panics when a list is shorter than the number of matching transitions. That panic is modelled as the precondition EffectsFit, and the panic itself is not modelled.
- WordsAndNumbers.InitFsm:
  - init_fsm asserts that FSM::new succeeds, and that merge_effects succeeds when given a map. Those asserts become the precondition MergeSucceeds. The failing asserts are not modelled.
  - init_fsm declares one parameter and calls FSM::new without a post-effect. The splitting test calls it with a post-effect as a second argument. The model takes both arguments, as the test uses it.
- CountWordsAndNumbers:
  - count_words_and_numbers.rs is written against an older API. There, `FSM` has a third type parameter, `FSM::new` takes the counter as its third argument, and `dispatch` receives no stream data.
  - The model uses the current API: no post-effect, and the counter acts as the effector of each run. The counter ignores the stream data.
  - The old `fsm.effector()` accessor is replaced by holding the counter directly.
  - Counter.Data: the old `state()` accessor becomes a function of the counter's fields.
- FloatNumbers.SetupFsm: the source calls FSM::new with two arguments. The model passes no post-effect.

## Findings

| source | as written | input that shows it | evidently intended | confidence | as-written member | corrected member |
|---|---|---|---|---|---|---|
| src/tests/utils.rs:41-48 | The `matches!` pattern `StreamData { index, character, .. }` binds new variables named `index` and `character` instead of comparing with the arguments, so any NoValidTransition error passes | proceed on "w1234" with the float validator fails at index 0 on 'w', yet test_invalid_string(&fsm, "w1234", 3, 'x', None) passes | pass only when the error is at `index` on `character` | not executed | TestUtils.TestInvalidString | TestUtils.TestInvalidStringAt |
