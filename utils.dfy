/** Shared pieces of the test automata: the ASCII character classes and the
    two harnesses that run a string through a machine and check the outcome. */
module TestUtils {
  import opened Types
  import opened Errors
  import opened FsmRun
  import opened Fsm

  /** `is_letter`: an ASCII letter, upper or lower case. */
  predicate IsLetter(ch: char) {
    ('A' <= ch <= 'Z') || ('a' <= ch <= 'z')
  }

  /** `is_digit`: an ASCII decimal digit. */
  predicate IsDigit(ch: char) {
    '0' <= ch <= '9'
  }

  /** The two classes are disjoint, and neither holds of the characters the
      automata treat specially. */
  lemma ClassesDisjoint(ch: char)
    ensures !(IsLetter(ch) && IsDigit(ch))
    ensures IsLetter(ch) ==> ch != '.' && ch != ' ' && ch != '\0'
    ensures IsDigit(ch) ==> ch != '.' && ch != ' ' && ch != '\0'
  {
  }

  /** `test_valid_string`: runs `s` and passes exactly when the run is `Ok`.
      The effector's calls are returned as `log`. */
  method TestValidString<S(==), Eff>(fsm: FSM<S, Eff>, s: string, withEffector: bool) returns (passed: bool, log: seq<Dispatch<Eff>>)
    ensures passed <==> Run(fsm.transitionTable, fsm.initialState, fsm.postEffect, s, withEffector).0.Ok?
    ensures log == Run(fsm.transitionTable, fsm.initialState, fsm.postEffect, s, withEffector).1
  {
    var result;
    result, log := fsm.Proceed(s, withEffector);
    passed := result.Ok?;
  }

  /** `test_invalid_string` as written: it passes for every
      `NoValidTransition` error, whatever `index` and `character` say,
      because its pattern binds those names afresh instead of comparing
      them. */
  method TestInvalidString<S(==), Eff>(fsm: FSM<S, Eff>, s: string, index: nat, character: char, withEffector: bool)
    returns (passed: bool, log: seq<Dispatch<Eff>>)
    ensures var r := Run(fsm.transitionTable, fsm.initialState, fsm.postEffect, s, withEffector).0;
      passed <==> r.Err? && r.error.NoValidTransition?
    ensures log == Run(fsm.transitionTable, fsm.initialState, fsm.postEffect, s, withEffector).1
  {
    var result;
    result, log := fsm.Proceed(s, withEffector);
    passed := result.Err? && result.error.NoValidTransition?;
  }

  /** The check `test_invalid_string` is evidently meant to make: the run
      fails with `NoValidTransition` at position `index` on `character`. */
  method TestInvalidStringAt<S(==), Eff>(fsm: FSM<S, Eff>, s: string, index: nat, character: char, withEffector: bool)
    returns (passed: bool, log: seq<Dispatch<Eff>>)
    ensures var r := Run(fsm.transitionTable, fsm.initialState, fsm.postEffect, s, withEffector).0;
      passed <==> r.Err? && r.error.NoValidTransition? && r.error.inputData.index == index && r.error.inputData.character == character
    ensures log == Run(fsm.transitionTable, fsm.initialState, fsm.postEffect, s, withEffector).1
  {
    var result;
    result, log := fsm.Proceed(s, withEffector);
    passed := result.Err? && result.error.NoValidTransition?
      && result.error.inputData.index == index && result.error.inputData.character == character;
  }

  /** What the corrected check establishes about the string: the character
      at `index` is `character`, everything before it is consumed, and no
      transition of the state reached matches it. */
  lemma InvalidAtMeans<S, Eff>(table: Table<S, Eff>, initialState: S, postEffect: Option<Eff>, s: string, withEffector: bool, index: nat, character: char)
    requires var r := Run(table, initialState, postEffect, s, withEffector).0;
      r.Err? && r.error.NoValidTransition? && r.error.inputData.index == index && r.error.inputData.character == character
    ensures index < |s| && s[index] == character
    ensures Walk(table, initialState, s[..index]).state.Some?
    ensures var from := Walk(table, initialState, s[..index]).state.value;
      from in table && Select(table[from], character).None?
  {
    var r := Run(table, initialState, postEffect, s, withEffector).0;
    RunFromRejects(table, postEffect, s, initialState, 0, withEffector, r.error.from, r.error.inputData);
    assert s[0..index] == s[..index];
  }
}
