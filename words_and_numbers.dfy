/** The words-and-numbers automaton shared by the effector tests: letters
    lead to WORD, digits to NUMBER_IP (or stay in NUMBER_FP), a point after
    integer digits leads to NUMBER_FP, and anything else falls back to INIT.
    `InitFsm` builds it and optionally merges effects into it. */
module WordsAndNumbers {
  import opened Types
  import opened Errors
  import opened FsmRun
  import opened FsmMerge
  import opened Fsm
  import opened TestUtils

  datatype State = Init | Word | NumberIp | NumberFp

  /** The condition of the NUMBER_IP -> NUMBER_FP transition. */
  predicate IsPoint(ch: char) {
    ch == '.'
  }

  /** The transitions of `st` in the table of `init_fsm`, without effects;
      every list ends with an unconditional transition to INIT. */
  function Outgoing<Eff>(st: State): seq<Transition<State, Eff>> {
    match st
    case Init => [
      Transition(Word, Some(IsLetter), None),
      Transition(NumberIp, Some(IsDigit), None),
      Transition(Init, None, None)]
    case Word => [
      Transition(Word, Some(IsLetter), None),
      Transition(NumberIp, Some(IsDigit), None),
      Transition(Init, None, None)]
    case NumberIp => [
      Transition(Word, Some(IsLetter), None),
      Transition(NumberIp, Some(IsDigit), None),
      Transition(NumberFp, Some(IsPoint), None),
      Transition(Init, None, None)]
    case NumberFp => [
      Transition(Word, Some(IsLetter), None),
      Transition(NumberFp, Some(IsDigit), None),
      Transition(Init, None, None)]
  }

  /** The table of `init_fsm`: every state is registered. */
  function WordsTable<Eff>(): Table<State, Eff> {
    map[Init := Outgoing(Init), Word := Outgoing(Word), NumberIp := Outgoing(NumberIp), NumberFp := Outgoing(NumberFp)]
  }

  lemma WordsTableAt<Eff>(st: State)
    ensures st in WordsTable<Eff>() && WordsTable<Eff>()[st] == Outgoing(st)
  {
    match st
    case Init =>
    case Word =>
    case NumberIp =>
    case NumberFp =>
  }

  /** The state the automaton moves to from `st` on `ch`. */
  function Next(st: State, ch: char): State {
    if IsLetter(ch) then Word
    else if IsDigit(ch) then (if st == NumberFp then NumberFp else NumberIp)
    else if IsPoint(ch) && st == NumberIp then NumberFp
    else Init
  }

  /** `init_fsm(effects_map, post_effect)`: builds the machine, which cannot
      fail, and merges `effectsMap` when there is one. The source asserts
      that both steps succeed; that is the precondition here. */
  method InitFsm<Eff>(effectsMap: Option<EffectsMap<State, Eff>>, postEffect: Option<Eff>) returns (fsm: FSM<State, Eff>)
    requires effectsMap.Some? ==> MergeSucceeds(WordsTable(), effectsMap.value)
    ensures fresh(fsm) && fsm.initialState == Init && fsm.postEffect == postEffect
    ensures effectsMap.None? ==> fsm.transitionTable == WordsTable()
    ensures effectsMap.Some? ==>
      && Mergeable(WordsTable(), effectsMap.value, effectsMap.value.Keys)
      && fsm.transitionTable == Merged(WordsTable(), effectsMap.value, effectsMap.value.Keys)
  {
    WordsTableAt<Eff>(Init);
    var r := FSM.New(Init, WordsTable(), postEffect);
    fsm := r.value;
    if effectsMap.Some? {
      var merged;
      ghost var applied, order;
      merged, applied, order := fsm.MergeEffects(effectsMap.value);
      assert merged.Ok?;
    }
  }

  /** Every entry of `effectsMap` merges without error into `table`, and
      every effect list is long enough. */
  ghost predicate MergeSucceeds<Eff>(table: Table<State, Eff>, effectsMap: EffectsMap<State, Eff>) {
    EffectsFit(table, effectsMap) && forall c :: c in effectsMap ==> EntryError(table, c).None?
  }

  // ---------------------------------------------------------------------
  // Properties of the table

  /** What holds of every state's list: it ends with an unconditional
      transition, no two of its transitions share a target, and none carries
      an effect. */
  ghost predicate OutgoingWellFormed<Eff>(st: State) {
    var ts := Outgoing<Eff>(st);
    && |ts| > 0 && ts[|ts| - 1].condition.None?
    && (forall i, j :: 0 <= i < j < |ts| ==> ts[i].to != ts[j].to)
    && (forall k :: 0 <= k < |ts| ==> ts[k].effect.None?)
  }

  lemma OutgoingFacts<Eff>(st: State)
    ensures OutgoingWellFormed<Eff>(st)
  {
    match st
    case Init =>
    case Word =>
    case NumberIp =>
    case NumberFp =>
  }

  /** Every list ends unconditionally and every target is registered
      (INIT included, so `FSM::new` succeeds). */
  lemma WordsTotal<Eff>()
    ensures Init in WordsTable<Eff>()
    ensures EndsUnconditional(WordsTable<Eff>()) && TargetsRegistered(WordsTable<Eff>())
  {
    forall st ensures st in WordsTable<Eff>() && WordsTable<Eff>()[st] == Outgoing(st) && OutgoingWellFormed<Eff>(st) {
      WordsTableAt<Eff>(st);
      OutgoingFacts<Eff>(st);
    }
  }

  /** No state has two transitions to the same target. */
  lemma WordsDistinct<Eff>()
    ensures TargetsDistinct(WordsTable<Eff>())
  {
    forall st ensures st in WordsTable<Eff>() && WordsTable<Eff>()[st] == Outgoing(st) && OutgoingWellFormed<Eff>(st) {
      WordsTableAt<Eff>(st);
      OutgoingFacts<Eff>(st);
    }
  }

  /** No transition carries an effect. */
  lemma WordsEffectFree<Eff>()
    ensures EffectFree(WordsTable<Eff>())
  {
    forall st ensures st in WordsTable<Eff>() && WordsTable<Eff>()[st] == Outgoing(st) && OutgoingWellFormed<Eff>(st) {
      WordsTableAt<Eff>(st);
      OutgoingFacts<Eff>(st);
    }
  }

  /** A table that differs from WordsTable in its effects at most, such as
      WordsTable with an effects map merged in. */
  ghost predicate WordsShaped<Eff>(table: Table<State, Eff>) {
    SameShape(WordsTable(), table)
  }

  /** Such a table has every state registered, every list ending
      unconditionally, and every target registered. */
  lemma WordsShapedFacts<Eff>(table: Table<State, Eff>)
    requires WordsShaped(table)
    ensures Init in table
    ensures EndsUnconditional(table) && TargetsRegistered(table)
  {
    WordsTableAt<Eff>(Init);
    forall st | st in table ensures |table[st]| > 0 && table[st][|table[st]| - 1].condition.None? {
      WordsTableAt<Eff>(st);
      OutgoingFacts<Eff>(st);
    }
    forall st, k | st in table && 0 <= k < |table[st]| ensures table[st][k].to in table {
      WordsTableAt<Eff>(st);
      WordsTableAt<Eff>(table[st][k].to);
    }
  }

  /** The transition taken from `st` on `ch`, in any table of this shape: a
      letter leads to WORD; a digit to NUMBER_IP, except that NUMBER_FP keeps
      digits; a point leads to NUMBER_FP from NUMBER_IP only; anything else
      to INIT. */
  lemma WordsStep<Eff>(table: Table<State, Eff>, st: State, ch: char)
    requires WordsShaped(table)
    ensures st in table && Select(table[st], ch).Some?
    ensures var to := table[st][Select(table[st], ch).value].to;
      && to == Next(st, ch)
      && (IsLetter(ch) ==> to == Word)
      && (IsDigit(ch) ==> to == if st == NumberFp then NumberFp else NumberIp)
      && (ch == '.' ==> to == if st == NumberIp then NumberFp else Init)
      && (!IsLetter(ch) && !IsDigit(ch) && ch != '.' ==> to == Init)
  {
    WordsTableAt<Eff>(st);
    var ts := Outgoing<Eff>(st);
    var k := if IsLetter(ch) then 0
      else if IsDigit(ch) then 1
      else if IsPoint(ch) && st == NumberIp then 2
      else |ts| - 1;
    assert Matches(ts[k], ch);
    forall j | 0 <= j < k ensures !Matches(table[st][j], ch) {
      assert !Matches(ts[j], ch);
    }
    SelectFirst(table[st], k, ch);
  }

  /** Runs over a table of this shape never fail: there is always a
      matching transition, and it leads to a registered state. */
  lemma WordsRunOk<Eff>(table: Table<State, Eff>, postEffect: Option<Eff>, s: string, withEffector: bool)
    requires WordsShaped(table)
    ensures Run(table, Init, postEffect, s, withEffector).0 == Ok(())
  {
    WordsShapedFacts(table);
    RunTotal(table, Init, postEffect, s, withEffector);
  }

  /** Without an effects map every run succeeds, and the only dispatch it
      can make is the post-effect, once, after the last character. */
  lemma WordsOnlyPostEffect<Eff>(postEffect: Option<Eff>, s: string, withEffector: bool)
    ensures Run(WordsTable(), Init, postEffect, s, withEffector).0 == Ok(())
    ensures Fired(Run(WordsTable(), Init, postEffect, s, withEffector).1)
      == if withEffector && postEffect.Some? then [(postEffect.value, '\0')] else []
  {
    assert Run(WordsTable(), Init, postEffect, s, withEffector).0 == Ok(()) by {
      WordsTotal<Eff>();
      RunTotal(WordsTable<Eff>(), Init, postEffect, s, withEffector);
    }
    WordsEffectFree<Eff>();
    RunEffectFree(WordsTable<Eff>(), Init, postEffect, s, withEffector);
  }

  /** After a successful merge each connection of the map is carried by
      exactly one transition, the one from its source to its target, with the
      first effect of its list; every other transition stays without effect. */
  lemma WordsMerged<Eff>(effectsMap: EffectsMap<State, Eff>, st: State, i: nat)
    requires MergeSucceeds(WordsTable(), effectsMap)
    requires i < |Outgoing<Eff>(st)|
    ensures Mergeable(WordsTable(), effectsMap, effectsMap.Keys)
    ensures var t := Outgoing<Eff>(st)[i];
      var c := StatesConnection(st, t.to);
      var m := Merged(WordsTable(), effectsMap, effectsMap.Keys);
      && st in m && i < |m[st]|
      && m[st][i].to == t.to && m[st][i].condition == t.condition
      && (c in effectsMap ==> |effectsMap[c]| > 0 && m[st][i].effect == Some(effectsMap[c][0]))
      && (c !in effectsMap ==> m[st][i].effect.None?)
  {
    WordsTableAt<Eff>(st);
    OutgoingFacts<Eff>(st);
    WordsDistinct<Eff>();
    MergedDistinct(WordsTable(), effectsMap, effectsMap.Keys, st, i);
  }
}
