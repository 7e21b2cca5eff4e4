/** The finite state machine with side effects (a Mealy automaton): an
    initial state, a transition table that `MergeEffects` may rewrite in
    place, and an optional post-effect dispatched after the last character. */
module Fsm {
  import opened Types
  import opened Errors
  import opened FsmRun
  import opened FsmMerge

  class FSM<S(==), Eff> {
    /** State at the beginning of every run. */
    const initialState: S
    /** Every state's outgoing transitions, in the order they are tried. */
    var transitionTable: Table<S, Eff>
    /** Side effect dispatched after the last character, if any. */
    const postEffect: Option<Eff>

    /** What `New` guarantees: the initial state has an entry. */
    ghost predicate Valid()
      reads this
    {
      initialState in transitionTable
    }

    constructor Init(initialState: S, transitionTable: Table<S, Eff>, postEffect: Option<Eff>)
      ensures this.initialState == initialState
      ensures this.transitionTable == transitionTable
      ensures this.postEffect == postEffect
    {
      this.initialState := initialState;
      this.transitionTable := transitionTable;
      this.postEffect := postEffect;
    }

    /** Builds a machine; fails exactly when the initial state has no entry
        in the table. */
    static method New(initialState: S, transitionTable: Table<S, Eff>, postEffect: Option<Eff>)
      returns (r: Result<FSM<S, Eff>, FSMError<S>>)
      ensures r.Err? <==> initialState !in transitionTable
      ensures r.Err? ==> r.error == StateDoesNotExist(initialState)
      ensures r.Ok? ==> fresh(r.value) && r.value.Valid()
      ensures r.Ok? ==>
        && r.value.initialState == initialState
        && r.value.transitionTable == transitionTable
        && r.value.postEffect == postEffect
    {
      if initialState !in transitionTable {
        r := Err(StateDoesNotExist(initialState));
      } else {
        var m := new FSM.Init(initialState, transitionTable, postEffect);
        r := Ok(m);
      }
    }

    /** Merges the effect lists of `effectsMap` into the table, one
        connection at a time in an unspecified order (any key still to be
        processed may come next); `order` is the order taken, ending with
        the failing connection on failure. The outcome is that of processing
        the entries in that order. On success every connection has been
        merged; on failure the table holds the merge of the connections
        processed before the failing one, and the error is that
        connection's. Only effects ever change, so a valid machine stays
        valid. */
    method MergeEffects(effectsMap: EffectsMap<S, Eff>)
      returns (result: Result<(), FSMError<S>>, ghost applied: set<StatesConnection<S>>, ghost order: seq<StatesConnection<S>>)
      requires EffectsFit(transitionTable, effectsMap)
      modifies this
      ensures Distinct(order) && forall c :: c in order ==> c in effectsMap
      ensures (result, transitionTable) == MergeInOrder(old(transitionTable), effectsMap, order)
      ensures result.Ok? ==> forall c :: c in effectsMap <==> c in order
      ensures Mergeable(old(transitionTable), effectsMap, applied)
      ensures transitionTable == Merged(old(transitionTable), effectsMap, applied)
      ensures SameShape(old(transitionTable), transitionTable)
      ensures old(Valid()) ==> Valid()
      ensures forall c :: c in applied ==> EntryError(old(transitionTable), c).None?
      ensures result.Ok? <==> forall c :: c in effectsMap ==> EntryError(old(transitionTable), c).None?
      ensures result.Ok? ==> applied == effectsMap.Keys
      ensures result.Err? ==> exists c :: c in effectsMap && c !in applied && EntryError(old(transitionTable), c) == Some(result.error)
    {
      ghost var table0 := transitionTable;
      var remaining := effectsMap.Keys;
      applied := {};
      order := [];
      MergedNothing(table0, effectsMap);
      while remaining != {}
        invariant remaining !! applied && remaining + applied == effectsMap.Keys
        invariant forall c :: c in applied ==> EntryError(table0, c).None?
        invariant Mergeable(table0, effectsMap, applied)
        invariant transitionTable == Merged(table0, effectsMap, applied)
        invariant Distinct(order) && forall c :: c in order <==> c in applied
        invariant MergeInOrder(table0, effectsMap, order) == (Ok(()), transitionTable)
        decreases remaining
      {
        var conn :| conn in remaining;
        MergeNext(table0, effectsMap, applied, order, conn);
        ghost var order' := order + [conn];
        var entry := MergeEntry(effectsMap, conn);
        if entry.Err? {
          return entry, applied, order';
        }
        remaining := remaining - {conn};
        applied := applied + {conn};
        order := order';
      }
      MergedShape(table0, effectsMap, applied);
      result := Ok(());
    }

    /** The body of merge_effects's loop for one entry: the destination
        must exist, then the source, then the effects are assigned, and at
        least one transition must have taken one. */
    method MergeEntry(effectsMap: EffectsMap<S, Eff>, conn: StatesConnection<S>) returns (r: Result<(), FSMError<S>>)
      requires EffectsFit(transitionTable, effectsMap) && conn in effectsMap
      modifies this
      ensures (r, transitionTable) == MergeOne(old(transitionTable), effectsMap, conn)
    {
      if conn.to !in transitionTable {
        return Err(StateDoesNotExist(conn.to));
      }
      if conn.from !in transitionTable {
        return Err(StateDoesNotExist(conn.from));
      }
      var effects := effectsMap[conn];
      ghost var ts := transitionTable[conn.from];
      var effCounter := AssignEffects(conn, effects);
      if effCounter == 0 {
        AssignNothing(ts, conn.to, effects);
        assert old(transitionTable)[conn.from := ts] == old(transitionTable);
        return Err(TransDoesNotExist(conn));
      }
      r := Ok(());
    }

    /** The inner loop of merge_effects for one connection: walks the
        transitions of `conn.from` front to back and gives the k-th one
        leading to `conn.to` the effect effects[k]. Returns how many there
        were. */
    method AssignEffects(conn: StatesConnection<S>, effects: seq<Eff>) returns (effCounter: nat)
      requires conn.from in transitionTable
      requires CountTo(transitionTable[conn.from], conn.to) <= |effects|
      modifies this
      ensures effCounter == CountTo(old(transitionTable[conn.from]), conn.to)
      ensures transitionTable == old(transitionTable)[conn.from := Assign(old(transitionTable[conn.from]), conn.to, effects)]
    {
      ghost var ts := transitionTable[conn.from];
      var transitions := transitionTable[conn.from];
      effCounter := 0;
      var i := 0;
      assert ts[..0] == [] && ts[0..] == ts;
      assert Assign(ts[..0], conn.to, effects) + ts[0..] == ts;
      while i < |transitions|
        invariant 0 <= i <= |ts| == |transitions|
        invariant transitionTable == old(transitionTable)
        invariant effCounter == CountTo(ts[..i], conn.to) <= |effects|
        invariant transitions == Assign(ts[..i], conn.to, effects) + ts[i..]
      {
        AssignStep(ts, i, conn.to, effects);
        var trans := transitions[i];
        if conn.to == trans.to {
          transitions := transitions[i := trans.(effect := Some(effects[effCounter]))];
          effCounter := effCounter + 1;
        }
        i := i + 1;
      }
      assert ts[..i] == ts && ts[i..] == [];
      assert Assign(ts, conn.to, effects) + [] == Assign(ts, conn.to, effects);
      assert transitions == Assign(ts, conn.to, effects);
      transitionTable := transitionTable[conn.from := transitions];
    }

    /** Runs `s` through the machine. The outcome and the effector's calls
        (when `withEffector`; none otherwise) are those of `Run` on the
        current table: the first matching transition is taken at every
        character, and the post-effect is dispatched only after a run that
        consumed the whole input. */
    method Proceed(s: string, withEffector: bool) returns (result: Result<(), FSMError<S>>, log: seq<Dispatch<Eff>>)
      ensures (result, log) == Run(transitionTable, initialState, postEffect, s, withEffector)
    {
      var currState := initialState;
      var charId := 0;
      log := [];
      assert log + Run(transitionTable, initialState, postEffect, s, withEffector).1
        == Run(transitionTable, initialState, postEffect, s, withEffector).1;
      while charId < |s|
        invariant charId <= |s|
        invariant Run(transitionTable, initialState, postEffect, s, withEffector)
          == (RunFrom(transitionTable, postEffect, s, currState, charId, withEffector).0,
              log + RunFrom(transitionTable, postEffect, s, currState, charId, withEffector).1)
      {
        var ch := s[charId];
        if currState !in transitionTable {
          assert log + [] == log;
          return Err(StateDoesNotExist(currState)), log;
        }
        var transitions := transitionTable[currState];
        ghost var from := currState;
        ghost var logBefore := log;
        var found, next, effect := FirstMatch(transitions, ch);
        if found.None? {
          RunFromStuck(transitionTable, postEffect, s, currState, charId, withEffector);
          assert log + [] == log;
          return Err(NoValidTransition(currState, StreamData(s, charId, ch))), log;
        }
        currState := next.value;
        if withEffector && effect.Some? {
          log := log + [Dispatch(effect.value, StreamData(s, charId, ch))];
        }
        assert log == logBefore + Fire(withEffector, effect, StreamData(s, charId, ch));
        RunFromTake(transitionTable, postEffect, s, from, charId, withEffector, found.value);
        ghost var rest := RunFrom(transitionTable, postEffect, s, currState, charId + 1, withEffector);
        assert logBefore + (log[|logBefore|..] + rest.1) == log + rest.1;
        charId := charId + 1;
      }
      if withEffector && postEffect.Some? {
        log := log + [Dispatch(postEffect.value, StreamData(s, |s|, '\0'))];
      }
      result := Ok(());
      assert result.value == ();
    }

    /** The inner loop of proceed: tries the transitions in list order and
        stops at the first whose condition accepts `ch`, returning its
        position, its target and its effect. */
    static method FirstMatch(transitions: seq<Transition<S, Eff>>, ch: char)
      returns (found: Option<nat>, next: Option<S>, effect: Option<Eff>)
      ensures found == Select(transitions, ch)
      ensures found.None? ==> next.None? && effect.None?
      ensures found.Some? ==> next == Some(transitions[found.value].to) && effect == transitions[found.value].effect
    {
      var j := 0;
      while j < |transitions|
        invariant j <= |transitions|
        invariant forall k :: 0 <= k < j ==> !Matches(transitions[k], ch)
      {
        var step := Transit(transitions[j], ch);
        if step.0.Some? {
          SelectFirst(transitions, j, ch);
          return Some(j), step.0, step.1;
        }
        j := j + 1;
      }
      return None, None, None;
    }
  }
}
