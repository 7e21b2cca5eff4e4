/** What running a string through a machine means: which transition is taken
    at each character, which effects are dispatched and how a run fails.
    `Run` is the specification that `FSM.Proceed` is proved to compute. */
module FsmRun {
  import opened Types
  import opened Errors

  /** Index of the first transition in `ts` that matches `ch`, if any: list
      order decides between transitions that match the same character. */
  function Select<S, Eff>(ts: seq<Transition<S, Eff>>, ch: char): (r: Option<nat>)
    ensures r.Some? ==> r.value < |ts| && Matches(ts[r.value], ch)
    ensures r.Some? ==> forall j :: 0 <= j < r.value ==> !Matches(ts[j], ch)
    ensures r.None? <==> forall j :: 0 <= j < |ts| ==> !Matches(ts[j], ch)
  {
    if ts == [] then None
    else if Matches(ts[0], ch) then Some(0)
    else match Select(ts[1..], ch)
      case None => None
      case Some(k) => Some(k + 1)
  }

  /** The transition Select picks is the first one that matches. */
  lemma SelectFirst<S, Eff>(ts: seq<Transition<S, Eff>>, k: nat, ch: char)
    requires k < |ts| && Matches(ts[k], ch)
    requires forall j :: 0 <= j < k ==> !Matches(ts[j], ch)
    ensures Select(ts, ch) == Some(k)
  {
    assert Select(ts, ch).Some?;
  }

  /** The dispatch of effect `e` of the transition taken at position `i`, if
      there is an effector and an effect. */
  function Fire<Eff>(withEffector: bool, e: Option<Eff>, data: StreamData): seq<Dispatch<Eff>> {
    if withEffector && e.Some? then [Dispatch(e.value, data)] else []
  }

  /** The rest of a run of `s` that is in state `state` before character `i`:
      its outcome and the dispatch calls it makes, in order. Calls made before
      a failure stay made. After the last character the post-effect is
      dispatched with index |s| and the character '\0'; the state reached
      last is not checked. */
  function RunFrom<S, Eff>(table: Table<S, Eff>, postEffect: Option<Eff>, s: string, state: S, i: nat, withEffector: bool)
    : (Result<(), FSMError<S>>, seq<Dispatch<Eff>>)
    requires i <= |s|
    decreases |s| - i
  {
    if i == |s| then
      (Ok(()), Fire(withEffector, postEffect, StreamData(s, |s|, '\0')))
    else if state !in table then
      (Err(StateDoesNotExist(state)), [])
    else
      match Select(table[state], s[i])
      case None => (Err(NoValidTransition(state, StreamData(s, i, s[i]))), [])
      case Some(k) =>
        var step := Transit(table[state][k], s[i]);
        var rest := RunFrom(table, postEffect, s, step.0.value, i + 1, withEffector);
        (rest.0, Fire(withEffector, step.1, StreamData(s, i, s[i])) + rest.1)
  }

  /** A whole run of `s` from `initialState`. */
  function Run<S, Eff>(table: Table<S, Eff>, initialState: S, postEffect: Option<Eff>, s: string, withEffector: bool)
    : (Result<(), FSMError<S>>, seq<Dispatch<Eff>>)
  {
    RunFrom(table, postEffect, s, initialState, 0, withEffector)
  }

  /** The outcome of consuming `w`: the state reached (None if the walk got
      stuck or met an unregistered state) and the effects of the transitions
      taken, each with its character. */
  datatype Walked<S, Eff> = Walked(state: Option<S>, fired: seq<(Eff, char)>)

  /** Feeding `w` to the table from `state`, without positions, so that walks
      compose (see WalkAppend). */
  function Walk<S, Eff>(table: Table<S, Eff>, state: S, w: string): Walked<S, Eff>
    decreases |w|
  {
    if w == [] then Walked(Some(state), [])
    else
      match Step(table, state, w[0])
      case None => Walked(None, [])
      case Some(next) =>
        var rest := Walk(table, next.0, w[1..]);
        Walked(rest.state, next.1 + rest.fired)
  }

  /** Consuming one character `ch` from `state`: the target of the first
      matching transition and its effect with `ch`, if it has one. */
  function Step<S, Eff>(table: Table<S, Eff>, state: S, ch: char): Option<(S, seq<(Eff, char)>)> {
    if state !in table then None
    else
      match Select(table[state], ch)
      case None => None
      case Some(k) =>
        var t := table[state][k];
        Some((t.to, if t.effect.Some? then [(t.effect.value, ch)] else []))
  }

  /** The effects and characters of a sequence of dispatch calls. */
  function Fired<Eff>(log: seq<Dispatch<Eff>>): seq<(Eff, char)> {
    if log == [] then [] else [(log[0].effect, log[0].inputData.character)] + Fired(log[1..])
  }

  /** One character of a run on which a transition is taken. */
  lemma RunFromTake<S, Eff>(table: Table<S, Eff>, postEffect: Option<Eff>, s: string, state: S, i: nat, withEffector: bool, k: nat)
    requires i < |s| && state in table && Select(table[state], s[i]) == Some(k)
    ensures var t := table[state][k];
      var rest := RunFrom(table, postEffect, s, t.to, i + 1, withEffector);
      RunFrom(table, postEffect, s, state, i, withEffector) == (rest.0, Fire(withEffector, t.effect, StreamData(s, i, s[i])) + rest.1)
  {
  }

  /** One character of a run on which no transition matches. */
  lemma RunFromStuck<S, Eff>(table: Table<S, Eff>, postEffect: Option<Eff>, s: string, state: S, i: nat, withEffector: bool)
    requires i < |s| && state in table && Select(table[state], s[i]).None?
    ensures RunFrom(table, postEffect, s, state, i, withEffector) == (Err(NoValidTransition(state, StreamData(s, i, s[i]))), [])
  {
  }

  /** Every state's list ends with an unconditional transition. */
  ghost predicate EndsUnconditional<S, Eff>(table: Table<S, Eff>) {
    forall st :: st in table ==> |table[st]| > 0 && table[st][|table[st]| - 1].condition.None?
  }

  /** Every target of every transition is a key of the table. */
  ghost predicate TargetsRegistered<S, Eff>(table: Table<S, Eff>) {
    forall st, k :: st in table && 0 <= k < |table[st]| ==> table[st][k].to in table
  }

  /** No transition of the table carries an effect. */
  ghost predicate EffectFree<S, Eff>(table: Table<S, Eff>) {
    forall st, k :: st in table && 0 <= k < |table[st]| ==> table[st][k].effect.None?
  }

  // ---------------------------------------------------------------------
  // Walks

  /** Consuming `u + v` is consuming `u` and then, if that did not get stuck,
      `v` from the state reached. */
  lemma WalkAppend<S, Eff>(table: Table<S, Eff>, state: S, u: string, v: string)
    ensures var a := Walk(table, state, u);
      Walk(table, state, u + v) ==
        if a.state.None? then a
        else Walked(Walk(table, a.state.value, v).state, a.fired + Walk(table, a.state.value, v).fired)
  {
    WalkAppendState(table, state, u, v);
    WalkAppendFired(table, state, u, v);
  }

  /** The state part of WalkAppend. */
  lemma {:induction false} WalkAppendState<S, Eff>(table: Table<S, Eff>, state: S, u: string, v: string)
    ensures var a := Walk(table, state, u);
      Walk(table, state, u + v).state == if a.state.None? then None else Walk(table, a.state.value, v).state
    decreases |u|
  {
    if u == [] {
      assert u + v == v;
    } else {
      var w := u + v;
      assert w[0] == u[0] && w[1..] == u[1..] + v;
      match Step(table, state, u[0])
      case None =>
      case Some(next) =>
        WalkAppendState(table, next.0, u[1..], v);
    }
  }

  /** The effects part of WalkAppend. */
  lemma {:induction false} WalkAppendFired<S, Eff>(table: Table<S, Eff>, state: S, u: string, v: string)
    ensures var a := Walk(table, state, u);
      Walk(table, state, u + v).fired == if a.state.None? then a.fired else a.fired + Walk(table, a.state.value, v).fired
    decreases |u|
  {
    if u == [] {
      assert u + v == v;
    } else {
      assert (u + v)[0] == u[0] && (u + v)[1..] == u[1..] + v;
      match Step(table, state, u[0])
      case None =>
      case Some(next) =>
        WalkAppendFired(table, next.0, u[1..], v);
        WalkAppendFiredStep(table, state, u, v, next);
    }
  }

  /** The inductive step of WalkAppendFired, for a first character on which
      a transition is taken. */
  lemma WalkAppendFiredStep<S, Eff>(table: Table<S, Eff>, state: S, u: string, v: string, next: (S, seq<(Eff, char)>))
    requires u != [] && Step(table, state, u[0]) == Some(next)
    requires (u + v)[0] == u[0] && (u + v)[1..] == u[1..] + v
    requires var a := Walk(table, next.0, u[1..]);
      Walk(table, next.0, u[1..] + v).fired == if a.state.None? then a.fired else a.fired + Walk(table, a.state.value, v).fired
    ensures var a := Walk(table, state, u);
      Walk(table, state, u + v).fired == if a.state.None? then a.fired else a.fired + Walk(table, a.state.value, v).fired
  {
    WalkCons(table, state, u, next);
    WalkCons(table, state, u + v, next);
    var tail := Walk(table, next.0, u[1..]);
    var tv := Walk(table, next.0, u[1..] + v);
    if tail.state.Some? {
      WalkAppendFiredJoin(next.1, tail.fired, tv.fired, Walk(table, tail.state.value, v).fired);
    }
  }

  /** The regrouping of effects behind WalkAppendFiredStep. */
  lemma WalkAppendFiredJoin<T>(first: seq<T>, tail: seq<T>, tv: seq<T>, wv: seq<T>)
    requires tv == tail + wv
    ensures first + tv == (first + tail) + wv
  {
  }

  /** Walking a non-empty string: its first character, then the rest. */
  lemma WalkCons<S, Eff>(table: Table<S, Eff>, state: S, w: string, next: (S, seq<(Eff, char)>))
    requires w != [] && Step(table, state, w[0]) == Some(next)
    ensures Walk(table, state, w).state == Walk(table, next.0, w[1..]).state
    ensures Walk(table, state, w).fired == next.1 + Walk(table, next.0, w[1..]).fired
  {
  }

  /** Consuming one character takes the first matching transition. */
  lemma WalkOne<S, Eff>(table: Table<S, Eff>, state: S, ch: char)
    requires state in table && Select(table[state], ch).Some?
    ensures var t := table[state][Select(table[state], ch).value];
      Walk(table, state, [ch]) == Walked(Some(t.to), if t.effect.Some? then [(t.effect.value, ch)] else [])
  {
    assert [ch][0] == ch && [ch][1..] == [];
  }

  /** A walk that consumed a string also consumed each of its prefixes. */
  lemma WalkPrefix<S, Eff>(table: Table<S, Eff>, state: S, w: string, k: nat)
    requires k <= |w|
    requires Walk(table, state, w).state.Some?
    ensures Walk(table, state, w[..k]).state.Some?
  {
    assert w == w[..k] + w[k..];
    WalkAppend(table, state, w[..k], w[k..]);
  }

  // ---------------------------------------------------------------------
  // Runs and walks

  /** A run succeeds exactly when the walk of the rest of the string does not
      get stuck; with an effector its dispatches are the walk's effects
      followed by the post-effect, and without one nothing is dispatched. */
  lemma RunFromWalk<S, Eff>(table: Table<S, Eff>, postEffect: Option<Eff>, s: string, state: S, i: nat, withEffector: bool)
    requires i <= |s|
    ensures var r := RunFrom(table, postEffect, s, state, i, withEffector);
      var wk := Walk(table, state, s[i..]);
      && (r.0.Ok? <==> wk.state.Some?)
      && (withEffector ==>
            Fired(r.1) == wk.fired + (if r.0.Ok? && postEffect.Some? then [(postEffect.value, '\0')] else []))
      && (!withEffector ==> r.1 == [])
  {
    RunFromWalkOutcome(table, postEffect, s, state, i, withEffector);
    if withEffector {
      RunFromWalkFired(table, postEffect, s, state, i);
    }
  }

  /** The outcome part of RunFromWalk. */
  lemma {:induction false} RunFromWalkOutcome<S, Eff>(table: Table<S, Eff>, postEffect: Option<Eff>, s: string, state: S, i: nat, withEffector: bool)
    requires i <= |s|
    ensures var r := RunFrom(table, postEffect, s, state, i, withEffector);
      && (r.0.Ok? <==> Walk(table, state, s[i..]).state.Some?)
      && (!withEffector ==> r.1 == [])
    decreases |s| - i
  {
    var w := s[i..];
    if i == |s| {
      assert w == [];
    } else {
      assert w[0] == s[i] && w[1..] == s[i + 1..];
      if state in table && Select(table[state], s[i]).Some? {
        var t := table[state][Select(table[state], s[i]).value];
        RunFromWalkOutcome(table, postEffect, s, t.to, i + 1, withEffector);
      }
    }
  }

  /** The dispatch part of RunFromWalk. */
  lemma {:induction false} RunFromWalkFired<S, Eff>(table: Table<S, Eff>, postEffect: Option<Eff>, s: string, state: S, i: nat)
    requires i <= |s|
    ensures var r := RunFrom(table, postEffect, s, state, i, true);
      Fired(r.1) == Walk(table, state, s[i..]).fired + (if r.0.Ok? && postEffect.Some? then [(postEffect.value, '\0')] else [])
    decreases |s| - i
  {
    var w := s[i..];
    if i == |s| {
      assert w == [];
    } else {
      assert w[0] == s[i] && w[1..] == s[i + 1..];
      if state in table && Select(table[state], s[i]).Some? {
        var k := Select(table[state], s[i]).value;
        var t := table[state][k];
        RunFromWalkFired(table, postEffect, s, t.to, i + 1);
        var fire := Fire(true, t.effect, StreamData(s, i, s[i]));
        var rest := RunFrom(table, postEffect, s, t.to, i + 1, true);
        assert RunFrom(table, postEffect, s, state, i, true) == (rest.0, fire + rest.1);
        var wrest := Walk(table, t.to, s[i + 1..]);
        var e := if t.effect.Some? then [(t.effect.value, s[i])] else [];
        assert Walk(table, state, w) == Walked(wrest.state, e + wrest.fired);
        FiredAppend(fire, rest.1);
        assert Fired(fire) == e;
        var post := if rest.0.Ok? && postEffect.Some? then [(postEffect.value, '\0')] else [];
        assert e + (wrest.fired + post) == (e + wrest.fired) + post;
      }
    }
  }

  lemma {:induction false} FiredAppend<Eff>(a: seq<Dispatch<Eff>>, b: seq<Dispatch<Eff>>)
    ensures Fired(a + b) == Fired(a) + Fired(b)
    decreases |a|
  {
    if a == [] {
      assert a + b == b;
    } else {
      assert (a + b)[0] == a[0] && (a + b)[1..] == a[1..] + b;
      FiredAppend(a[1..], b);
    }
  }

  /** `test_valid_string`'s verdict: a run is accepted exactly when it never
      gets stuck. There is no check of the state reached last. */
  lemma RunAcceptsIffWalks<S, Eff>(table: Table<S, Eff>, initialState: S, postEffect: Option<Eff>, s: string, withEffector: bool)
    ensures Run(table, initialState, postEffect, s, withEffector).0.Ok? <==> Walk(table, initialState, s).state.Some?
  {
    RunFromWalk(table, postEffect, s, initialState, 0, withEffector);
    assert s[0..] == s;
  }

  /** Every prefix of an accepted string, the empty one included, is accepted. */
  lemma AcceptedPrefix<S, Eff>(table: Table<S, Eff>, initialState: S, postEffect: Option<Eff>, s: string, k: nat, withEffector: bool)
    requires k <= |s|
    requires Run(table, initialState, postEffect, s, withEffector).0.Ok?
    ensures Run(table, initialState, postEffect, s[..k], withEffector).0.Ok?
  {
    RunAcceptsIffWalks(table, initialState, postEffect, s, withEffector);
    WalkPrefix(table, initialState, s, k);
    RunAcceptsIffWalks(table, initialState, postEffect, s[..k], withEffector);
  }

  /** Without an effector nothing is dispatched, not even the post-effect. */
  lemma NoEffectorNoDispatch<S, Eff>(table: Table<S, Eff>, initialState: S, postEffect: Option<Eff>, s: string)
    ensures Run(table, initialState, postEffect, s, false).1 == []
  {
    RunFromWalk(table, postEffect, s, initialState, 0, false);
  }

  // ---------------------------------------------------------------------
  // Failures

  /** A rejection names the first character that no transition of the state
      reached so far matches: its 0-based position, the character, and that
      state, which is registered. Nothing is dispatched from then on. */
  lemma {:induction false} RunFromRejects<S, Eff>(table: Table<S, Eff>, postEffect: Option<Eff>, s: string, state: S, i: nat, withEffector: bool, from: S, data: StreamData)
    requires i <= |s|
    requires RunFrom(table, postEffect, s, state, i, withEffector).0 == Err(NoValidTransition(from, data))
    ensures data.str == s && i <= data.index < |s| && data.character == s[data.index]
    ensures Walk(table, state, s[i..data.index]).state == Some(from)
    ensures from in table && Select(table[from], s[data.index]).None?
    decreases |s| - i
  {
    if state in table && Select(table[state], s[i]).Some? {
      var t := table[state][Select(table[state], s[i]).value];
      RunFromRejects(table, postEffect, s, t.to, i + 1, withEffector, from, data);
      var w := s[i..data.index];
      assert w[0] == s[i] && w[1..] == s[i + 1..data.index];
    } else {
      assert s[i..i] == [];
    }
  }

  /** The converse: the first character that gets stuck is reported. */
  lemma {:induction false} RunFromRejectsAt<S, Eff>(table: Table<S, Eff>, postEffect: Option<Eff>, s: string, state: S, i: nat, withEffector: bool, k: nat, from: S)
    requires i <= k < |s|
    requires Walk(table, state, s[i..k]).state == Some(from)
    requires from in table && Select(table[from], s[k]).None?
    ensures RunFrom(table, postEffect, s, state, i, withEffector).0 == Err(NoValidTransition(from, StreamData(s, k, s[k])))
    decreases k - i
  {
    var w := s[i..k];
    if i < k {
      assert w[0] == s[i] && w[1..] == s[i + 1..k];
      var t := table[state][Select(table[state], s[i]).value];
      RunFromRejectsAt(table, postEffect, s, t.to, i + 1, withEffector, k, from);
    } else {
      assert w == [];
    }
  }

  /** Rejection position accuracy for a whole run, both directions. */
  lemma RunRejectsAt<S, Eff>(table: Table<S, Eff>, initialState: S, postEffect: Option<Eff>, s: string, withEffector: bool, k: nat, from: S)
    requires k < |s|
    ensures Run(table, initialState, postEffect, s, withEffector).0 == Err(NoValidTransition(from, StreamData(s, k, s[k])))
        <==> (Walk(table, initialState, s[..k]).state == Some(from) && from in table && Select(table[from], s[k]).None?)
  {
    assert s[0..k] == s[..k];
    if Run(table, initialState, postEffect, s, withEffector).0 == Err(NoValidTransition(from, StreamData(s, k, s[k]))) {
      RunFromRejects(table, postEffect, s, initialState, 0, withEffector, from, StreamData(s, k, s[k]));
    }
    if Walk(table, initialState, s[..k]).state == Some(from) && from in table && Select(table[from], s[k]).None? {
      RunFromRejectsAt(table, postEffect, s, initialState, 0, withEffector, k, from);
    }
  }

  /** A missing state is reported only for a state the walk actually reached
      before some character; a run never reports TransDoesNotExist. */
  lemma RunFromMissingState<S, Eff>(table: Table<S, Eff>, postEffect: Option<Eff>, s: string, state: S, i: nat, withEffector: bool)
    requires i <= |s|
    ensures var r := RunFrom(table, postEffect, s, state, i, withEffector).0;
      && !(r.Err? && r.error.TransDoesNotExist?)
      && (r.Err? && r.error.StateDoesNotExist? ==>
            exists k :: i <= k < |s| && Walk(table, state, s[i..k]).state == Some(r.error.state) && r.error.state !in table)
  {
    RunFromNoTransError(table, postEffect, s, state, i, withEffector);
    RunFromMissingReached(table, postEffect, s, state, i, withEffector);
  }

  lemma {:induction false} RunFromNoTransError<S, Eff>(table: Table<S, Eff>, postEffect: Option<Eff>, s: string, state: S, i: nat, withEffector: bool)
    requires i <= |s|
    ensures var r := RunFrom(table, postEffect, s, state, i, withEffector).0;
      !(r.Err? && r.error.TransDoesNotExist?)
    decreases |s| - i
  {
    if i < |s| && state in table && Select(table[state], s[i]).Some? {
      var t := table[state][Select(table[state], s[i]).value];
      RunFromNoTransError(table, postEffect, s, t.to, i + 1, withEffector);
    }
  }

  lemma {:induction false} RunFromMissingReached<S, Eff>(table: Table<S, Eff>, postEffect: Option<Eff>, s: string, state: S, i: nat, withEffector: bool)
    requires i <= |s|
    ensures var r := RunFrom(table, postEffect, s, state, i, withEffector).0;
      r.Err? && r.error.StateDoesNotExist? ==>
        exists k :: i <= k < |s| && Walk(table, state, s[i..k]).state == Some(r.error.state) && r.error.state !in table
    decreases |s| - i
  {
    if i < |s| {
      if state !in table {
        assert s[i..i] == [];
        assert Walk(table, state, s[i..i]).state == Some(state);
      } else if Select(table[state], s[i]).Some? {
        var t := table[state][Select(table[state], s[i]).value];
        RunFromMissingReached(table, postEffect, s, t.to, i + 1, withEffector);
        var r := RunFrom(table, postEffect, s, state, i, withEffector).0;
        assert r == RunFrom(table, postEffect, s, t.to, i + 1, withEffector).0;
        if r.Err? && r.error.StateDoesNotExist? {
          var k :| i + 1 <= k < |s| && Walk(table, t.to, s[i + 1..k]).state == Some(r.error.state) && r.error.state !in table;
          var w := s[i..k];
          assert w[0] == s[i] && w[1..] == s[i + 1..k];
          assert Step(table, state, s[i]).value.0 == t.to;
          assert Walk(table, state, w).state == Walk(table, t.to, w[1..]).state;
        }
      }
    }
  }

  /** The converse: reaching an unregistered state before some character
      makes the run fail with StateDoesNotExist for that state. */
  lemma {:induction false} RunFromMissingAt<S, Eff>(table: Table<S, Eff>, postEffect: Option<Eff>, s: string, state: S, i: nat, withEffector: bool, k: nat, st: S)
    requires i <= k < |s|
    requires Walk(table, state, s[i..k]).state == Some(st) && st !in table
    ensures RunFrom(table, postEffect, s, state, i, withEffector).0 == Err(StateDoesNotExist(st))
    decreases k - i
  {
    var w := s[i..k];
    if i < k {
      assert w[0] == s[i] && w[1..] == s[i + 1..k];
      var t := table[state][Select(table[state], s[i]).value];
      RunFromMissingAt(table, postEffect, s, t.to, i + 1, withEffector, k, st);
    } else {
      assert w == [];
    }
  }

  /** Missing-state reporting for a whole run, both directions: the run
      fails with StateDoesNotExist(st) exactly when the walk of some proper
      prefix reaches the unregistered state st. A state reached after the
      last character is not looked up. */
  lemma RunMissingAt<S, Eff>(table: Table<S, Eff>, initialState: S, postEffect: Option<Eff>, s: string, withEffector: bool, st: S)
    ensures Run(table, initialState, postEffect, s, withEffector).0 == Err(StateDoesNotExist(st))
        <==> (st !in table && exists k :: 0 <= k < |s| && Walk(table, initialState, s[..k]).state == Some(st))
  {
    if Run(table, initialState, postEffect, s, withEffector).0 == Err(StateDoesNotExist(st)) {
      RunFromMissingReached(table, postEffect, s, initialState, 0, withEffector);
      var k :| 0 <= k < |s| && Walk(table, initialState, s[0..k]).state == Some(st) && st !in table;
      assert s[0..k] == s[..k];
    }
    if st !in table && exists k :: 0 <= k < |s| && Walk(table, initialState, s[..k]).state == Some(st) {
      var k :| 0 <= k < |s| && Walk(table, initialState, s[..k]).state == Some(st);
      assert s[0..k] == s[..k];
      RunFromMissingAt(table, postEffect, s, initialState, 0, withEffector, k, st);
    }
  }

  // ---------------------------------------------------------------------
  // Dispatch order and the post-effect

  /** Shape of the dispatch calls of a run from position `i`: in increasing
      position order, each with the input string and, before the end, the
      character at that position; a call at position |s| exists exactly when
      the run succeeded with an effector and a post-effect, and it is the
      last one. */
  ghost predicate LogShape<Eff>(log: seq<Dispatch<Eff>>, s: string, i: nat) {
    && (forall j :: 0 <= j < |log| ==> log[j].inputData.str == s && i <= log[j].inputData.index <= |s|)
    && (forall j :: 0 <= j < |log| && log[j].inputData.index < |s| ==> log[j].inputData.character == s[log[j].inputData.index])
    && (forall j, j' :: 0 <= j < j' < |log| ==> log[j].inputData.index < log[j'].inputData.index)
  }

  /** Prepending the dispatch of character `i` to a log of the positions after it. */
  lemma LogShapeCons<Eff>(fire: seq<Dispatch<Eff>>, rest: seq<Dispatch<Eff>>, s: string, i: nat)
    requires i < |s|
    requires fire == [] || (|fire| == 1 && fire[0].inputData == StreamData(s, i, s[i]))
    requires LogShape(rest, s, i + 1)
    ensures LogShape(fire + rest, s, i)
  {
    var log := fire + rest;
    forall j | 0 <= j < |log|
      ensures log[j] == if j < |fire| then fire[j] else rest[j - |fire|]
    { }
  }

  lemma {:induction false} RunFromLogShape<S, Eff>(table: Table<S, Eff>, postEffect: Option<Eff>, s: string, state: S, i: nat, withEffector: bool)
    requires i <= |s|
    ensures LogShape(RunFrom(table, postEffect, s, state, i, withEffector).1, s, i)
    decreases |s| - i
  {
    if i < |s| && state in table && Select(table[state], s[i]).Some? {
      var t := table[state][Select(table[state], s[i]).value];
      RunFromLogShape(table, postEffect, s, t.to, i + 1, withEffector);
      var fire := Fire(withEffector, t.effect, StreamData(s, i, s[i]));
      var rest := RunFrom(table, postEffect, s, t.to, i + 1, withEffector);
      assert RunFrom(table, postEffect, s, state, i, withEffector).1 == fire + rest.1;
      LogShapeCons(fire, rest.1, s, i);
    }
  }

  lemma {:induction false} RunFromLogEnd<S, Eff>(table: Table<S, Eff>, postEffect: Option<Eff>, s: string, state: S, i: nat, withEffector: bool)
    requires i <= |s|
    ensures var r := RunFrom(table, postEffect, s, state, i, withEffector);
      && ((|r.1| > 0 && r.1[|r.1| - 1].inputData.index == |s|) <==> (r.0.Ok? && withEffector && postEffect.Some?))
      && (r.0.Ok? && withEffector && postEffect.Some? ==>
            |r.1| > 0 && r.1[|r.1| - 1] == Dispatch(postEffect.value, StreamData(s, |s|, '\0')))
    decreases |s| - i
  {
    if i < |s| && state in table && Select(table[state], s[i]).Some? {
      var t := table[state][Select(table[state], s[i]).value];
      RunFromLogEnd(table, postEffect, s, t.to, i + 1, withEffector);
      var fire := Fire(withEffector, t.effect, StreamData(s, i, s[i]));
      var rest := RunFrom(table, postEffect, s, t.to, i + 1, withEffector);
      assert RunFrom(table, postEffect, s, state, i, withEffector) == (rest.0, fire + rest.1);
      if rest.1 != [] {
        assert (fire + rest.1)[|fire + rest.1| - 1] == rest.1[|rest.1| - 1];
      } else if fire != [] {
        assert fire[0].inputData.index == i < |s|;
      }
    }
  }

  /** In a log of this shape, a call at position |s| can only be the last one. */
  lemma EndIsLast<Eff>(log: seq<Dispatch<Eff>>, s: string)
    requires LogShape(log, s, 0)
    ensures (exists j :: 0 <= j < |log| && log[j].inputData.index == |s|) <==> (|log| > 0 && log[|log| - 1].inputData.index == |s|)
  {
    if exists j :: 0 <= j < |log| && log[j].inputData.index == |s| {
      var j :| 0 <= j < |log| && log[j].inputData.index == |s|;
      if j < |log| - 1 {
        assert log[j].inputData.index < log[|log| - 1].inputData.index;
      }
    }
  }

  /** The post-effect fires once, last, and only on an accepted run with an
      effector; every other dispatch is for a character of the string, in
      stream order, and no character dispatches twice. */
  lemma PostEffectOnce<S, Eff>(table: Table<S, Eff>, initialState: S, postEffect: Option<Eff>, s: string, withEffector: bool)
    ensures var r := Run(table, initialState, postEffect, s, withEffector);
      && LogShape(r.1, s, 0)
      && ((exists j :: 0 <= j < |r.1| && r.1[j].inputData.index == |s|) <==> (r.0.Ok? && withEffector && postEffect.Some?))
      && (r.0.Ok? && withEffector && postEffect.Some? ==>
            |r.1| > 0 && r.1[|r.1| - 1] == Dispatch(postEffect.value, StreamData(s, |s|, '\0')))
  {
    RunFromLogShape(table, postEffect, s, initialState, 0, withEffector);
    RunFromLogEnd(table, postEffect, s, initialState, 0, withEffector);
    EndIsLast(Run(table, initialState, postEffect, s, withEffector).1, s);
  }

  // ---------------------------------------------------------------------
  // Tables of particular shapes

  /** A list with an unconditional transition matches every character. */
  lemma SelectTotal<S, Eff>(ts: seq<Transition<S, Eff>>, ch: char)
    requires |ts| > 0 && ts[|ts| - 1].condition.None?
    ensures Select(ts, ch).Some?
  {
    assert Matches(ts[|ts| - 1], ch);
  }

  /** From a registered state, a table whose lists all end unconditionally
      and whose targets are all registered never gets stuck. */
  lemma {:induction false} WalkTotal<S, Eff>(table: Table<S, Eff>, state: S, w: string)
    requires EndsUnconditional(table) && TargetsRegistered(table)
    requires state in table
    ensures Walk(table, state, w).state.Some?
    decreases |w|
  {
    if w != [] {
      SelectTotal(table[state], w[0]);
      var k := Select(table[state], w[0]).value;
      WalkTotal(table, table[state][k].to, w[1..]);
    }
  }

  /** Such a table accepts every string. */
  lemma RunTotal<S, Eff>(table: Table<S, Eff>, initialState: S, postEffect: Option<Eff>, s: string, withEffector: bool)
    requires EndsUnconditional(table) && TargetsRegistered(table)
    requires initialState in table
    ensures Run(table, initialState, postEffect, s, withEffector).0 == Ok(())
  {
    WalkTotal(table, initialState, s);
    RunAcceptsIffWalks(table, initialState, postEffect, s, withEffector);
    assert Run(table, initialState, postEffect, s, withEffector).0.value == ();
  }

  /** A walk over a table without effects fires nothing. */
  lemma {:induction false} WalkEffectFree<S, Eff>(table: Table<S, Eff>, state: S, w: string)
    requires EffectFree(table)
    ensures Walk(table, state, w).fired == []
    decreases |w|
  {
    if w != [] && state in table && Select(table[state], w[0]).Some? {
      var k := Select(table[state], w[0]).value;
      WalkEffectFree(table, table[state][k].to, w[1..]);
    }
  }

  /** Over a table without effects, only the post-effect can be dispatched. */
  lemma RunEffectFree<S, Eff>(table: Table<S, Eff>, initialState: S, postEffect: Option<Eff>, s: string, withEffector: bool)
    requires EffectFree(table)
    ensures var r := Run(table, initialState, postEffect, s, withEffector);
      Fired(r.1) == if r.0.Ok? && withEffector && postEffect.Some? then [(postEffect.value, '\0')] else []
  {
    RunFromWalk(table, postEffect, s, initialState, 0, withEffector);
    WalkEffectFree(table, initialState, s[0..]);
  }
}
