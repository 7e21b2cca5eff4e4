/** The building blocks of the engine: predicates, transitions, the data an
    effector receives, and the connections used to merge effects. */
module Types {

  datatype Option<+T> = None | Some(value: T)

  datatype Result<+T, +E> = Ok(value: T) | Err(error: E)

  /** Validator of one input character (a plain `fn(char) -> bool`, so it has
      no captured state). */
  type Predicate = char -> bool

  /** An edge to `to`, guarded by `condition` (None: it matches every
      character) and carrying an optional side effect. Its source state is
      implicit: the key under which it is listed in a transition table.
      The datatype constructor is `Transition::new`: it stores its three
      arguments as they are. */
  datatype Transition<S, Eff> = Transition(to: S, condition: Option<Predicate>, effect: Option<Eff>)

  /** Matches the next state and the side effect of `t` for the character
      `ch`: the target together with the transition's effect when the
      condition holds (or there is none), and nothing at all otherwise. */
  function Transit<S, Eff>(t: Transition<S, Eff>, ch: char): (r: (Option<S>, Option<Eff>))
    ensures r.0 == None || r.0 == Some(t.to)
    ensures t.condition.None? ==> r.0 == Some(t.to)
    ensures t.condition.Some? ==> (r.0.Some? <==> t.condition.value(ch))
    ensures r.0.Some? ==> r.1 == t.effect
    ensures r.0.None? ==> r.1 == None
  {
    match t.condition
    case Some(condition) =>
      if condition(ch) then (Some(t.to), t.effect) else (None, None)
    case None => (Some(t.to), t.effect)
  }

  /** Whether `t` matches `ch`. */
  predicate Matches<S, Eff>(t: Transition<S, Eff>, ch: char) {
    Transit(t, ch).0.Some?
  }

  /** Context handed to the effector with every dispatched effect: the whole
      input, the position of the current character and the character. */
  datatype StreamData = StreamData(str: string, index: nat, character: char)

  /** A (from, to) pair naming the edges that an effect list is merged onto. */
  datatype StatesConnection<S> = StatesConnection(from: S, to: S)

  /** One call `effector.dispatch(effect, inputData)`. An effector is any
      object with such a method; a run is described by the sequence of calls
      it makes, in order. */
  datatype Dispatch<Eff> = Dispatch(effect: Eff, inputData: StreamData)

  /** A transition table: every state's outgoing transitions, in the order in
      which they are tried. */
  type Table<S, Eff> = map<S, seq<Transition<S, Eff>>>
}
