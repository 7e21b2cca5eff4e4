/** The counting effector: an automaton over letters, digits and points
    whose transitions into WORD and into NUMBER_IP carry increments, and a
    counter that receives them and ignores the stream data. */
module CountWordsAndNumbers {
  import opened Types
  import opened Errors
  import opened FsmRun
  import opened Fsm
  import opened TestUtils
  import opened LetterRuns

  datatype State = Init | Word | NumberIp | NumberFp

  datatype Effect = IncrementWordCount | IncrementNumberCount

  /** `fallback`: holds of every character. */
  predicate Fallback(ch: char) {
    true
  }

  /** The condition of the NUMBER_IP -> NUMBER_FP transition. */
  predicate IsPoint(ch: char) {
    ch == '.'
  }

  /** The transitions of `st`: entering WORD from another state counts a
      word, entering NUMBER_IP from INIT or WORD counts a number, and every
      list ends with a fallback to INIT. */
  function Outgoing(st: State): seq<Transition<State, Effect>> {
    match st
    case Init => [
      Transition(Word, Some(IsLetter), Some(IncrementWordCount)),
      Transition(NumberIp, Some(IsDigit), Some(IncrementNumberCount)),
      Transition(Init, Some(Fallback), None)]
    case Word => [
      Transition(Word, Some(IsLetter), None),
      Transition(NumberIp, Some(IsDigit), Some(IncrementNumberCount)),
      Transition(Init, Some(Fallback), None)]
    case NumberIp => [
      Transition(Word, Some(IsLetter), Some(IncrementWordCount)),
      Transition(NumberIp, Some(IsDigit), None),
      Transition(NumberFp, Some(IsPoint), None),
      Transition(Init, Some(Fallback), None)]
    case NumberFp => [
      Transition(Word, Some(IsLetter), Some(IncrementWordCount)),
      Transition(NumberFp, Some(IsDigit), None),
      Transition(Init, Some(Fallback), None)]
  }

  /** The table of `setup_fsm`. */
  function CounterTable(): Table<State, Effect> {
    map[Init := Outgoing(Init), Word := Outgoing(Word), NumberIp := Outgoing(NumberIp), NumberFp := Outgoing(NumberFp)]
  }

  lemma CounterTableAt(st: State)
    ensures st in CounterTable() && CounterTable()[st] == Outgoing(st)
  {
    match st
    case Init =>
    case Word =>
    case NumberIp =>
    case NumberFp =>
  }

  /** `CounterData`: the two counts. */
  datatype CounterData = CounterData(wordCount: nat, numberCount: nat)

  /** The counts after one more effect. */
  function Count(d: CounterData, e: Effect): CounterData {
    match e
    case IncrementWordCount => d.(wordCount := d.wordCount + 1)
    case IncrementNumberCount => d.(numberCount := d.numberCount + 1)
  }

  /** How many effects of each kind `fired` holds. */
  function Tally(fired: seq<(Effect, char)>): CounterData
    decreases |fired|
  {
    if fired == [] then CounterData(0, 0)
    else Count(Tally(fired[..|fired| - 1]), fired[|fired| - 1].0)
  }

  function Plus(a: CounterData, b: CounterData): CounterData {
    CounterData(a.wordCount + b.wordCount, a.numberCount + b.numberCount)
  }

  lemma CountPlus(a: CounterData, b: CounterData, e: Effect)
    ensures Count(Plus(a, b), e) == Plus(a, Count(b, e))
  {
  }

  lemma {:induction false} TallyAppend(x: seq<(Effect, char)>, y: seq<(Effect, char)>)
    ensures Tally(x + y) == Plus(Tally(x), Tally(y))
    decreases |y|
  {
    if y == [] {
      assert x + y == x;
    } else {
      var n := |y| - 1;
      assert (x + y)[..|x + y| - 1] == x + y[..n];
      assert (x + y)[|x + y| - 1] == y[n];
      TallyAppend(x, y[..n]);
      assert Tally(x + y) == Count(Plus(Tally(x), Tally(y[..n])), y[n].0);
      assert Tally(y) == Count(Tally(y[..n]), y[n].0);
      CountPlus(Tally(x), Tally(y[..n]), y[n].0);
    }
  }

  class Counter {
    var wordCount: nat
    var numberCount: nat

    constructor ()
      ensures wordCount == 0 && numberCount == 0
    {
      wordCount := 0;
      numberCount := 0;
    }

    method IncrementWordCount()
      modifies this
      ensures wordCount == old(wordCount) + 1 && numberCount == old(numberCount)
    {
      wordCount := wordCount + 1;
    }

    method IncrementNumberCount()
      modifies this
      ensures numberCount == old(numberCount) + 1 && wordCount == old(wordCount)
    {
      numberCount := numberCount + 1;
    }

    /** `state`: the two counts. */
    function Data(): CounterData
      reads this
    {
      CounterData(wordCount, numberCount)
    }

    /** `dispatch`: one increment, whatever the stream data. */
    method Dispatch(effect: Effect, inputData: StreamData)
      modifies this
      ensures Data() == Count(old(Data()), effect)
    {
      match effect
      case IncrementWordCount => IncrementWordCount();
      case IncrementNumberCount => IncrementNumberCount();
    }

    /** `clear_state`: both counts back to 0. */
    method ClearState()
      modifies this
      ensures wordCount == 0 && numberCount == 0
    {
      wordCount := 0;
      numberCount := 0;
    }

    /** Receives the calls a run made, in order. */
    method Receive(log: seq<Dispatch<Effect>>)
      modifies this
      ensures Data() == Plus(old(Data()), Tally(Fired(log)))
    {
      var i := 0;
      assert log[..0] == [];
      while i < |log|
        invariant i <= |log|
        invariant Data() == Plus(old(Data()), Tally(Fired(log[..i])))
      {
        ghost var before := Fired(log[..i]);
        Dispatch(log[i].effect, log[i].inputData);
        assert log[..i + 1] == log[..i] + [log[i]];
        FiredAppend(log[..i], [log[i]]);
        assert Fired(log[..i + 1]) == before + [(log[i].effect, log[i].inputData.character)];
        assert (before + [(log[i].effect, log[i].inputData.character)])[..|before|] == before;
        i := i + 1;
      }
      assert log[..i] == log;
    }
  }

  // ---------------------------------------------------------------------
  // What the automaton counts

  /** The state the automaton moves to from `st` on `ch`. */
  function Next(st: State, ch: char): State {
    if IsLetter(ch) then Word
    else if IsDigit(ch) then (if st == NumberFp then NumberFp else NumberIp)
    else if IsPoint(ch) && st == NumberIp then NumberFp
    else Init
  }

  /** The increment due when `ch` is read in state `st`: a letter starts a
      word unless one is being read; a digit starts a number from INIT or
      WORD only. */
  function Increment(st: State, ch: char): Option<Effect> {
    if IsLetter(ch) then (if st == Word then None else Some(IncrementWordCount))
    else if IsDigit(ch) && (st == Init || st == Word) then Some(IncrementNumberCount)
    else None
  }

  /** The increments carried by the table: a word increment exactly on the
      transitions entering WORD from another state, a number increment
      exactly on those entering NUMBER_IP from INIT or WORD. */
  lemma CounterEffects(st: State, k: nat)
    requires k < |Outgoing(st)|
    ensures var t := Outgoing(st)[k];
      && (t.effect == Some(IncrementWordCount) <==> t.to == Word && st != Word)
      && (t.effect == Some(IncrementNumberCount) <==> t.to == NumberIp && (st == Init || st == Word))
  {
  }

  /** The transition taken from `st` on `ch` leads to Next(st, ch) and
      carries Increment(st, ch). */
  lemma OutgoingStep(st: State, ch: char)
    ensures Select(Outgoing(st), ch).Some?
    ensures var t := Outgoing(st)[Select(Outgoing(st), ch).value];
      t.to == Next(st, ch) && t.effect == Increment(st, ch)
  {
    var ts := Outgoing(st);
    var k := if IsLetter(ch) then 0
      else if IsDigit(ch) then 1
      else if IsPoint(ch) && st == NumberIp then 2
      else |ts| - 1;
    assert Matches(ts[k], ch);
    forall j | 0 <= j < k ensures !Matches(ts[j], ch) {
      assert !Matches(ts[j], ch);
    }
    SelectFirst(ts, k, ch);
  }

  lemma CounterStep(st: State, ch: char)
    ensures st in CounterTable() && Select(CounterTable()[st], ch).Some?
    ensures var t := CounterTable()[st][Select(CounterTable()[st], ch).value];
      t.to == Next(st, ch) && t.effect == Increment(st, ch)
  {
    CounterTableAt(st);
    OutgoingStep(st, ch);
  }

  /** The counts due for the rest of `s` from position `i`, reading it from
      state `st`. */
  function CountFrom(s: string, st: State, i: nat): CounterData
    requires i <= |s|
    decreases |s| - i
  {
    if i == |s| then CounterData(0, 0)
    else
      var rest := CountFrom(s, Next(st, s[i]), i + 1);
      match Increment(st, s[i])
      case None => rest
      case Some(e) => Count(rest, e)
  }

  /** The run of the rest of `s` succeeds and dispatches exactly those counts. */
  lemma {:induction false} CountFromRun(s: string, st: State, i: nat)
    requires i <= |s|
    ensures RunFrom(CounterTable(), None, s, st, i, true).0 == Ok(())
    ensures Tally(Fired(RunFrom(CounterTable(), None, s, st, i, true).1)) == CountFrom(s, st, i)
    decreases |s| - i
  {
    if i == |s| {
      assert RunFrom(CounterTable(), None, s, st, i, true) == (Ok(()), []);
    } else {
      var ch := s[i];
      CounterStep(st, ch);
      CountFromRun(s, Next(st, ch), i + 1);
      var k := Select(CounterTable()[st], ch).value;
      RunFromTake(CounterTable(), None, s, st, i, true, k);
      var rest := RunFrom(CounterTable(), None, s, Next(st, ch), i + 1, true);
      TallyFire(Increment(st, ch), StreamData(s, i, ch), rest.1);
    }
  }

  /** The counts of one dispatch, if any, followed by others. */
  lemma TallyFire(e: Option<Effect>, data: StreamData, rest: seq<Dispatch<Effect>>)
    ensures Tally(Fired(Fire(true, e, data) + rest)) ==
      match e case None => Tally(Fired(rest)) case Some(x) => Count(Tally(Fired(rest)), x)
  {
    var fire := Fire(true, e, data);
    FiredAppend(fire, rest);
    TallyAppend(Fired(fire), Fired(rest));
    if e.Some? {
      assert Fired(fire) == [(e.value, data.character)];
      assert [(e.value, data.character)][..0] == [];
    } else {
      assert Fired(fire) == [];
    }
  }

  /** Each maximal run of letters counts one word: reading the rest of `s`
      in step with its prefix adds the runs the rest completes or starts. */
  lemma {:induction false} CountFromWords(s: string, st: State, i: nat)
    requires i <= |s|
    requires st == Word <==> EndsInLetter(s[..i])
    ensures CountFrom(s, st, i).wordCount + |Runs(s[..i])| == |Runs(s)|
    decreases |s| - i
  {
    if i == |s| {
      assert s[..i] == s;
    } else {
      assert s[..i + 1] == s[..i] + [s[i]];
      RunsSnoc(s[..i], s[i]);
      CountFromWords(s, Next(st, s[i]), i + 1);
    }
  }

  /** The word count after a run over `s` is the number of maximal runs of
      ASCII letters in `s`. */
  lemma CountsWords(s: string)
    ensures Run(CounterTable(), Init, None, s, true).0 == Ok(())
    ensures Tally(Fired(Run(CounterTable(), Init, None, s, true).1)).wordCount == |Runs(s)|
  {
    CountFromRun(s, Init, 0);
    assert s[..0] == [];
    CountFromWords(s, Init, 0);
  }

  /** The state reached from `st` by reading the rest of `s` from `i`. */
  function AfterFrom(s: string, st: State, i: nat): State
    requires i <= |s|
    decreases |s| - i
  {
    if i == |s| then st else AfterFrom(s, Next(st, s[i]), i + 1)
  }

  /** The state and the counts after reading `w` from INIT, one character
      at a time from the back. */
  function Progress(w: string): (State, CounterData)
    decreases |w|
  {
    if w == [] then (Init, CounterData(0, 0))
    else
      var n := |w| - 1;
      var (st, d) := Progress(w[..n]);
      (Next(st, w[n]), match Increment(st, w[n]) case None => d case Some(e) => Count(d, e))
  }

  lemma PlusCount(a: CounterData, b: CounterData, e: Effect)
    ensures Plus(a, Count(b, e)) == Plus(Count(a, e), b)
  {
  }

  lemma {:induction false} ProgressFrom(s: string, i: nat)
    requires i <= |s|
    ensures var (st, d) := Progress(s[..i]);
      AfterFrom(s, st, i) == Progress(s).0 && Plus(d, CountFrom(s, st, i)) == Progress(s).1
    decreases |s| - i
  {
    if i == |s| {
      assert s[..i] == s;
    } else {
      assert s[..i + 1][..i] == s[..i];
      ProgressFrom(s, i + 1);
      var (st, d) := Progress(s[..i]);
      if Increment(st, s[i]).Some? {
        PlusCount(d, CountFrom(s, Next(st, s[i]), i + 1), Increment(st, s[i]).value);
      }
    }
  }

  /** The forward and the backward reading agree. */
  lemma ProgressIsCountFrom(s: string)
    ensures Progress(s) == (AfterFrom(s, Init, 0), CountFrom(s, Init, 0))
  {
    assert s[..0] == [];
    ProgressFrom(s, 0);
  }

  /** The counts a run over `s` dispatches are those of Progress. */
  lemma RunCounts(s: string)
    ensures Run(CounterTable(), Init, None, s, true).0 == Ok(())
    ensures Tally(Fired(Run(CounterTable(), Init, None, s, true).1)) == Progress(s).1
  {
    CountFromRun(s, Init, 0);
    ProgressIsCountFrom(s);
  }

  /** Text that leads back to INIT and the text after it count separately. */
  lemma {:induction false} ProgressConcat(u: string, v: string)
    requires Progress(u).0 == Init
    ensures Progress(u + v) == (Progress(v).0, Plus(Progress(u).1, Progress(v).1))
    decreases |v|
  {
    if v == [] {
      assert u + v == u;
    } else {
      var n := |v| - 1;
      assert (u + v)[..|u + v| - 1] == u + v[..n];
      assert (u + v)[|u + v| - 1] == v[n];
      ProgressConcat(u, v[..n]);
      var (st, d) := Progress(v[..n]);
      if Increment(st, v[n]).Some? {
        PlusCount(Progress(u).1, d, Increment(st, v[n]).value);
      }
    }
  }

  // ---------------------------------------------------------------------
  // The test's texts, read piece by piece

  lemma ProgressOfFirstPieces()
    ensures Progress("the123fox ") == (Init, CounterData(2, 1))
    ensures Progress("jumps,,,,") == (Init, CounterData(1, 0))
    ensures Progress("!@#..,.?") == (Init, CounterData(0, 0))
  {
    ProgressIsCountFrom("the123fox ");
    ProgressIsCountFrom("jumps,,,,");
    ProgressIsCountFrom("!@#..,.?");
  }

  lemma ProgressOfThirdPieces()
    ensures Progress("Add 1.5 ") == (Init, CounterData(1, 1))
    ensures Progress("pinches ") == (Init, CounterData(1, 0))
    ensures Progress("of ") == (Init, CounterData(1, 0))
    ensures Progress("salt ") == (Init, CounterData(1, 0))
  {
    ProgressIsCountFrom("Add 1.5 ");
    ProgressIsCountFrom("pinches ");
    ProgressIsCountFrom("of ");
    ProgressIsCountFrom("salt ");
  }

  lemma ProgressOfLastPieces()
    ensures Progress("and ") == (Init, CounterData(1, 0))
    ensures Progress("2 ") == (Init, CounterData(0, 1))
    ensures Progress("cups ") == (Init, CounterData(1, 0))
    ensures Progress("water!") == (Init, CounterData(1, 0))
  {
    ProgressIsCountFrom("and ");
    ProgressIsCountFrom("2 ");
    ProgressIsCountFrom("cups ");
    ProgressIsCountFrom("water!");
  }

  /** The counts the test expects: 3 words and 1 number, and nothing. */
  lemma CountsOfFirstTexts()
    ensures Progress("the123fox jumps,,,,").1 == CounterData(3, 1)
    ensures Progress("!@#..,.?").1 == CounterData(0, 0)
  {
    ProgressOfFirstPieces();
    assert "the123fox jumps,,,," == "the123fox " + "jumps,,,,";
    ProgressConcat("the123fox ", "jumps,,,,");
  }

  lemma ProgressPrefix1()
    ensures Progress("Add 1.5 pinches ") == (Init, CounterData(2, 1))
  {
    assert "Add 1.5 pinches " == "Add 1.5 " + "pinches ";
    ProgressOfThirdPieces();
    ProgressConcat("Add 1.5 ", "pinches ");
  }

  lemma ProgressPrefix2()
    ensures Progress("Add 1.5 pinches of ") == (Init, CounterData(3, 1))
  {
    assert "Add 1.5 pinches of " == "Add 1.5 pinches " + "of ";
    ProgressPrefix1();
    ProgressOfThirdPieces();
    ProgressConcat("Add 1.5 pinches ", "of ");
  }

  lemma ProgressPrefix3()
    ensures Progress("Add 1.5 pinches of salt ") == (Init, CounterData(4, 1))
  {
    assert "Add 1.5 pinches of salt " == "Add 1.5 pinches of " + "salt ";
    ProgressPrefix2();
    ProgressOfThirdPieces();
    ProgressConcat("Add 1.5 pinches of ", "salt ");
  }

  lemma ProgressPrefix4()
    ensures Progress("Add 1.5 pinches of salt and ") == (Init, CounterData(5, 1))
  {
    assert "Add 1.5 pinches of salt and " == "Add 1.5 pinches of salt " + "and ";
    ProgressPrefix3();
    ProgressOfLastPieces();
    ProgressConcat("Add 1.5 pinches of salt ", "and ");
  }

  lemma ProgressPrefix5()
    ensures Progress("Add 1.5 pinches of salt and 2 ") == (Init, CounterData(5, 2))
  {
    assert "Add 1.5 pinches of salt and 2 " == "Add 1.5 pinches of salt and " + "2 ";
    ProgressPrefix4();
    ProgressOfLastPieces();
    ProgressConcat("Add 1.5 pinches of salt and ", "2 ");
  }

  lemma ProgressPrefix6()
    ensures Progress("Add 1.5 pinches of salt and 2 cups ") == (Init, CounterData(6, 2))
  {
    assert "Add 1.5 pinches of salt and 2 cups " == "Add 1.5 pinches of salt and 2 " + "cups ";
    ProgressPrefix5();
    ProgressOfLastPieces();
    ProgressConcat("Add 1.5 pinches of salt and 2 ", "cups ");
  }

  lemma ProgressPrefix7()
    ensures Progress("Add 1.5 pinches of salt and 2 cups of ") == (Init, CounterData(7, 2))
  {
    assert "Add 1.5 pinches of salt and 2 cups of " == "Add 1.5 pinches of salt and 2 cups " + "of ";
    ProgressPrefix6();
    ProgressOfLastPieces();
    ProgressConcat("Add 1.5 pinches of salt and 2 cups ", "of ");
  }

  /** The counts the test expects: 8 words and 2 numbers. */
  lemma CountsOfThirdText()
    ensures Progress("Add 1.5 pinches of salt and 2 cups of water!") == (Init, CounterData(8, 2))
  {
    assert "Add 1.5 pinches of salt and 2 cups of water!" == "Add 1.5 pinches of salt and 2 cups of " + "water!";
    ProgressPrefix7();
    ProgressOfLastPieces();
    ProgressConcat("Add 1.5 pinches of salt and 2 cups of ", "water!");
  }

  // ---------------------------------------------------------------------
  // The test

  /** `setup_fsm`: the machine over CounterTable, which `FSM::new` accepts. */
  method SetupFsm() returns (fsm: FSM<State, Effect>)
    ensures fresh(fsm) && fsm.initialState == Init && fsm.transitionTable == CounterTable() && fsm.postEffect.None?
  {
    CounterTableAt(Init);
    var r := FSM.New(Init, CounterTable(), None);
    fsm := r.value;
  }

  /** One block of the test: the run succeeds, the counter (starting from
      zero) then holds the word and number counts of `s`, and the block
      clears it again. */
  method CountText(fsm: FSM<State, Effect>, counter: Counter, s: string) returns (passed: bool, data: CounterData)
    requires fsm.initialState == Init && fsm.transitionTable == CounterTable() && fsm.postEffect.None?
    requires counter.wordCount == 0 && counter.numberCount == 0
    modifies counter
    ensures passed && data == Progress(s).1
    ensures counter.wordCount == 0 && counter.numberCount == 0
  {
    var log;
    passed, log := TestValidString(fsm, s, true);
    counter.Receive(log);
    data := counter.Data();
    RunCounts(s);
    counter.ClearState();
  }

  /** `it_counts_numbers_and_words_correctly`. */
  method ItCountsNumbersAndWordsCorrectly() returns (passed: bool, d1: CounterData, d2: CounterData, d3: CounterData)
    ensures passed
    ensures d1 == CounterData(3, 1) && d2 == CounterData(0, 0) && d3 == CounterData(8, 2)
  {
    var fsm := SetupFsm();
    var counter := new Counter();
    var p1, p2, p3;
    p1, d1 := CountText(fsm, counter, "the123fox jumps,,,,");
    p2, d2 := CountText(fsm, counter, "!@#..,.?");
    p3, d3 := CountText(fsm, counter, "Add 1.5 pinches of salt and 2 cups of water!");
    CountsOfFirstTexts();
    CountsOfThirdText();
    passed := p1 && p2 && p3;
  }
}
