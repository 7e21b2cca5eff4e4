/** The float-validating automaton: an optional sign, then either a single
    zero or a non-zero digit followed by digits, then optionally a point and
    digits. No transition carries an effect, and a run accepts every string
    it does not get stuck on, so the accepted strings are exactly the
    prefixes of such numbers. */
module FloatNumbers {
  import opened Types
  import opened Errors
  import opened FsmRun
  import opened Fsm
  import opened TestUtils

  datatype State = Init | Sign | IntegerPart | FractionPart | Zero

  /** The machine's effect type is `u8`; no transition uses it. */
  type Effect = bv8

  predicate IsSign(ch: char) {
    ch == '+' || ch == '-'
  }

  predicate IsNonZeroDigit(ch: char) {
    '1' <= ch <= '9'
  }

  predicate IsZero(ch: char) {
    ch == '0'
  }

  predicate IsPoint(ch: char) {
    ch == '.'
  }

  /** The transitions of `st` in the table of `setup_fsm`. */
  function Outgoing(st: State): seq<Transition<State, Effect>> {
    match st
    case Init => [
      Transition(Sign, Some(IsSign), None),
      Transition(IntegerPart, Some(IsNonZeroDigit), None),
      Transition(Zero, Some(IsZero), None)]
    case Sign => [
      Transition(IntegerPart, Some(IsNonZeroDigit), None),
      Transition(Zero, Some(IsZero), None)]
    case IntegerPart => [
      Transition(IntegerPart, Some(IsDigit), None),
      Transition(FractionPart, Some(IsPoint), None)]
    case FractionPart => [
      Transition(FractionPart, Some(IsDigit), None)]
    case Zero => [
      Transition(FractionPart, Some(IsPoint), None)]
  }

  /** The table of `setup_fsm`: every state is registered. */
  function FloatTable(): Table<State, Effect> {
    map[Init := Outgoing(Init), Sign := Outgoing(Sign), IntegerPart := Outgoing(IntegerPart),
        FractionPart := Outgoing(FractionPart), Zero := Outgoing(Zero)]
  }

  lemma FloatTableAt(st: State)
    ensures st in FloatTable() && FloatTable()[st] == Outgoing(st)
  {
    match st
    case Init =>
    case Sign =>
    case IntegerPart =>
    case FractionPart =>
    case Zero =>
  }

  /** `setup_fsm`: construction succeeds; there is no post-effect. */
  method SetupFsm() returns (fsm: FSM<State, Effect>)
    ensures fresh(fsm) && fsm.initialState == Init && fsm.transitionTable == FloatTable() && fsm.postEffect.None?
  {
    FloatTableAt(Init);
    var r := FSM.New(Init, FloatTable(), None);
    fsm := r.value;
  }

  /** INIT is registered, every target is registered, and no transition
      carries an effect. */
  lemma FloatWellFormed()
    ensures Init in FloatTable() && TargetsRegistered(FloatTable()) && EffectFree(FloatTable())
  {
    FloatTableAt(Init);
    forall st, k | st in FloatTable() && 0 <= k < |FloatTable()[st]|
      ensures FloatTable()[st][k].to in FloatTable() && FloatTable()[st][k].effect.None?
    {
      FloatTableAt(st);
      FloatTableAt(Outgoing(st)[k].to);
    }
  }

  /** The state the automaton moves to from `st` on `ch`, if any. */
  function Next(st: State, ch: char): Option<State> {
    match st
    case Init =>
      if IsSign(ch) then Some(Sign)
      else if IsNonZeroDigit(ch) then Some(IntegerPart)
      else if IsZero(ch) then Some(Zero)
      else None
    case Sign =>
      if IsNonZeroDigit(ch) then Some(IntegerPart)
      else if IsZero(ch) then Some(Zero)
      else None
    case IntegerPart =>
      if IsDigit(ch) then Some(IntegerPart)
      else if IsPoint(ch) then Some(FractionPart)
      else None
    case FractionPart =>
      if IsDigit(ch) then Some(FractionPart) else None
    case Zero =>
      if IsPoint(ch) then Some(FractionPart) else None
  }

  lemma OutgoingStep(st: State, ch: char)
    ensures Select(Outgoing(st), ch).Some? <==> Next(st, ch).Some?
    ensures Select(Outgoing(st), ch).Some? ==> Outgoing(st)[Select(Outgoing(st), ch).value].to == Next(st, ch).value
  {
    var ts := Outgoing(st);
    if Next(st, ch).Some? {
      var k := match st
        case Init => if IsSign(ch) then 0 else if IsNonZeroDigit(ch) then 1 else 2
        case Sign => if IsNonZeroDigit(ch) then 0 else 1
        case IntegerPart => if IsDigit(ch) then 0 else 1
        case _ => 0;
      assert Matches(ts[k], ch);
      forall j | 0 <= j < k ensures !Matches(ts[j], ch) {
        assert !Matches(ts[j], ch);
      }
      SelectFirst(ts, k, ch);
    } else {
      forall j | 0 <= j < |ts| ensures !Matches(ts[j], ch) {
        assert !Matches(ts[j], ch);
      }
    }
  }

  /** Reading one more character: the walk goes on from Next(st, ch), or
      gets stuck when there is none. */
  lemma WalkCons(st: State, ch: char, w: string)
    ensures Walk(FloatTable(), st, [ch] + w).state ==
      match Next(st, ch) case None => None case Some(n) => Walk(FloatTable(), n, w).state
  {
    FloatTableAt(st);
    OutgoingStep(st, ch);
    assert ([ch] + w)[0] == ch && ([ch] + w)[1..] == w;
  }

  // ---------------------------------------------------------------------
  // The accepted strings

  /** Every character of `w` is a decimal digit. */
  predicate AllDigits(w: string) {
    forall i :: 0 <= i < |w| ==> IsDigit(w[i])
  }

  /** What may follow a leading zero: nothing, or a point and digits. */
  predicate AfterZero(w: string) {
    w == [] || (w[0] == '.' && AllDigits(w[1..]))
  }

  /** What may follow a non-zero leading digit: digits, then possibly a
      point and digits. */
  predicate AfterNonZero(w: string) {
    AllDigits(w) || exists k :: 0 <= k < |w| && w[k] == '.' && AllDigits(w[..k]) && AllDigits(w[k + 1..])
  }

  /** A prefix of an unsigned number. */
  predicate UnsignedPrefix(w: string) {
    w == [] || (IsZero(w[0]) && AfterZero(w[1..])) || (IsNonZeroDigit(w[0]) && AfterNonZero(w[1..]))
  }

  /** A prefix of a number with an optional sign: the strings the automaton
      reads without getting stuck. */
  predicate FloatPrefix(s: string) {
    UnsignedPrefix(s) || (s != [] && IsSign(s[0]) && UnsignedPrefix(s[1..]))
  }

  lemma {:induction false} WalkFractionPart(w: string)
    ensures Walk(FloatTable(), FractionPart, w).state.Some? <==> AllDigits(w)
    decreases |w|
  {
    if w != [] {
      assert w == [w[0]] + w[1..];
      WalkCons(FractionPart, w[0], w[1..]);
      WalkFractionPart(w[1..]);
      AllDigitsCons(w);
    }
  }

  lemma WalkZero(w: string)
    ensures Walk(FloatTable(), Zero, w).state.Some? <==> AfterZero(w)
  {
    if w != [] {
      assert w == [w[0]] + w[1..];
      WalkCons(Zero, w[0], w[1..]);
      WalkFractionPart(w[1..]);
    }
  }

  lemma AllDigitsCons(w: string)
    requires w != []
    ensures AllDigits(w) <==> IsDigit(w[0]) && AllDigits(w[1..])
  {
    if IsDigit(w[0]) && AllDigits(w[1..]) {
      forall i | 0 <= i < |w| ensures IsDigit(w[i]) {
        if i > 0 { assert w[i] == w[1..][i - 1]; }
      }
    }
  }

  /** AfterNonZero, one character at a time. */
  lemma AfterNonZeroCons(w: string)
    requires w != []
    ensures AfterNonZero(w) <==> (IsDigit(w[0]) && AfterNonZero(w[1..])) || (w[0] == '.' && AllDigits(w[1..]))
  {
    var t := w[1..];
    AllDigitsCons(w);
    if AfterNonZero(w) && !AllDigits(w) {
      var k :| 0 <= k < |w| && w[k] == '.' && AllDigits(w[..k]) && AllDigits(w[k + 1..]);
      if k > 0 {
        AllDigitsCons(w[..k]);
        assert w[..k][1..] == t[..k - 1];
        assert t[k - 1] == '.' && t[k - 1 + 1..] == w[k + 1..];
      } else {
        assert w[k + 1..] == t;
      }
    }
    if IsDigit(w[0]) && AfterNonZero(t) && !AllDigits(t) {
      var k :| 0 <= k < |t| && t[k] == '.' && AllDigits(t[..k]) && AllDigits(t[k + 1..]);
      AllDigitsCons(w[..k + 1]);
      assert w[..k + 1][1..] == t[..k];
      assert w[k + 1] == '.' && w[k + 1 + 1..] == t[k + 1..];
    }
    if w[0] == '.' && AllDigits(t) {
      assert AllDigits(w[..0]) && w[0 + 1..] == t;
    }
  }

  lemma {:induction false} WalkIntegerPart(w: string)
    ensures Walk(FloatTable(), IntegerPart, w).state.Some? <==> AfterNonZero(w)
    decreases |w|
  {
    if w == [] {
      assert AllDigits(w);
    } else {
      assert w == [w[0]] + w[1..];
      WalkCons(IntegerPart, w[0], w[1..]);
      WalkIntegerPart(w[1..]);
      WalkFractionPart(w[1..]);
      AfterNonZeroCons(w);
    }
  }

  lemma WalkSign(w: string)
    ensures Walk(FloatTable(), Sign, w).state.Some? <==> UnsignedPrefix(w)
  {
    if w != [] {
      assert w == [w[0]] + w[1..];
      WalkCons(Sign, w[0], w[1..]);
      if IsNonZeroDigit(w[0]) {
        WalkIntegerPart(w[1..]);
      } else if IsZero(w[0]) {
        WalkZero(w[1..]);
      }
    }
  }

  /** The walk from INIT does not get stuck exactly on FloatPrefix. */
  lemma WalkInit(s: string)
    ensures Walk(FloatTable(), Init, s).state.Some? <==> FloatPrefix(s)
  {
    if s != [] {
      assert s == [s[0]] + s[1..];
      WalkCons(Init, s[0], s[1..]);
      if IsSign(s[0]) {
        WalkSign(s[1..]);
      } else if IsNonZeroDigit(s[0]) {
        WalkIntegerPart(s[1..]);
      } else if IsZero(s[0]) {
        WalkZero(s[1..]);
      }
    }
  }

  /** `test_valid_string` passes on `s` exactly when `s` is a prefix of a
      number with an optional sign, and the run dispatches nothing. */
  lemma FloatAccepts(s: string, withEffector: bool)
    ensures Run(FloatTable(), Init, None, s, withEffector).0.Ok? <==> FloatPrefix(s)
    ensures Run(FloatTable(), Init, None, s, withEffector).1 == []
  {
    RunAcceptsIffWalks(FloatTable(), Init, None, s, withEffector);
    WalkInit(s);
    FloatWellFormed();
    RunEffectFree(FloatTable(), Init, None, s, withEffector);
  }

  /** A failed run names the position and the character at which `s` stops
      being a prefix of a number, and the state reached before it. */
  lemma FloatRejectsAt(s: string, k: nat, from: State)
    requires k < |s|
    requires Walk(FloatTable(), Init, s[..k]).state == Some(from) && Next(from, s[k]).None?
    ensures Run(FloatTable(), Init, None, s, false).0 == Err(NoValidTransition(from, StreamData(s, k, s[k])))
    ensures FloatPrefix(s[..k]) && !FloatPrefix(s[..k + 1])
  {
    FloatTableAt(from);
    OutgoingStep(from, s[k]);
    RunRejectsAt(FloatTable(), Init, None, s, false, k, from);
    WalkInit(s[..k]);
    WalkInit(s[..k + 1]);
    assert s[..k + 1] == s[..k] + [s[k]];
    WalkAppend(FloatTable(), Init, s[..k], [s[k]]);
    assert Walk(FloatTable(), from, [s[k]]).state.None? by {
      WalkCons(from, s[k], []);
    }
  }

  // ---------------------------------------------------------------------
  // The test's strings

  /** `it_validates_float_numbers`: the ten strings are accepted. */
  lemma FloatTestIntegers()
    ensures FloatPrefix("0") && FloatPrefix("12345") && FloatPrefix("+12345") && FloatPrefix("-12345")
  {
    assert AllDigits("2345");
    assert "12345"[1..] == "2345";
    assert "+12345"[1..] == "12345";
    assert "-12345"[1..] == "12345";
  }

  lemma FloatTestFractions()
    ensures FloatPrefix("12345.9876") && FloatPrefix("-12345.9876") && FloatPrefix("+12345.9876")
  {
    var f := "2345.9876";
    assert f[4] == '.' && f[..4] == "2345" && f[5..] == "9876";
    assert AllDigits("2345") && AllDigits("9876");
    assert AfterNonZero(f);
    assert "12345.9876"[1..] == f;
    assert "-12345.9876"[1..] == "12345.9876";
    assert "+12345.9876"[1..] == "12345.9876";
  }

  lemma FloatTestZeroFractions()
    ensures FloatPrefix("0.12345") && FloatPrefix("-0.12345") && FloatPrefix("+0.12345")
  {
    assert AllDigits("12345");
    assert ".12345"[1..] == "12345";
    assert "0.12345"[1..] == ".12345";
    assert "-0.12345"[1..] == "0.12345";
    assert "+0.12345"[1..] == "0.12345";
  }

  /** "w1234" fails at once: INIT has no transition for 'w'. */
  lemma RejectedFromInit()
    ensures Run(FloatTable(), Init, None, "w1234", false).0 == Err(NoValidTransition(Init, StreamData("w1234", 0, 'w')))
  {
    assert "w1234"[..0] == [];
    FloatRejectsAt("w1234", 0, Init);
  }

  /** "++1234" fails at the second sign, from SIGN. */
  lemma RejectedFromSign()
    ensures Run(FloatTable(), Init, None, "++1234", false).0 == Err(NoValidTransition(Sign, StreamData("++1234", 1, '+')))
  {
    assert "++1234"[..1] == ['+'] + [];
    WalkCons(Init, '+', []);
    FloatRejectsAt("++1234", 1, Sign);
  }

  /** "1110b" fails at the letter, from INTEGER_PART. */
  lemma RejectedFromIntegerPart()
    ensures Run(FloatTable(), Init, None, "1110b", false).0 == Err(NoValidTransition(IntegerPart, StreamData("1110b", 4, 'b')))
  {
    assert "1110b"[..4] == ['1'] + (['1'] + (['1'] + (['0'] + [])));
    WalkCons(IntegerPart, '0', []);
    WalkCons(IntegerPart, '1', ['0'] + []);
    WalkCons(IntegerPart, '1', ['1'] + (['0'] + []));
    WalkCons(Init, '1', ['1'] + (['1'] + (['0'] + [])));
    FloatRejectsAt("1110b", 4, IntegerPart);
  }

  /** "001234" fails at the second zero, from ZERO. */
  lemma RejectedFromZero()
    ensures Run(FloatTable(), Init, None, "001234", false).0 == Err(NoValidTransition(Zero, StreamData("001234", 1, '0')))
  {
    assert "001234"[..1] == ['0'] + [];
    WalkCons(Init, '0', []);
    FloatRejectsAt("001234", 1, Zero);
  }

  /** "12..0126" fails at the second point, from FRACTION_PART. */
  lemma RejectedFromFractionPart()
    ensures Run(FloatTable(), Init, None, "12..0126", false).0 == Err(NoValidTransition(FractionPart, StreamData("12..0126", 3, '.')))
  {
    assert "12..0126"[..3] == ['1'] + (['2'] + (['.'] + []));
    WalkCons(IntegerPart, '.', []);
    WalkCons(IntegerPart, '2', ['.'] + []);
    WalkCons(Init, '1', ['2'] + (['.'] + []));
    FloatRejectsAt("12..0126", 3, FractionPart);
  }

  /** `test_invalid_string` as written passes on "w1234" even when told
      that the failure is at position 3 on 'x': the run fails at position 0
      on 'w'. */
  lemma InvalidStringIgnoresPosition()
    ensures var r := Run(FloatTable(), Init, None, "w1234", false).0;
      && r.Err? && r.error.NoValidTransition?
      && r.error.inputData.index != 3 && r.error.inputData.character != 'x'
  {
    RejectedFromInit();
  }

  /** `it_validates_float_numbers`, through the harness: every string
      passes. */
  method ItValidatesFloatNumbers() returns (passed: bool)
    ensures passed
  {
    var fsm := SetupFsm();
    FloatTestIntegers();
    FloatTestFractions();
    FloatTestZeroFractions();
    var ok, log;
    passed := true;
    FloatAccepts("0", false);
    ok, log := TestValidString(fsm, "0", false);
    passed := passed && ok;
    FloatAccepts("12345", false);
    ok, log := TestValidString(fsm, "12345", false);
    passed := passed && ok;
    FloatAccepts("+12345", false);
    ok, log := TestValidString(fsm, "+12345", false);
    passed := passed && ok;
    FloatAccepts("-12345", false);
    ok, log := TestValidString(fsm, "-12345", false);
    passed := passed && ok;
    FloatAccepts("12345.9876", false);
    ok, log := TestValidString(fsm, "12345.9876", false);
    passed := passed && ok;
    FloatAccepts("-12345.9876", false);
    ok, log := TestValidString(fsm, "-12345.9876", false);
    passed := passed && ok;
    FloatAccepts("+12345.9876", false);
    ok, log := TestValidString(fsm, "+12345.9876", false);
    passed := passed && ok;
    FloatAccepts("0.12345", false);
    ok, log := TestValidString(fsm, "0.12345", false);
    passed := passed && ok;
    FloatAccepts("-0.12345", false);
    ok, log := TestValidString(fsm, "-0.12345", false);
    passed := passed && ok;
    FloatAccepts("+0.12345", false);
    ok, log := TestValidString(fsm, "+0.12345", false);
    passed := passed && ok;
  }

  /** `it_invalidates_incorrect_string`, through the corrected harness:
      every string fails where the test says. */
  method ItInvalidatesIncorrectString() returns (passed: bool)
    ensures passed
  {
    var fsm := SetupFsm();
    RejectedFromInit();
    RejectedFromSign();
    RejectedFromIntegerPart();
    RejectedFromZero();
    RejectedFromFractionPart();
    var ok, log;
    passed := true;
    ok, log := TestInvalidStringAt(fsm, "w1234", 0, 'w', false);
    passed := passed && ok;
    ok, log := TestInvalidStringAt(fsm, "++1234", 1, '+', false);
    passed := passed && ok;
    ok, log := TestInvalidStringAt(fsm, "1110b", 4, 'b', false);
    passed := passed && ok;
    ok, log := TestInvalidStringAt(fsm, "001234", 1, '0', false);
    passed := passed && ok;
    ok, log := TestInvalidStringAt(fsm, "12..0126", 3, '.', false);
    passed := passed && ok;
  }
}
