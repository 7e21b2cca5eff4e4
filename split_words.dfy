/** The word side of the splitting effector: a store that collects the
    words of a text while the words-and-numbers automaton runs over it. Each
    connection of the automaton is given a pair of basic effects, applied one
    after the other with the same stream data. The number side (a running
    floating-point sum) is not modelled: its effects leave the words and the
    word buffer as they are. */
module SplitWords {
  import opened Types
  import opened Errors
  import opened FsmRun
  import opened FsmMerge
  import opened Fsm
  import opened TestUtils
  import opened LetterRuns
  import opened WordsAndNumbers

  datatype BasicEffect =
    | PushToWordbuffer
    | AcceptWordbuffer
    | PushToNumbuffer(isFpd: bool)
    | AcceptNumbuffer
    | CleanupBuffers

  /** An effect is a basic effect, optionally followed by a second one. */
  type Effect = (BasicEffect, Option<BasicEffect>)

  /** The word side of a store: the accepted words and the word being read. */
  datatype Words = Words(words: seq<string>, wordBuffer: string)

  /** What the basic effect `e` with character `ch` does to the words. */
  function Apply(w: Words, e: BasicEffect, ch: char): Words {
    match e
    case PushToWordbuffer => Words(w.words, w.wordBuffer + [ch])
    case AcceptWordbuffer => Words(w.words + [w.wordBuffer], [])
    case CleanupBuffers => if |w.wordBuffer| > 0 then Words(w.words + [w.wordBuffer], []) else w
    case PushToNumbuffer(_) => w
    case AcceptNumbuffer => w
  }

  /** What dispatching `e` with character `ch` does: its first effect, then
      its second one if there is one. */
  function ApplyPair(w: Words, e: Effect, ch: char): Words {
    var first := Apply(w, e.0, ch);
    if e.1.Some? then Apply(first, e.1.value, ch) else first
  }

  /** The words after dispatching `fired`, in order, starting from `w`. */
  function Replay(w: Words, fired: seq<(Effect, char)>): Words
    decreases |fired|
  {
    if fired == [] then w
    else
      var n := |fired| - 1;
      ApplyPair(Replay(w, fired[..n]), fired[n].0, fired[n].1)
  }

  class Store {
    var words: seq<string>
    var wordBuffer: string

    /** `Store::new`: no words, an empty buffer. */
    constructor ()
      ensures words == [] && wordBuffer == []
    {
      words := [];
      wordBuffer := [];
    }

    function Contents(): Words
      reads this
    {
      Words(words, wordBuffer)
    }

    /** Appends `ch` to the word being read. */
    method PushToWordbuff(ch: char)
      modifies this
      ensures wordBuffer == old(wordBuffer) + [ch] && words == old(words)
    {
      wordBuffer := wordBuffer + [ch];
    }

    /** Accepts the word being read, even an empty one, and starts a new one. */
    method AcceptWordbuffer()
      modifies this
      ensures words == old(words) + [old(wordBuffer)] && wordBuffer == []
    {
      var word := wordBuffer;
      words := words + [word];
      wordBuffer := [];
    }

    /** The word side of `cleanup_buffers`: a non-empty word being read is
      accepted; the buffer ends up empty either way. */
    method CleanupBuffers()
      modifies this
      ensures |old(wordBuffer)| > 0 ==> words == old(words) + [old(wordBuffer)]
      ensures |old(wordBuffer)| == 0 ==> words == old(words)
      ensures wordBuffer == []
    {
      if |wordBuffer| > 0 {
        var word := wordBuffer;
        words := words + [word];
        wordBuffer := [];
      }
    }

    /** `apply_effect`: one basic effect, with the character of `inputData`. */
    method ApplyEffect(effect: BasicEffect, inputData: StreamData)
      modifies this
      ensures Contents() == Apply(old(Contents()), effect, inputData.character)
    {
      match effect
      case PushToWordbuffer => PushToWordbuff(inputData.character);
      case AcceptWordbuffer => AcceptWordbuffer();
      case PushToNumbuffer(_) =>
      case AcceptNumbuffer =>
      case CleanupBuffers => CleanupBuffers();
    }

    /** `dispatch`: the first effect, then the second one if present, both
      with the same stream data. */
    method Dispatch(effect: Effect, inputData: StreamData)
      modifies this
      ensures Contents() == ApplyPair(old(Contents()), effect, inputData.character)
    {
      ApplyEffect(effect.0, inputData);
      if effect.1.Some? {
        ApplyEffect(effect.1.value, inputData);
      }
    }

    /** Receives the calls a run made, in order. */
    method Receive(log: seq<Dispatch<Effect>>)
      modifies this
      ensures Contents() == Replay(old(Contents()), Fired(log))
    {
      var i := 0;
      assert log[..0] == [];
      while i < |log|
        invariant i <= |log|
        invariant Contents() == Replay(old(Contents()), Fired(log[..i]))
      {
        ghost var before := Fired(log[..i]);
        Dispatch(log[i].effect, log[i].inputData);
        assert log[..i + 1] == log[..i] + [log[i]];
        FiredAppend(log[..i], [log[i]]);
        assert Fired(log[..i + 1]) == before + [(log[i].effect, log[i].inputData.character)];
        assert (before + [(log[i].effect, log[i].inputData.character)])[..|before|] == before;
        i := i + 1;
      }
      assert log[..i] == log;
    }
  }

  /** The effects map of the test: every connection of the automaton except
      INIT -> INIT and NUMBER_IP -> NUMBER_FP, each with one effect. */
  function SetupEffects(): EffectsMap<State, Effect> {
    map[
      StatesConnection(Init, Word) := [(PushToWordbuffer, None)],
      StatesConnection(Init, NumberIp) := [(PushToNumbuffer(false), None)],
      StatesConnection(Word, Word) := [(PushToWordbuffer, None)],
      StatesConnection(Word, NumberIp) := [(AcceptWordbuffer, Some(PushToNumbuffer(false)))],
      StatesConnection(Word, Init) := [(AcceptWordbuffer, None)],
      StatesConnection(NumberIp, Word) := [(AcceptNumbuffer, Some(PushToWordbuffer))],
      StatesConnection(NumberIp, NumberIp) := [(PushToNumbuffer(false), None)],
      StatesConnection(NumberIp, Init) := [(AcceptNumbuffer, None)],
      StatesConnection(NumberFp, Word) := [(AcceptNumbuffer, Some(PushToWordbuffer))],
      StatesConnection(NumberFp, NumberFp) := [(PushToNumbuffer(true), None)],
      StatesConnection(NumberFp, Init) := [(AcceptNumbuffer, None)]
    ]
  }

  /** The effect SetupEffects lists for connection `c`, if it lists one. */
  function EffectOn(c: StatesConnection<State>): Option<Effect> {
    match (c.from, c.to)
    case (Init, Word) => Some((PushToWordbuffer, None))
    case (Init, NumberIp) => Some((PushToNumbuffer(false), None))
    case (Word, Word) => Some((PushToWordbuffer, None))
    case (Word, NumberIp) => Some((AcceptWordbuffer, Some(PushToNumbuffer(false))))
    case (Word, Init) => Some((AcceptWordbuffer, None))
    case (NumberIp, Word) => Some((AcceptNumbuffer, Some(PushToWordbuffer)))
    case (NumberIp, NumberIp) => Some((PushToNumbuffer(false), None))
    case (NumberIp, Init) => Some((AcceptNumbuffer, None))
    case (NumberFp, Word) => Some((AcceptNumbuffer, Some(PushToWordbuffer)))
    case (NumberFp, NumberFp) => Some((PushToNumbuffer(true), None))
    case (NumberFp, Init) => Some((AcceptNumbuffer, None))
    case _ => None
  }

  /** SetupEffects lists exactly the connections EffectOn gives an effect,
      each with that one effect. */
  lemma SetupEffectsAt(c: StatesConnection<State>)
    ensures c in SetupEffects() <==> EffectOn(c).Some?
    ensures c in SetupEffects() ==> SetupEffects()[c] == [EffectOn(c).value]
  {
    match c.from
    case Init =>
    case Word =>
    case NumberIp =>
    case NumberFp =>
  }

  /** The post-effect of the test: flush what is left in the buffers. */
  const PostEffect: Option<Effect> := Some((CleanupBuffers, None))

  /** Every connection of SetupEffects names an existing transition and has
      one effect, so merging it succeeds. */
  lemma SetupEffectsMerge()
    ensures MergeSucceeds(WordsTable(), SetupEffects())
  {
    var t := WordsTable<Effect>();
    var m := SetupEffects();
    forall c | c in m ensures EntryError(t, c).None? && CountTo(t[c.from], c.to) <= |m[c]| {
      SetupEntry(c);
    }
  }

  /** One connection of SetupEffects: both states exist, and exactly one
      transition of the source leads to the destination. */
  lemma SetupEntry(c: StatesConnection<State>)
    requires c in SetupEffects()
    ensures EntryError(WordsTable<Effect>(), c).None?
    ensures CountTo(WordsTable<Effect>()[c.from], c.to) == |SetupEffects()[c]| == 1
  {
    SetupEffectsAt(c);
    var ts := Outgoing<Effect>(c.from);
    var i := if c.to == Word then 0 else if c.to == Init then |ts| - 1 else 1;
    WordsTableAt<Effect>(c.from);
    WordsTableAt<Effect>(c.to);
    OutgoingFacts<Effect>(c.from);
    assert ts[i].to == c.to;
    CountToDistinct(ts, c.to);
  }

  /** The machine of the test: WordsTable with SetupEffects merged in. */
  ghost function SplitTable(): Table<State, Effect> {
    SetupEffectsMerge();
    Merged(WordsTable(), SetupEffects(), SetupEffects().Keys)
  }

  /** The one character step of the machine: the state moves as in
      WordsTable, and the effect dispatched is the one SetupEffects gives the
      connection taken, if any. */
  lemma SplitStep(st: State, ch: char)
    ensures var c := StatesConnection(st, Next(st, ch));
      var e := EffectOn(c);
      Walk(SplitTable(), st, [ch]) == Walked(Some(Next(st, ch)), if e.Some? then [(e.value, ch)] else [])
  {
    var t := SplitTable();
    var c := StatesConnection(st, Next(st, ch));
    SplitSelect(st, ch);
    var k := Select(t[st], ch).value;
    var tr := t[st][k];
    assert tr.to == Next(st, ch);
    SplitEffect(st, k);
    WalkOne(t, st, ch);
  }

  lemma SplitSelect(st: State, ch: char)
    ensures st in SplitTable() && Select(SplitTable()[st], ch).Some?
    ensures SplitTable()[st][Select(SplitTable()[st], ch).value].to == Next(st, ch)
  {
    SetupEffectsMerge();
    MergedShape(WordsTable<Effect>(), SetupEffects(), SetupEffects().Keys);
    WordsStep(SplitTable(), st, ch);
  }

  lemma SplitEffect(st: State, k: nat)
    requires st in SplitTable() && k < |SplitTable()[st]|
    ensures var c := StatesConnection(st, SplitTable()[st][k].to);
      SplitTable()[st][k].effect == EffectOn(c)
  {
    SetupEffectsMerge();
    MergedShape(WordsTable<Effect>(), SetupEffects(), SetupEffects().Keys);
    WordsTableAt<Effect>(st);
    WordsMerged(SetupEffects(), st, k);
    SetupEffectsAt(StatesConnection(st, SplitTable()[st][k].to));
  }

  /** What the store holds after a prefix `p` of the text: when `p` ends
      inside a word, the accepted words and the buffer make up its runs of
      letters; otherwise the accepted words are its runs and the buffer is
      empty. The machine is in WORD exactly in the first case. */
  ghost predicate StoreMatches(p: string, st: State, w: Words) {
    && (st == Word <==> EndsInLetter(p))
    && (st == Word ==> w.wordBuffer != [] && w.words + [w.wordBuffer] == Runs(p))
    && (st != Word ==> w.wordBuffer == [] && w.words == Runs(p))
  }

  /** One more character keeps the store in step with the runs. */
  lemma StoreStep(p: string, st: State, w: Words, ch: char)
    requires StoreMatches(p, st, w)
    ensures var c := StatesConnection(st, Next(st, ch));
      var e := EffectOn(c);
      var fired := if e.Some? then [(e.value, ch)] else [];
      StoreMatches(p + [ch], Next(st, ch), Replay(w, fired))
  {
    RunsSnoc(p, ch);
    assert EndsInLetter(p + [ch]) == IsLetter(ch);
    var e := EffectOn(StatesConnection(st, Next(st, ch)));
    var fired := if e.Some? then [(e.value, ch)] else [];
    assert fired != [] ==> fired[..0] == [];
    var w' := Replay(w, fired);
    match st
    case Word =>
      if IsLetter(ch) {
        assert w' == Words(w.words, w.wordBuffer + [ch]);
        var r := Runs(p);
        assert r[..|r| - 1] == w.words && r[|r| - 1] == w.wordBuffer;
      } else {
        assert w' == Words(w.words + [w.wordBuffer], []);
      }
    case Init =>
      if IsLetter(ch) {
        assert w' == Words(w.words, [ch]);
      }
    case NumberIp =>
      if IsLetter(ch) {
        assert w' == Words(w.words, [ch]);
      }
    case NumberFp =>
      if IsLetter(ch) {
        assert w' == Words(w.words, [ch]);
      }
  }

  /** The walk over a prefix of the text keeps the store in step. */
  lemma {:induction false} WalkStore(p: string)
    ensures Walk(SplitTable(), Init, p).state.Some?
    ensures StoreMatches(p, Walk(SplitTable(), Init, p).state.value, Replay(Words([], []), Walk(SplitTable(), Init, p).fired))
    decreases |p|
  {
    var t := SplitTable();
    if p == [] {
      assert Replay(Words([], []), []) == Words([], []);
    } else {
      var n := |p| - 1;
      var q := p[..n];
      assert p == q + [p[n]];
      WalkStore(q);
      var a := Walk(t, Init, q);
      WalkAppend(t, Init, q, [p[n]]);
      SplitStep(a.state.value, p[n]);
      var b := Walk(t, a.state.value, [p[n]]);
      ReplayAppend(Words([], []), a.fired, b.fired);
      StoreStep(q, a.state.value, Replay(Words([], []), a.fired), p[n]);
    }
  }

  lemma {:induction false} ReplayAppend(w: Words, x: seq<(Effect, char)>, y: seq<(Effect, char)>)
    ensures Replay(w, x + y) == Replay(Replay(w, x), y)
    decreases |y|
  {
    if y == [] {
      assert x + y == x;
    } else {
      var n := |y| - 1;
      assert (x + y)[..|x + y| - 1] == x + y[..n];
      ReplayAppend(w, x, y[..n]);
    }
  }

  /** The words the store holds after a run of the test's machine over `s`
      are exactly the maximal runs of letters of `s`, in order, and the
      buffer is empty: the post-effect flushes a last word that reaches the
      end of the text. */
  lemma SplitIntoWords(s: string)
    ensures Run(SplitTable(), Init, PostEffect, s, true).0 == Ok(())
    ensures Replay(Words([], []), Fired(Run(SplitTable(), Init, PostEffect, s, true).1)) == Words(Runs(s), [])
  {
    var t := SplitTable();
    var r := Run(t, Init, PostEffect, s, true);
    SplitRunOk(s);
    SplitRunFired(s);
    var wk := Walk(t, Init, s);
    WalkStore(s);
    var w := Replay(Words([], []), wk.fired);
    ReplayPost(w, wk.fired);
    if EndsInLetter(s) {
      assert w.words + [w.wordBuffer] == Runs(s);
    }
  }

  /** Every run of the test's machine succeeds. */
  lemma SplitRunOk(s: string)
    ensures Run(SplitTable(), Init, PostEffect, s, true).0 == Ok(())
  {
    SetupEffectsMerge();
    MergedShape(WordsTable<Effect>(), SetupEffects(), SetupEffects().Keys);
    WordsRunOk(SplitTable(), PostEffect, s, true);
  }

  /** The effects a successful run dispatches: those of the walk over the
      text, then the post-effect. */
  lemma SplitRunFired(s: string)
    requires Run(SplitTable(), Init, PostEffect, s, true).0 == Ok(())
    ensures Fired(Run(SplitTable(), Init, PostEffect, s, true).1) == Walk(SplitTable(), Init, s).fired + [(PostEffect.value, '\0')]
  {
    RunFromWalk(SplitTable(), PostEffect, s, Init, 0, true);
    assert s[0..] == s;
  }

  /** Replaying the post-effect after the walk's effects. */
  lemma ReplayPost(w: Words, fired: seq<(Effect, char)>)
    requires w == Replay(Words([], []), fired)
    ensures Replay(Words([], []), fired + [(PostEffect.value, '\0')]) == Apply(w, CleanupBuffers, '\0')
  {
    ReplayAppend(Words([], []), fired, [(PostEffect.value, '\0')]);
    assert [(PostEffect.value, '\0')][..0] == [];
  }

  // ---------------------------------------------------------------------
  // The test's texts

  /** The words of the three texts of the test. */
  lemma TestTextRuns()
    ensures Runs("the quick brown fox, 123, uw") == ["the", "quick", "brown", "fox", "uw"]
    ensures Runs("$%$&*&,,...") == []
    ensures Runs("1, 2, 2.5, 3 - go!") == ["go"]
  {
    RunsTheQuickBrownFoxUw();
    RunsSymbols();
    RunsGo();
  }

  /** A text that does not end inside a word, followed by a word and a gap. */
  lemma RunsPiece(u: string, w: string, g: string)
    requires !EndsInLetter(u)
    requires w != [] && AllLetters(w) && g != [] && NoLetters(g)
    ensures Runs(u + (w + g)) == Runs(u) + [w]
    ensures !EndsInLetter(u + (w + g))
  {
    RunsSplit(u, w + g);
    RunsWordGap(w, g, []);
    assert w + g + [] == w + g;
    assert (u + (w + g))[|u + (w + g)| - 1] == g[|g| - 1];
  }

  lemma RunsThe()
    ensures Runs("the ") == ["the"] && !EndsInLetter("the ")
  {
    assert "the " == [] + ("the" + " ");
    RunsPiece([], "the", " ");
  }

  lemma RunsTheQuick()
    ensures Runs("the quick ") == ["the", "quick"] && !EndsInLetter("the quick ")
  {
    assert "the quick " == "the " + ("quick" + " ");
    RunsThe();
    RunsPiece("the ", "quick", " ");
  }

  lemma RunsTheQuickBrown()
    ensures Runs("the quick brown ") == ["the", "quick", "brown"] && !EndsInLetter("the quick brown ")
  {
    assert "the quick brown " == "the quick " + ("brown" + " ");
    RunsTheQuick();
    RunsPiece("the quick ", "brown", " ");
  }

  lemma RunsTheQuickBrownFox()
    ensures Runs("the quick brown fox, 123, ") == ["the", "quick", "brown", "fox"] && !EndsInLetter("the quick brown fox, 123, ")
  {
    assert "the quick brown fox, 123, " == "the quick brown " + ("fox" + ", 123, ");
    RunsTheQuickBrown();
    RunsPiece("the quick brown ", "fox", ", 123, ");
  }

  lemma RunsTheQuickBrownFoxUw()
    ensures Runs("the quick brown fox, 123, uw") == ["the", "quick", "brown", "fox", "uw"]
  {
    assert "the quick brown fox, 123, uw" == "the quick brown fox, 123, " + "uw";
    RunsTheQuickBrownFox();
    RunsOfWord("uw");
    RunsSplit("the quick brown fox, 123, ", "uw");
  }

  lemma RunsSymbols()
    ensures Runs("$%$&*&,,...") == []
  {
    assert [] + "$%$&*&,,..." == "$%$&*&,,...";
    RunsAfterGap([], "$%$&*&,,...");
  }

  lemma RunsGo()
    ensures Runs("1, 2, 2.5, 3 - go!") == ["go"]
  {
    assert "1, 2, 2.5, 3 - go!" == "1, 2, 2.5, 3 - " + ("go" + "!");
    assert [] + "1, 2, 2.5, 3 - " == "1, 2, 2.5, 3 - ";
    RunsAfterGap([], "1, 2, 2.5, 3 - ");
    RunsPiece("1, 2, 2.5, 3 - ", "go", "!");
  }

  /** One block of the test: a fresh store, a run that must succeed, and the
      words collected. */
  method CollectWords(fsm: FSM<State, Effect>, s: string) returns (passed: bool, words: seq<string>)
    requires fsm.initialState == Init && fsm.postEffect == PostEffect
    requires fsm.transitionTable == SplitTable()
    ensures passed && words == Runs(s)
  {
    var storage := new Store();
    var log;
    passed, log := TestValidString(fsm, s, true);
    storage.Receive(log);
    words := storage.words;
    SplitIntoWords(s);
  }

  /** `it_works_correctly`: the machine built by `init_fsm` with the
      test's effects and post-effect splits the three texts into the
      expected words. */
  method ItWorksCorrectly() returns (passed: bool, words1: seq<string>, words2: seq<string>, words3: seq<string>)
    ensures passed
    ensures words1 == ["the", "quick", "brown", "fox", "uw"]
    ensures words2 == []
    ensures words3 == ["go"]
  {
    SetupEffectsMerge();
    var fsm := InitFsm(Some(SetupEffects()), PostEffect);
    var p1, p2, p3;
    p1, words1 := CollectWords(fsm, "the quick brown fox, 123, uw");
    p2, words2 := CollectWords(fsm, "$%$&*&,,...");
    p3, words3 := CollectWords(fsm, "1, 2, 2.5, 3 - go!");
    passed := p1 && p2 && p3;
    TestTextRuns();
  }
}
