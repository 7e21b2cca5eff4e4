/** The words of a text as the test automata understand them: maximal runs of
    ASCII letters. This is the reference both the counting and the splitting
    effectors are proved against. */
module LetterRuns {
  import opened TestUtils

  /** The runs after one more character `c`: a letter extends the last run
      when the previous character was a letter (`continues`) and starts a
      new one otherwise; any other character leaves the runs as they are. */
  function Extend(r: seq<string>, continues: bool, c: char): seq<string>
    requires continues ==> |r| > 0
  {
    if !IsLetter(c) then r
    else if continues then r[..|r| - 1] + [r[|r| - 1] + [c]]
    else r + [[c]]
  }

  /** Whether the last character of `w` is a letter. */
  predicate EndsInLetter(w: string) {
    w != [] && IsLetter(w[|w| - 1])
  }

  /** The maximal runs of letters of `w`, in order. */
  function Runs(w: string): (r: seq<string>)
    ensures EndsInLetter(w) ==> |r| > 0
    decreases |w|
  {
    if w == [] then []
    else
      var n := |w| - 1;
      Extend(Runs(w[..n]), EndsInLetter(w[..n]), w[n])
  }

  /** The letters of `w`, in order. */
  function Letters(w: string): string
    decreases |w|
  {
    if w == [] then []
    else Letters(w[..|w| - 1]) + (if IsLetter(w[|w| - 1]) then [w[|w| - 1]] else [])
  }

  /** The runs laid end to end. */
  function Flatten(rs: seq<string>): string
    decreases |rs|
  {
    if rs == [] then [] else Flatten(rs[..|rs| - 1]) + rs[|rs| - 1]
  }

  /** Runs after one more character. */
  lemma {:induction false} RunsSnoc(w: string, c: char)
    ensures Runs(w + [c]) == Extend(Runs(w), EndsInLetter(w), c)
  {
    assert (w + [c])[..|w|] == w;
  }

  lemma {:induction false} ExtendAppend(a: seq<string>, b: seq<string>, continues: bool, c: char)
    requires continues ==> |b| > 0
    ensures Extend(a + b, continues, c) == a + Extend(b, continues, c)
  {
    if IsLetter(c) && continues {
      assert (a + b)[..|a + b| - 1] == a + b[..|b| - 1];
    }
  }

  /** Every run is a non-empty string of letters. */
  lemma {:induction false} RunsAreWords(w: string)
    ensures forall i :: 0 <= i < |Runs(w)| ==> |Runs(w)[i]| > 0 && forall j :: 0 <= j < |Runs(w)[i]| ==> IsLetter(Runs(w)[i][j])
    decreases |w|
  {
    if w != [] {
      RunsAreWords(w[..|w| - 1]);
    }
  }

  lemma {:induction false} FlattenSnoc(p: seq<string>, x: string)
    ensures Flatten(p + [x]) == Flatten(p) + x
  {
    assert (p + [x])[..|p|] == p;
  }

  lemma {:induction false} FlattenExtend(r: seq<string>, continues: bool, c: char)
    requires continues ==> |r| > 0
    ensures Flatten(Extend(r, continues, c)) == Flatten(r) + (if IsLetter(c) then [c] else [])
  {
    if IsLetter(c) {
      if continues {
        var k := |r| - 1;
        FlattenSnoc(r[..k], r[k] + [c]);
        assert r[..k] + [r[k]] == r;
        FlattenSnoc(r[..k], r[k]);
      } else {
        FlattenSnoc(r, [c]);
      }
    }
  }

  /** No letter is lost or reordered: the runs laid end to end are exactly
      the letters of `w`. */
  lemma {:induction false} RunsLetters(w: string)
    ensures Flatten(Runs(w)) == Letters(w)
    decreases |w|
  {
    if w != [] {
      var n := |w| - 1;
      RunsLetters(w[..n]);
      FlattenExtend(Runs(w[..n]), EndsInLetter(w[..n]), w[n]);
    }
  }

  /** Text that ends in a non-letter (or is empty) and the text after it
      have separate runs. */
  lemma {:induction false} RunsSplit(u: string, v: string)
    requires !EndsInLetter(u)
    ensures Runs(u + v) == Runs(u) + Runs(v)
    decreases |v|
  {
    if v == [] {
      assert u + v == u;
    } else {
      var m := |v| - 1;
      var v' := v[..m];
      assert v == v' + [v[m]];
      assert u + v == (u + v') + [v[m]];
      RunsSplit(u, v');
      RunsSnoc(u + v', v[m]);
      RunsSnoc(v', v[m]);
      assert EndsInLetter(u + v') == EndsInLetter(v') by {
        if v' != [] { assert (u + v')[|u + v'| - 1] == v'[|v'| - 1]; } else { assert u + v' == u; }
      }
      ExtendAppend(Runs(u), Runs(v'), EndsInLetter(v'), v[m]);
    }
  }

  /** Every character of `w` is a letter. */
  predicate AllLetters(w: string) {
    forall j :: 0 <= j < |w| ==> IsLetter(w[j])
  }

  /** No character of `w` is a letter. */
  predicate NoLetters(w: string) {
    forall j :: 0 <= j < |w| ==> !IsLetter(w[j])
  }

  /** A non-empty string of letters is one run. */
  lemma {:induction false} RunsOfWord(w: string)
    requires w != [] && AllLetters(w)
    ensures Runs(w) == [w]
    decreases |w|
  {
    var n := |w| - 1;
    var p := w[..n];
    assert w == p + [w[n]];
    RunsSnoc(p, w[n]);
    if p == [] {
      assert Runs(p) == [];
    } else {
      assert AllLetters(p) by {
        forall j | 0 <= j < |p| ensures IsLetter(p[j]) { assert p[j] == w[j]; }
      }
      RunsOfWord(p);
    }
  }

  /** Characters other than letters add no run. */
  lemma {:induction false} RunsAfterGap(u: string, g: string)
    requires NoLetters(g)
    ensures Runs(u + g) == Runs(u)
    decreases |g|
  {
    if g == [] {
      assert u + g == u;
    } else {
      var n := |g| - 1;
      var g' := g[..n];
      assert u + g == (u + g') + [g[n]];
      assert NoLetters(g') by {
        forall j | 0 <= j < |g'| ensures !IsLetter(g'[j]) { assert g'[j] == g[j]; }
      }
      RunsAfterGap(u, g');
      RunsSnoc(u + g', g[n]);
    }
  }

  /** A word, then a non-empty gap without letters, then anything: the word
      is the first run. */
  lemma RunsWordGap(w: string, g: string, rest: string)
    requires w != [] && AllLetters(w) && g != [] && NoLetters(g)
    ensures Runs(w + g + rest) == [w] + Runs(rest)
  {
    RunsOfWord(w);
    RunsAfterGap(w, g);
    assert (w + g)[|w + g| - 1] == g[|g| - 1];
    RunsSplit(w + g, rest);
  }
}

