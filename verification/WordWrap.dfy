/** Greedy word wrapping, and why no other way of cutting the words uses fewer lines. */
module WordWrap {
  import opened Bytes
  import opened Text

  /** A line may hold a single word of any length, or words that fit the limit when joined. */
  predicate Fits(line: seq<Bytes>, max: int) {
    |line| == 1 || (|line| > 1 && |Join(line)| <= max)
  }

  function Flatten(cut: seq<seq<Bytes>>): (words: seq<Bytes>) {
    if cut == [] then [] else cut[0] + Flatten(cut[1..])
  }

  /** A way to cut the words into consecutive lines that all fit. */
  ghost predicate IsCut(cut: seq<seq<Bytes>>, words: seq<Bytes>, max: int) {
    Flatten(cut) == words && forall i :: 0 <= i < |cut| ==> Fits(cut[i], max)
  }

  /** How many words the first line takes, having taken k. */
  function FirstLine(words: seq<Bytes>, k: nat, max: int): (n: nat)
    requires 1 <= k <= |words|
    ensures k <= n <= |words|
    decreases |words| - k
  {
    if k < |words| && |Join(words[..k])| + 1 + |words[k]| <= max then FirstLine(words, k + 1, max) else k
  }

  function Greedy(words: seq<Bytes>, max: int): (cut: seq<seq<Bytes>>)
    decreases |words|
  {
    if words == [] then []
    else
      var n := FirstLine(words, 1, max);
      [words[..n]] + Greedy(words[n..], max)
  }

  function JoinAll(cut: seq<seq<Bytes>>): (lines: seq<Bytes>) {
    seq(|cut|, i requires 0 <= i < |cut| => Join(cut[i]))
  }

  // ----- joined lengths -----

  lemma {:induction false} JoinAppend(line: seq<Bytes>, w: Bytes)
    requires line != []
    ensures Join(line + [w]) == Join(line) + [SPACE] + w
  {
    if |line| > 1 {
      JoinAppend(line[1..], w);
      assert (line + [w])[1..] == line[1..] + [w];
    } else {
      assert (line + [w])[1..] == [w];
    }
  }

  /** Dropping words from the front or the back of a line never makes it longer. */
  lemma {:induction false} JoinShorter(line: seq<Bytes>, i: nat, j: nat)
    requires i < j <= |line|
    ensures |Join(line[i..j])| <= |Join(line)|
    decreases i + (|line| - j)
  {
    if i > 0 {
      assert line[1..][i - 1..j - 1] == line[i..j];
      JoinShorter(line[1..], i - 1, j - 1);
    } else if j < |line| {
      var front := line[..|line| - 1];
      assert front[0..j] == line[0..j];
      JoinShorter(front, 0, j);
      JoinAppend(front, line[|line| - 1]);
      assert line == front + [line[|line| - 1]];
    } else {
      assert line[i..j] == line;
    }
  }

  // ----- the first line is as long as it can be -----

  lemma {:induction false} FirstLineFits(words: seq<Bytes>, k: nat, max: int)
    requires 1 <= k <= |words| && Fits(words[..k], max)
    ensures Fits(words[..FirstLine(words, k, max)], max)
    decreases |words| - k
  {
    if k == |words| || |Join(words[..k])| + 1 + |words[k]| > max {
    } else {
      JoinAppend(words[..k], words[k]);
      assert words[..k + 1] == words[..k] + [words[k]];
      FirstLineFits(words, k + 1, max);
    }
  }

  lemma {:induction false} FirstLineIsLongest(words: seq<Bytes>, k: nat, m: nat, max: int)
    requires 1 <= k <= m <= |words| && Fits(words[..m], max)
    ensures FirstLine(words, k, max) >= m
    decreases |words| - k
  {
    if k == m {
    } else {
      JoinAppend(words[..k], words[k]);
      assert words[..k + 1] == words[..k] + [words[k]];
      assert words[..m][0..k + 1] == words[..k + 1];
      JoinShorter(words[..m], 0, k + 1);
      FirstLineIsLongest(words, k + 1, m, max);
    }
  }

  // ----- greedy is optimal -----

  /** A line begun inside the first line reaches at least as far as it. */
  lemma InnerLineReachesEnd(words: seq<Bytes>, i: nat, max: int)
    requires 0 < i < |words| && i < FirstLine(words, 1, max)
    ensures i + FirstLine(words[i..], 1, max) >= FirstLine(words, 1, max)
  {
    var n, later := FirstLine(words, 1, max), words[i..];
    FirstLineFits(words, 1, max);
    assert words[..n][i..n] == later[..n - i];
    JoinShorter(words[..n], i, n);
    FirstLineIsLongest(later, 1, n - i, max);
  }

  /** Starting later never needs more lines. */
  lemma {:induction false} LaterStartNoWorse(words: seq<Bytes>, i: nat, max: int)
    requires i <= |words|
    ensures |Greedy(words[i..], max)| <= |Greedy(words, max)|
    decreases |words|
  {
    if i == 0 {
      assert words[0..] == words;
    } else if i < |words| {
      var n := FirstLine(words, 1, max);
      var rest := words[n..];
      if i >= n {
        assert rest[i - n..] == words[i..];
        LaterStartNoWorse(rest, i - n, max);
      } else {
        var end := i + FirstLine(words[i..], 1, max);
        InnerLineReachesEnd(words, i, max);
        assert rest[end - n..] == words[end..] == words[i..][end - i..];
        LaterStartNoWorse(rest, end - n, max);
      }
    }
  }

  lemma {:induction false} GreedyIsACut(words: seq<Bytes>, max: int)
    ensures IsCut(Greedy(words, max), words, max)
    decreases |words|
  {
    if words == [] {
    } else {
      var n := FirstLine(words, 1, max);
      FirstLineFits(words, 1, max);
      GreedyIsACut(words[n..], max);
      var cut := Greedy(words, max);
      assert cut[1..] == Greedy(words[n..], max);
      assert forall i :: 0 < i < |cut| ==> cut[i] == cut[1..][i - 1];
    }
  }

  /** No cut of the same words uses fewer lines. */
  lemma {:induction false} GreedyIsOptimal(cut: seq<seq<Bytes>>, words: seq<Bytes>, max: int)
    requires IsCut(cut, words, max)
    ensures |Greedy(words, max)| <= |cut|
    decreases |cut|
  {
    if cut == [] {
    } else {
      var m := |cut[0]|;
      assert words[..m] == cut[0] && words[m..] == Flatten(cut[1..]);
      GreedyIsOptimal(cut[1..], words[m..], max);
      var n := FirstLine(words, 1, max);
      FirstLineIsLongest(words, 1, m, max);
      assert words[m..][n - m..] == words[n..];
      LaterStartNoWorse(words[m..], n - m, max);
    }
  }

  // ----- the method -----

  /** The line from start to i is the beginning of a greedy line, which may still grow. */
  ghost predicate Open(words: seq<Bytes>, start: nat, i: nat, max: int) {
    && start < i <= |words|
    && FirstLine(words[start..], 1, max) == FirstLine(words[start..], i - start, max)
  }

  /** The loop's state after i words: `done` lines put away, the line from `start` under way. */
  ghost predicate Wrapping(words: seq<Bytes>, max: int, i: nat, line: Bytes, lines: seq<Bytes>, start: nat,
      done: seq<seq<Bytes>>)
  {
    && Open(words, start, i, max)
    && line == Join(words[start..i]) && line != []
    && Greedy(words, max) == done + Greedy(words[start..], max)
    && lines == JoinAll(done)
  }

  lemma WrapStarts(words: seq<Bytes>, max: int)
    requires words != [] && words[0] != []
    ensures Wrapping(words, max, 1, words[0], [], 0, [])
  {
    assert words[0..] == words && words[0..1] == [words[0]];
  }

  lemma WrapTakes(words: seq<Bytes>, max: int, i: nat, line: Bytes, lines: seq<Bytes>, start: nat,
      done: seq<seq<Bytes>>)
    requires Wrapping(words, max, i, line, lines, start, done) && i < |words|
    requires |line| + 1 + |words[i]| <= max
    ensures Wrapping(words, max, i + 1, line + [SPACE] + words[i], lines, start, done)
  {
    assert words[start..][..i - start] == words[start..i];
    assert words[start..i + 1] == words[start..i] + [words[i]];
    JoinAppend(words[start..i], words[i]);
  }

  /** A greedy line is closed when the next word does not fit, or there is none. */
  lemma LineBreaks(words: seq<Bytes>, start: nat, i: nat, max: int)
    requires Open(words, start, i, max)
    requires i == |words| || |Join(words[start..i])| + 1 + |words[i]| > max
    ensures Greedy(words[start..], max) == [words[start..i]] + Greedy(words[i..], max)
  {
    assert words[start..][..i - start] == words[start..i];
    assert words[start..][i - start..] == words[i..];
  }

  lemma WrapBreaks(words: seq<Bytes>, max: int, i: nat, line: Bytes, lines: seq<Bytes>, start: nat,
      done: seq<seq<Bytes>>)
    requires Wrapping(words, max, i, line, lines, start, done) && i < |words| && words[i] != []
    requires |line| + 1 + |words[i]| > max
    ensures Wrapping(words, max, i + 1, words[i], lines + [line], i, done + [words[start..i]])
  {
    LineBreaks(words, start, i, max);
    assert words[i..i + 1] == [words[i]];
    assert done + ([words[start..i]] + Greedy(words[i..], max)) == (done + [words[start..i]]) + Greedy(words[i..], max);
  }

  lemma WrapEnds(words: seq<Bytes>, max: int, line: Bytes, lines: seq<Bytes>, start: nat, done: seq<seq<Bytes>>)
    requires Wrapping(words, max, |words|, line, lines, start, done)
    ensures lines + [line] == JoinAll(Greedy(words, max))
  {
    LineBreaks(words, start, |words|, max);
    assert Greedy(words, max) == done + [words[start..|words|]];
  }

  /** The loop of the source: `line` grows while the next word fits and is put away when it does not. */
  method WrapWords(words: seq<Bytes>, max: int) returns (lines: seq<Bytes>)
    requires AreWords(words)
    ensures lines == JoinAll(Greedy(words, max))
  {
    lines := [];
    if |words| == 0 { return; }
    var line: Bytes := [];
    ghost var start: nat, done: seq<seq<Bytes>> := 0, [];
    for i := 0 to |words|
      invariant i == 0 ==> start == 0 && line == [] && lines == [] && done == []
      invariant i > 0 ==> Wrapping(words, max, i, line, lines, start, done)
    {
      var w := words[i];
      if line == [] {
        WrapStarts(words, max);
        line := w;
        continue;
      }
      if |line| + 1 + |w| <= max {
        WrapTakes(words, max, i, line, lines, start, done);
        line := line + [SPACE] + w;
      } else {
        WrapBreaks(words, max, i, line, lines, start, done);
        lines := lines + [line];
        line := w;
        done, start := done + [words[start..i]], i;
      }
    }
    WrapEnds(words, max, line, lines, start, done);
    if line != [] {
      lines := lines + [line];
    }
  }

  /** Wraps s at max bytes a line. The lines hold exactly the words of s in order, each line fits or is
      a single word, and no cut with that property has fewer lines. */
  method Wrap(s: Bytes, max: int) returns (lines: seq<Bytes>, ghost cut: seq<seq<Bytes>>)
    ensures lines == JoinAll(cut)
    ensures IsCut(cut, Fields(s), max)
    ensures forall other :: IsCut(other, Fields(s), max) ==> |lines| <= |other|
  {
    var words := Fields(s);
    FieldsAreWords(s);
    lines := WrapWords(words, max);
    cut := Greedy(words, max);
    GreedyIsACut(words, max);
    forall other | IsCut(other, words, max)
      ensures |Greedy(words, max)| <= |other|
    {
      GreedyIsOptimal(other, words, max);
    }
  }
}
