/** The batch step of the generator: every (word, transliteration) pair is tried on the
    unambiguous path; the pairs it rejects are re-read from their `word transliteration`
    line and sent through the ambiguous path. The lexicon is Kaldi's two constant entries,
    the unambiguous lines, then the ambiguous lines, each group in input order. */
module Lexicon {
  import opened Text
  import opened Tables
  import opened Unambiguous
  import opened Locator
  import opened Ambiguous

  datatype Option<T> = None | Some(value: T)

  /** A line of the lexicon: the word, a space, the phones, a newline. */
  function LexiconLine(word: string, phones: string): string
  {
    word + " " + phones + "\n"
  }

  /** The line kept for a pair the unambiguous path rejected. */
  function DeferredLine(word: string, transliteration: string): string
  {
    word + " " + transliteration
  }

  /** A deferred line that the ambiguous path can take: it splits into at least two fields,
      and the word has a decision for each ambiguous run of the transliteration. */
  predicate AmbiguousRowOk(line: string)
  {
    var row := Fields(line);
    |row| >= 2 && Runs(row[1], 0) <= |Decisions(row[0])|
  }

  /** The ambiguous path's line for a deferred line. */
  function AmbiguousLine(line: string): string
    requires AmbiguousRowOk(line)
  {
    var row := Fields(line);
    LexiconLine(row[0], JoinSpaced(Walk(row[1], Decisions(row[0]), 0)))
  }

  /** What `split_transliteration` gives for each transliteration, in input order. */
  function Splits(transliterations: seq<string>): seq<seq<string>>
  {
    seq(|transliterations|, i requires 0 <= i < |transliterations| => UnambiguousSplit(transliterations[i]))
  }

  /** The unambiguous-path lines of the first `n` pairs, in input order, given what the
      unambiguous path made of each transliteration. */
  function CompleteLines(words: seq<string>, splits: seq<seq<string>>, n: nat): seq<string>
    requires n <= |words| <= |splits|
  {
    if n == 0 then []
    else
      CompleteLines(words, splits, n - 1)
        + if splits[n - 1] != [] then [LexiconLine(words[n - 1], JoinSpaced(splits[n - 1]))] else []
  }

  /** The deferred lines of the first `n` pairs, in input order. */
  function DeferredLines(words: seq<string>, transliterations: seq<string>, splits: seq<seq<string>>, n: nat): seq<string>
    requires n <= |words| <= |transliterations| == |splits|
  {
    if n == 0 then []
    else
      DeferredLines(words, transliterations, splits, n - 1)
        + if splits[n - 1] == [] then [DeferredLine(words[n - 1], transliterations[n - 1])] else []
  }

  /** The ambiguous path's lines, one per deferred line, in order. */
  function AmbiguousLines(lines: seq<string>): seq<string>
    requires forall k :: 0 <= k < |lines| ==> AmbiguousRowOk(lines[k])
  {
    seq(|lines|, k requires 0 <= k < |lines| => AmbiguousLine(lines[k]))
  }

  /** What the source demands of its inputs: when both lists are non-empty, a transliteration
      for every word, and every pair the unambiguous path rejects usable by the ambiguous one. */
  predicate InputsOk(words: seq<string>, transliterations: seq<string>)
  {
    |words| > 0 && |transliterations| > 0 ==>
      |words| <= |transliterations| &&
      forall i :: 0 <= i < |words| && UnambiguousSplit(transliterations[i]) == [] ==>
        AmbiguousRowOk(DeferredLine(words[i], transliterations[i]))
  }

  /** The lines written to the lexicon file, or `None` when either input is empty and the
      program stops without writing. */
  function Lexicon(words: seq<string>, transliterations: seq<string>): Option<seq<string>>
    requires InputsOk(words, transliterations)
  {
    if |words| == 0 || |transliterations| == 0 then None
    else
      var splits := Splits(transliterations);
      DeferredLinesOk(words, transliterations, splits, |words|);
      Some(ConstantSymbols
           + CompleteLines(words, splits, |words|)
           + AmbiguousLines(DeferredLines(words, transliterations, splits, |words|)))
  }

  /** Every deferred line is one the ambiguous path can take. */
  lemma {:induction false} DeferredLinesOk(words: seq<string>, transliterations: seq<string>, splits: seq<seq<string>>, n: nat)
    requires n <= |words| <= |transliterations| == |splits|
    requires forall i :: 0 <= i < n && splits[i] == [] ==>
               AmbiguousRowOk(DeferredLine(words[i], transliterations[i]))
    ensures forall k :: 0 <= k < |DeferredLines(words, transliterations, splits, n)| ==>
              AmbiguousRowOk(DeferredLines(words, transliterations, splits, n)[k])
  {
    if n > 0 {
      DeferredLinesOk(words, transliterations, splits, n - 1);
    }
  }

  /** The top-level run: both input lists are the stripped lines of the two files. */
  method GenerateLexicon(wordsList: seq<string>, transliterationList: seq<string>)
    returns (writeList: Option<seq<string>>)
    requires InputsOk(wordsList, transliterationList)
    ensures writeList == Lexicon(wordsList, transliterationList)
  {
    if |wordsList| == 0 || |transliterationList| == 0 {
      return None;
    }
    var completeLexiconList, incompleteLexiconList := UnambiguousSplits(wordsList, transliterationList);
    DeferredLinesOk(wordsList, transliterationList, Splits(transliterationList), |wordsList|);
    var incSplitList := AmbiguousSplits(incompleteLexiconList);
    writeList := Some(ConstantSymbols + completeLexiconList + incSplitList);
  }

  /** "Processing Unambiguous splits": each pair either gives its line now or is deferred. */
  method UnambiguousSplits(wordsList: seq<string>, transliterationList: seq<string>)
    returns (completeLexiconList: seq<string>, incompleteLexiconList: seq<string>)
    requires |wordsList| <= |transliterationList|
    ensures completeLexiconList == CompleteLines(wordsList, Splits(transliterationList), |wordsList|)
    ensures incompleteLexiconList
         == DeferredLines(wordsList, transliterationList, Splits(transliterationList), |wordsList|)
  {
    ghost var splits := Splits(transliterationList);
    completeLexiconList, incompleteLexiconList := [], [];
    for index := 0 to |wordsList|
      invariant completeLexiconList == CompleteLines(wordsList, splits, index)
      invariant incompleteLexiconList == DeferredLines(wordsList, transliterationList, splits, index)
    {
      var word := wordsList[index];
      var transliteration := transliterationList[index];
      var splittedTransliteration := SplitTransliteration(transliteration);
      GroupsStep(wordsList, transliterationList, splits, index);
      if |splittedTransliteration| > 0 {
        var transliterationResult := JoinSpaced(splittedTransliteration);
        completeLexiconList := completeLexiconList + [LexiconLine(word, transliterationResult)];
      } else {
        incompleteLexiconList := incompleteLexiconList + [DeferredLine(word, transliteration)];
      }
    }
  }

  /** "Processing Ambiguous splits": each deferred line is split into fields, and the second
      field is walked with the decisions the first one gives. */
  method AmbiguousSplits(incompleteLexiconList: seq<string>) returns (incSplitList: seq<string>)
    requires forall k :: 0 <= k < |incompleteLexiconList| ==> AmbiguousRowOk(incompleteLexiconList[k])
    ensures incSplitList == AmbiguousLines(incompleteLexiconList)
  {
    incSplitList := [];
    for k := 0 to |incompleteLexiconList|
      invariant |incSplitList| == k
      invariant forall m :: 0 <= m < k ==> incSplitList[m] == AmbiguousLine(incompleteLexiconList[m])
    {
      var row := Fields(incompleteLexiconList[k]);
      var actual := row[0];
      var phonetic := SplitWord(row[1], actual);
      incSplitList := incSplitList + [LexiconLine(actual, phonetic)];
    }
  }

  /** The groups of the first `i + 1` pairs: pair `i` adds its line to exactly one of them. */
  lemma GroupsStep(words: seq<string>, transliterations: seq<string>, splits: seq<seq<string>>, i: nat)
    requires i < |words| <= |transliterations| == |splits|
    ensures var complete := CompleteLines(words, splits, i);
            var deferred := DeferredLines(words, transliterations, splits, i);
            if splits[i] != [] then
              CompleteLines(words, splits, i + 1) == complete + [LexiconLine(words[i], JoinSpaced(splits[i]))] &&
              DeferredLines(words, transliterations, splits, i + 1) == deferred
            else
              CompleteLines(words, splits, i + 1) == complete &&
              DeferredLines(words, transliterations, splits, i + 1)
                == deferred + [DeferredLine(words[i], transliterations[i])]
  {
  }

  /** Each pair lands in exactly one of the two groups. */
  lemma {:induction false} GroupsPartition(words: seq<string>, transliterations: seq<string>, splits: seq<seq<string>>, n: nat)
    requires n <= |words| <= |transliterations| == |splits|
    ensures |CompleteLines(words, splits, n)| + |DeferredLines(words, transliterations, splits, n)| == n
  {
    if n > 0 {
      GroupsPartition(words, transliterations, splits, n - 1);
      GroupsOneMore(words, transliterations, splits, n - 1);
    }
  }

  /** The lexicon opens with `<UNK> SPN` and `<SIL> SIL`, once, and then has one line per
      word: nothing is written when either input is empty. */
  lemma LexiconShape(words: seq<string>, transliterations: seq<string>)
    requires InputsOk(words, transliterations)
    ensures Lexicon(words, transliterations).Some? <==> |words| > 0 && |transliterations| > 0
    ensures Lexicon(words, transliterations).Some? ==>
              var lines := Lexicon(words, transliterations).value;
              |lines| == 2 + |words| && lines[0] == "<UNK> SPN\n" && lines[1] == "<SIL> SIL\n"
  {
    if |words| > 0 && |transliterations| > 0 {
      GroupsPartition(words, transliterations, Splits(transliterations), |words|);
      DeferredLinesOk(words, transliterations, Splits(transliterations), |words|);
    }
  }

  /** A group of the first `m` pairs is the start of the group of the first `n` pairs. */
  lemma {:induction false} GroupsGrow(words: seq<string>, transliterations: seq<string>, splits: seq<seq<string>>, m: nat, n: nat)
    requires m <= n <= |words| <= |transliterations| == |splits|
    ensures CompleteLines(words, splits, m) <= CompleteLines(words, splits, n)
    ensures DeferredLines(words, transliterations, splits, m) <= DeferredLines(words, transliterations, splits, n)
    decreases n - m
  {
    if m < n {
      GroupsGrow(words, transliterations, splits, m, n - 1);
      GroupsOneMore(words, transliterations, splits, n - 1);
    }
  }

  /** Pair `i` adds one line in all, and each group of the first `i` pairs is a prefix of the
      same group of the first `i + 1` pairs. */
  lemma GroupsOneMore(words: seq<string>, transliterations: seq<string>, splits: seq<seq<string>>, i: nat)
    requires i < |words| <= |transliterations| == |splits|
    ensures |CompleteLines(words, splits, i + 1)| + |DeferredLines(words, transliterations, splits, i + 1)|
         == |CompleteLines(words, splits, i)| + |DeferredLines(words, transliterations, splits, i)| + 1
    ensures CompleteLines(words, splits, i) <= CompleteLines(words, splits, i + 1)
    ensures DeferredLines(words, transliterations, splits, i) <= DeferredLines(words, transliterations, splits, i + 1)
  {
    GroupsStep(words, transliterations, splits, i);
  }

  /** An unambiguous pair's line sits in its group right after those of the earlier pairs. */
  lemma CompletePlacement(words: seq<string>, transliterations: seq<string>, splits: seq<seq<string>>, i: nat)
    requires i < |words| <= |transliterations| == |splits|
    requires splits[i] != []
    ensures |CompleteLines(words, splits, i)| < |CompleteLines(words, splits, |words|)|
    ensures CompleteLines(words, splits, |words|)[|CompleteLines(words, splits, i)|]
         == LexiconLine(words[i], JoinSpaced(splits[i]))
  {
    var line := LexiconLine(words[i], JoinSpaced(splits[i]));
    assert CompleteLines(words, splits, i) + [line] <= CompleteLines(words, splits, |words|) by {
      GroupsGrow(words, transliterations, splits, i + 1, |words|);
      GroupsStep(words, transliterations, splits, i);
    }
    NextInPrefix(CompleteLines(words, splits, i), line, CompleteLines(words, splits, |words|));
  }

  /** A rejected pair's deferred line sits in its group right after those of the earlier pairs. */
  lemma DeferredPlacement(words: seq<string>, transliterations: seq<string>, splits: seq<seq<string>>, i: nat)
    requires i < |words| <= |transliterations| == |splits|
    requires splits[i] == []
    ensures |DeferredLines(words, transliterations, splits, i)| < |DeferredLines(words, transliterations, splits, |words|)|
    ensures DeferredLines(words, transliterations, splits, |words|)[|DeferredLines(words, transliterations, splits, i)|]
         == DeferredLine(words[i], transliterations[i])
  {
    var line := DeferredLine(words[i], transliterations[i]);
    assert DeferredLines(words, transliterations, splits, i) + [line]
        <= DeferredLines(words, transliterations, splits, |words|) by {
      GroupsGrow(words, transliterations, splits, i + 1, |words|);
      GroupsStep(words, transliterations, splits, i);
    }
    NextInPrefix(DeferredLines(words, transliterations, splits, i), line,
                 DeferredLines(words, transliterations, splits, |words|));
  }

  lemma NextInPrefix(a: seq<string>, x: string, b: seq<string>)
    requires a + [x] <= b
    ensures |a| < |b| && b[|a|] == x
  {
    assert b[|a|] == (a + [x])[|a|];
  }

  /** Where the pair at `i` ends up in the lexicon: its unambiguous line right after those of
      the earlier unambiguous pairs, or its ambiguous line right after those of the earlier
      deferred pairs, behind every unambiguous line. */
  lemma PairPlacement(words: seq<string>, transliterations: seq<string>, i: nat)
    requires InputsOk(words, transliterations)
    requires i < |words| && |transliterations| > 0
    ensures var lines := Lexicon(words, transliterations).value;
            var splits := Splits(transliterations);
            var split := UnambiguousSplit(transliterations[i]);
            var c := |CompleteLines(words, splits, i)|;
            var d := |DeferredLines(words, transliterations, splits, i)|;
            var allComplete := |CompleteLines(words, splits, |words|)|;
            if split != [] then
              2 + c < |lines| && lines[2 + c] == LexiconLine(words[i], JoinSpaced(split))
            else
              AmbiguousRowOk(DeferredLine(words[i], transliterations[i])) &&
              2 + allComplete + d < |lines| &&
              lines[2 + allComplete + d] == AmbiguousLine(DeferredLine(words[i], transliterations[i]))
  {
    var n := |words|;
    var splits := Splits(transliterations);
    var complete := CompleteLines(words, splits, n);
    var deferred := DeferredLines(words, transliterations, splits, n);
    DeferredLinesOk(words, transliterations, splits, n);
    var ambiguous := AmbiguousLines(deferred);
    var lines := Lexicon(words, transliterations).value;
    assert lines == ConstantSymbols + complete + ambiguous;
    if splits[i] != [] {
      CompletePlacement(words, transliterations, splits, i);
      var c := |CompleteLines(words, splits, i)|;
      assert lines[2 + c] == complete[c];
    } else {
      DeferredPlacement(words, transliterations, splits, i);
      var d := |DeferredLines(words, transliterations, splits, i)|;
      assert lines[2 + |complete| + d] == ambiguous[d];
    }
  }

  /** For a word and a transliteration without whitespace, re-reading the deferred line gives
      the pair back, so the ambiguous path sees the word and its transliteration. */
  lemma DeferredLineFields(word: string, transliteration: string)
    requires word != [] && NoWhitespace(word)
    requires transliteration != [] && NoWhitespace(transliteration)
    ensures Fields(DeferredLine(word, transliteration)) == [word, transliteration]
  {
    FieldsOfJoinSpaced([word, transliteration]);
    assert JoinSpaced([word, transliteration]) == word + " " + JoinSpaced([transliteration]);
  }
}
