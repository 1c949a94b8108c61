# Sinhala lexicon generator, modelled in Dafny

The generator builds a Kaldi pronunciation lexicon for Sinhala speech recognition. Its input is
a list of words in Sinhala script and a list of their Latin transliterations, one per word.
It turns each transliteration into space-separated phone tokens, and it writes the lines
`word phone phone ...` after Kaldi's two constant entries `<UNK> SPN` and `<SIL> SIL`.

A transliteration goes through one of two paths:

- **Unambiguous path** (`split_transliteration`). A transliteration in which no marker of
  `two_char_phones` occurs is cut into one-letter phones. A letter followed by the modifier
  `^` or `:` takes the modifier with it. The scan then moves on past the merged pair, so a
  modifier right after it is a letter like any other: `a::` gives `a:`, `:` and `a:::`
  gives `a:`, `::`. If a marker occurs, the path returns `[]`, which
  defers the pair to the other path.
- **Ambiguous path** (`split_word`). A cursor walks the transliteration and tries five things
  in a fixed order:
  1. an ambiguous three-letter run;
  2. a safe three-letter phone;
  3. an ambiguous two-letter run;
  4. a safe two-letter phone;
  5. a single letter.

  Each ambiguous run (`ng`, `nd^`, `ri`, …) is one phone or two. The choice comes from the
  word's Sinhala spelling. The locator `checkInLooks` finds every Sinhala glyph pattern of
  the two ambiguous tables in the word and records, at its start position, whether the run
  splits. The decisions are then read out in ascending position order, and each run the walk
  meets takes the next one.

The lexicon is the two constant lines, then the unambiguous-path lines in input order, then
the ambiguous-path lines in input order.

Modules:

- `Tables` (`tables.dfy`) holds the constants.
- `Text` (`text.dfy`) holds Python's substring test, `re.finditer` on a literal pattern,
  `' '.join` and `str.split()`.
- `Unambiguous` (`unambiguous.dfy`) is `split_transliteration`.
- `Locator` (`locator.dfy`) is `checkInLooks`.
- `Ambiguous` (`ambiguous.dfy`) holds `lookForThreeChar`, `lookForTwoChar` and `split_word`.
- `Lexicon` (`lexicon.dfy`) is the batch run.

The code that changes state step by step is modelled by methods with loops. Each method is
proved equal to a specification function, and the properties are proved about those
functions. This covers the merge loop, the dictionary filling and read-out, the cursor loop
and the two batch loops. The Python dictionary `looks` is a `map<nat, bool>`. The ordered
dictionaries of glyph patterns are sequences kept in their insertion order, because in the
source a later write at the same position wins.

## Model

| member | source | states |
|---|---|---|
| Unambiguous.SplitTransliteration | lexiconGenerator.py:60-76 | the merge loop, run in place on the character list, returns exactly `UnambiguousSplit`: `[]` when a marker occurs, otherwise the letter/modifier segmentation; no index leaves the list and the loop ends |
| Unambiguous.MergeInvariant | lexiconGenerator.py:70-71 | replacing a letter and the modifier after it by their concatenation keeps the list equal to the segmentation done so far followed by the letters still to do, one element shorter |
| Unambiguous.KeepInvariant | lexiconGenerator.py:70-73 | moving past a letter that no modifier follows keeps the same relation with that letter as a finished token |
| Unambiguous.UnambiguousSplitEmpty | lexiconGenerator.py:62-69 | the result is `[]` exactly when some marker occurs or the input is empty; otherwise the tokens concatenate back to the input |
| Unambiguous.ModifierSegmentsConcat | lexiconGenerator.py:67-76 | the merged tokens concatenated are the transliteration |
| Unambiguous.ModifierSegmentsShape | lexiconGenerator.py:69-74 | every token is one letter, or a letter and a `^`/`:`; no one-letter token is followed by a token starting with a modifier; there are at most as many tokens as letters, and some when the input is non-empty |
| Unambiguous.ModifierSegmentsUnique | lexiconGenerator.py:67-76 | any token list that concatenates to the input, has only those two shapes and merges greedily is the segmentation the loop computes |
| Unambiguous.ModifierSegmentsAt | lexiconGenerator.py:70-72 | one step of the loop: the token at a position is two letters when a modifier follows, one letter otherwise |
| Unambiguous.UnambiguousSplitSingle | lexiconGenerator.py:67-69 | a one-letter transliteration comes back as that single token |
| Unambiguous.NoMarkerIn | lexiconGenerator.py:62 | a string in which no two neighbouring letters begin a marker is not rejected |
| Unambiguous.ModifierMergeExample | lexiconGenerator.py:67-76 | `ama:` is cut into `a`, `m`, `a:` |
| Unambiguous.ModifierAfterMergeExample | lexiconGenerator.py:69-74 | a modifier right after a merged pair stays alone or merges with the modifier after it: `a::` gives `a:`, `:` and `a:::` gives `a:`, `::` |
| Unambiguous.RuStaysUnambiguous | lexiconGenerator.py:22-28 | `ru` is not a marker, so it stays on this path and becomes `r`, `u` |
| Ambiguous.LookForThreeChar | lexiconGenerator.py:82-89 | an ambiguous run with its code exactly when three letters remain and they are in `threeCharLook`; safe exactly when they are in `threeCharOk` instead; the cursor moves to `i+3` on either and stays at `i` otherwise |
| Ambiguous.LookForTwoChar | lexiconGenerator.py:95-102 | the same for two letters against `twoCharLook` and `twoCharOk`; the cursor moves to `i+2` on a hit and to `i+1` otherwise |
| Ambiguous.Advance | lexiconGenerator.py:133-160 | each step moves the cursor forward by one to three letters and never past the end |
| Ambiguous.EmitRun | lexiconGenerator.py:136-156 | a run to split becomes its first letter and the rest; a run to merge stays whole; either way the tokens rebuild the run |
| Ambiguous.StepTokens | lexiconGenerator.py:134-160 | one step emits one or two tokens of one to three letters that rebuild exactly the letters the cursor passed; outside a run it emits those letters as one token |
| Ambiguous.StepOrder | lexiconGenerator.py:134-160 | the priority at a step: ambiguous three-letter run, safe three-letter phone, ambiguous two-letter run, safe two-letter phone, single letter, each with its cursor move and tokens |
| Ambiguous.Runs | lexiconGenerator.py:135-157 | the number of decisions `looks[counter]` will read: one per ambiguous run the cursor meets, at most half the letters left, since a run spans two or three letters |
| Ambiguous.WalkUnfold | lexiconGenerator.py:133-160 | proof step of the cursor loop's invariant, one unfolding of `Walk`: a run consumes the first remaining decision and other steps consume none |
| Ambiguous.WalkWithDecisions | lexiconGenerator.py:130-160 | the cursor loop with `counter` and `spaced` computes the walk, taking one decision per ambiguous run |
| Ambiguous.StepWithDecisions | lexiconGenerator.py:134-159 | the body of the cursor loop returns the step's tokens, the next cursor and one decision used exactly when the step is an ambiguous run |
| Ambiguous.WalkStep | lexiconGenerator.py:133-160 | proof step of the cursor loop's invariant: after one step the tokens collected so far plus the walk of the rest are still the whole walk, and a run finds a decision left for it |
| Ambiguous.SplitWord | lexiconGenerator.py:128-161 | `split_word` is the walk over the locator's decisions, joined by spaces, given at least as many decisions as runs |
| Ambiguous.WalkConcat | lexiconGenerator.py:133-160 | the walk's tokens concatenated are the transliteration |
| Ambiguous.WalkTokenLengths | lexiconGenerator.py:137-159 | every token is one to three letters long |
| Ambiguous.WalkUsesRunsDecisions | lexiconGenerator.py:135-157 | only the first `Runs` decisions are used, one per run and in order; extra decisions are ignored |
| Ambiguous.SplitWordRoundTrip | lexiconGenerator.py:128-161 | removing the spaces from `split_word`'s line gives back the transliteration |
| Ambiguous.AhIsTwoLetters | lexiconGenerator.py:95-102 | `ah`, a marker with no ambiguous entry, is neither a run nor a safe phone, so it takes no decision and becomes `a`, `h` |
| Ambiguous.NgFollowsDecision | lexiconGenerator.py:149-157 | `ng` takes one decision: merged it is `ng`, split it is `n`, `g` |
| Locator.CheckInLooks | lexiconGenerator.py:107-121 | the method that fills the dictionary and reads it out in sorted key order returns `Decisions` |
| Locator.ScanTable | lexiconGenerator.py:109-117 | the nested loops over one table write every match of every pattern, in table order |
| Locator.ScanGlyphs | lexiconGenerator.py:110-112 | the loop over one entry's patterns writes every match of each pattern, pattern by pattern |
| Locator.RecordMatches | lexiconGenerator.py:111-112 | `looks[m.start()] = split` for each match, in order |
| Locator.ApplyRulesAppend | lexiconGenerator.py:109-117 | scanning the three-letter table and then the two-letter table into one dictionary is scanning their patterns in sequence |
| Locator.RecordAt | lexiconGenerator.py:111-112 | after one pattern's writes, its match positions hold its decision and every other key keeps its entry |
| Locator.ApplyRulesDomain | lexiconGenerator.py:109-117 | a position is a key exactly when some pattern matches there |
| Locator.ApplyRulesLastWins | lexiconGenerator.py:109-117 | the decision at a position is that of the last pattern in scan order that matches there, so a two-letter entry overwrites a three-letter one |
| Locator.ApplyRulesBounded | lexiconGenerator.py:111-117 | no key lies beyond the end of the word |
| Locator.SortedKeys | lexiconGenerator.py:119 | `sorted(looks)`: strictly ascending keys of the dictionary, all of them |
| Locator.CountDistinct | lexiconGenerator.py:119-120 | a strictly ascending list of exactly a set's elements is as long as the set |
| Locator.DecisionsOnePerPosition | lexiconGenerator.py:107-121 | exactly one decision per distinct matched position, in ascending position order, each being the dictionary's entry |
| Locator.LooksAt | lexiconGenerator.py:107-121 | a position where a pattern matches and no later pattern matches is among the positions, and its decision is that pattern's |
| Tables.MarkerQuirks | lexiconGenerator.py:22-32 | every two-letter ambiguous run is a marker of `two_char_phones` except `ru`; the marker `ah` is neither a two-letter run, nor a safe code, nor an entry of `sinTwoCharLook` |
| Tables.CodeLengths | lexiconGenerator.py:22-40 | the codes of `twoCharLook` and `twoCharOk` are two letters long, those of `threeCharLook` and `threeCharOk` three, and the markers two or three |
| Tables.LookTablesFollowCodes | lexiconGenerator.py:28-45 | `sinTwoCharLook` and `sinThreeCharLook` list the codes of `twoCharLook` and `threeCharLook`, in the same order |
| Tables.GlyphTablesShape | lexiconGenerator.py:29-45 | in every entry of both glyph tables the first pattern is a single glyph that keeps the run whole, and every other pattern is longer and splits it, so no pattern is empty |
| Text.IndexOf | lexiconGenerator.py:111 | the leftmost occurrence of a literal pattern at or after a position, or none |
| Text.MatchesFrom | lexiconGenerator.py:111 | the start positions `re.finditer` reports for a literal pattern are occurrences, non-overlapping and ascending |
| Text.MatchesFromCover | lexiconGenerator.py:116 | every occurrence is a reported match or lies inside one |
| Text.FieldsOfJoinSpaced | lexiconGenerator.py:184-187 | `' '.join` followed by `split()` gives the tokens back when each is non-empty and has no whitespace |
| Text.JoinSpacedLength | lexiconGenerator.py:181 | `' '.join(ts)` has the tokens' letters plus one separator between each two tokens |
| Text.FieldsWellFormed | lexiconGenerator.py:187 | `str.split()`: every field is non-empty and holds no whitespace character |
| Text.DropSpacesJoinSpaced | lexiconGenerator.py:161 | removing the spaces from `' '.join(ts)` leaves the tokens concatenated, without their own spaces |
| Lexicon.GenerateLexicon | lexiconGenerator.py:165-195 | the run gives `Lexicon`: nothing when either input is empty, otherwise the constants, the unambiguous lines and the ambiguous lines |
| Lexicon.UnambiguousSplits | lexiconGenerator.py:173-184 | the first loop puts each pair's line in the complete list or its `word transliteration` line in the deferred list, in input order |
| Lexicon.AmbiguousSplits | lexiconGenerator.py:186-192 | the second loop splits each deferred line into fields and produces its ambiguous-path line: one line per deferred line, at the same index |
| Lexicon.DeferredLinesOk | lexiconGenerator.py:184-191 | every deferred line has the two fields and the decisions the ambiguous path needs |
| Lexicon.GroupsPartition | lexiconGenerator.py:175-184 | each pair lands in exactly one of the two groups |
| Lexicon.GroupsStep | lexiconGenerator.py:178-184 | proof step of the first batch loop's invariant, one unfolding of the two groups: a pair adds its line to the complete group when the unambiguous path accepts it and its deferred line to the other group otherwise, and leaves the other group as it was |
| Lexicon.LexiconShape | lexiconGenerator.py:168-195 | a lexicon is written exactly when both inputs are non-empty; it starts with `<UNK> SPN` then `<SIL> SIL` and has one more line per word |
| Lexicon.GroupsGrow | lexiconGenerator.py:175-184 | the groups only grow: those of fewer pairs are prefixes of those of more pairs |
| Lexicon.CompletePlacement | lexiconGenerator.py:180-182 | an unambiguous pair's line comes right after those of the earlier unambiguous pairs |
| Lexicon.DeferredPlacement | lexiconGenerator.py:183-184 | a deferred pair's line comes right after those of the earlier deferred pairs |
| Lexicon.PairPlacement | lexiconGenerator.py:175-195 | where each pair's line sits in the lexicon: among the unambiguous lines in input order, or among the ambiguous lines after every unambiguous one |
| Lexicon.DeferredLineFields | lexiconGenerator.py:184-187 | re-reading a deferred line gives the word and transliteration back when neither is empty or contains whitespace |

## Left out

- Reading `words.txt` and `phones.txt`, writing `lexicon.txt`, and the progress messages
  (lexiconGenerator.py:50-54, 165, 172, 186, 194, 197-202) are file and console I/O. So are
  the "Cannot read … Exitting!" messages for a missing or empty input file
  (lexiconGenerator.py:204-207), for which the model returns `None`. The
  inputs are given as lists of lines, and the result is the list of lines that would be written.
- The `strip()` of each input line (lexiconGenerator.py:176-177) is not modelled. The inputs
  are taken as already-stripped lines.
- The regular-expression engine (lexiconGenerator.py:111, 116) is not modelled. Every glyph
  pattern is a literal Sinhala string, so `re.finditer` is modelled as the leftmost
  non-overlapping occurrences of that literal.
- `min_wer_finder.py` is not part of this model. It is an interactive prompt with file
  reading and floating-point comparison.
- Lexicon.GenerateLexicon: the source fails with an `IndexError` on a pair the paths cannot
  handle. This happens:
  - when there are fewer transliterations than words;
  - when a deferred line does not split into two fields, for example with an empty
    transliteration, which `split_transliteration` also rejects;
  - when a word has fewer decisions than its transliteration has ambiguous runs.

  The model requires inputs for which none of these happens (`InputsOk`, and the `requires`
  of `SplitWord`) and does not model the exception.
- Lexicon.GenerateLexicon: when either input file is missing or empty, the source writes
  nothing, because its `if words_list:` and `if transliteration_list:` guards fail. The model
  returns `None` in that case and follows the code, so the two constant lines are not
  emitted for an empty corpus.
- Locator.ScanTable, Locator.ScanGlyphs, Locator.RecordMatches, Ambiguous.WalkWithDecisions,
  Lexicon.UnambiguousSplits and Lexicon.AmbiguousSplits: each is a loop of the source,
  written as a method of its own. The source runs these loops inside the enclosing
  function or script.
- Ambiguous.StepWithDecisions: the body of `split_word`'s loop is a method of its own that
  returns the new tokens, cursor and decision count, which the loop then applies to
  `spaced`, `ch` and `counter`.
