/** The ambiguous-run locator (`checkInLooks`): every occurrence of every Sinhala glyph
    pattern in the word records its split/merge decision under its start position, a later
    pattern overwriting an earlier one at the same position; the decisions are then read
    out in ascending position order. */
module Locator {
  import opened Text
  import opened Tables

  /** The glyph patterns of a table in the order its nested loops visit them. */
  function Rules(table: seq<LookEntry>): seq<Glyph>
  {
    if table == [] then [] else Rules(table[..|table| - 1]) + table[|table| - 1].glyphs
  }

  /** Every pattern the locator looks for, in scan order: the three-letter table first. */
  const ScanOrder: seq<Glyph> := Rules(SinThreeCharLook) + Rules(SinTwoCharLook)

  /** The dictionary after `looks[p] = split` for each match position `p` in `ps`, in order. */
  function Record(looks: map<nat, bool>, ps: seq<nat>, split: bool): map<nat, bool>
  {
    if ps == [] then looks else Record(looks, ps[..|ps| - 1], split)[ps[|ps| - 1] := split]
  }

  /** The dictionary after the loops have gone through `rules`, each with its matches in `actual`. */
  function ApplyRules(looks: map<nat, bool>, rules: seq<Glyph>, actual: string): map<nat, bool>
  {
    if rules == [] then looks
    else
      var g := rules[|rules| - 1];
      Record(ApplyRules(looks, rules[..|rules| - 1], actual), Matches(g.pattern, actual), g.split)
  }

  /** The dictionary `looks` that `checkInLooks` fills for the word `actual`. */
  function Looks(actual: string): map<nat, bool>
  {
    ApplyRules(map[], ScanOrder, actual)
  }

  /** `sorted(m)` restricted to the keys below `n`. */
  function SortedKeys(m: map<nat, bool>, n: nat): (ks: seq<nat>)
    ensures forall k :: 0 <= k < |ks| ==> ks[k] in m && ks[k] < n
    ensures forall k, l :: 0 <= k < l < |ks| ==> ks[k] < ks[l]
    ensures forall p :: p in m && p < n ==> p in ks
  {
    if n == 0 then [] else SortedKeys(m, n - 1) + (if n - 1 in m then [n - 1] else [])
  }

  /** The start positions the decisions belong to, ascending. */
  function Positions(actual: string): seq<nat>
  {
    SortedKeys(Looks(actual), |actual| + 1)
  }

  /** What `checkInLooks` returns: the decisions, by ascending position. */
  function Decisions(actual: string): seq<bool>
  {
    var looks := Looks(actual);
    var ks := Positions(actual);
    seq(|ks|, k requires 0 <= k < |ks| => looks[ks[k]])
  }

  /** The innermost loop: `looks[m.start()] = split` for each match, in order. */
  method RecordMatches(looks0: map<nat, bool>, ms: seq<nat>, split: bool) returns (looks: map<nat, bool>)
    ensures looks == Record(looks0, ms, split)
  {
    looks := looks0;
    for k := 0 to |ms|
      invariant looks == Record(looks0, ms[..k], split)
    {
      assert ms[..k + 1][..k] == ms[..k];
      looks := looks[ms[k] := split];
    }
    assert ms[..|ms|] == ms;
  }

  /** The middle loop: every match of each pattern of one entry, pattern by pattern. */
  method ScanGlyphs(looks0: map<nat, bool>, glyphs: seq<Glyph>, actual: string)
    returns (looks: map<nat, bool>)
    ensures looks == ApplyRules(looks0, glyphs, actual)
  {
    looks := looks0;
    for c := 0 to |glyphs|
      invariant looks == ApplyRules(looks0, glyphs[..c], actual)
    {
      looks := RecordMatches(looks, Matches(glyphs[c].pattern, actual), glyphs[c].split);
      ApplyRulesSnoc(looks0, glyphs[..c], glyphs[c], actual);
      assert glyphs[..c + 1] == glyphs[..c] + [glyphs[c]];
    }
    assert glyphs[..|glyphs|] == glyphs;
  }

  /** The loops over one table, writing every match of every pattern into `looks`. */
  method ScanTable(looks0: map<nat, bool>, table: seq<LookEntry>, actual: string)
    returns (looks: map<nat, bool>)
    ensures looks == ApplyRules(looks0, Rules(table), actual)
  {
    looks := looks0;
    for t := 0 to |table|
      invariant looks == ApplyRules(looks0, Rules(table[..t]), actual)
    {
      looks := ScanGlyphs(looks, table[t].glyphs, actual);
      ApplyRulesAppend(looks0, Rules(table[..t]), table[t].glyphs, actual);
      assert table[..t + 1][..t] == table[..t];
    }
    assert table[..|table|] == table;
  }

  lemma ApplyRulesSnoc(looks: map<nat, bool>, rules: seq<Glyph>, g: Glyph, actual: string)
    ensures ApplyRules(looks, rules + [g], actual)
         == Record(ApplyRules(looks, rules, actual), Matches(g.pattern, actual), g.split)
  {
    assert (rules + [g])[..|rules|] == rules;
  }

  /** `checkInLooks`: both tables scanned into one dictionary, then its values by sorted key. */
  method CheckInLooks(actual: string) returns (result: seq<bool>)
    ensures result == Decisions(actual)
  {
    var looks := map[];
    looks := ScanTable(looks, SinThreeCharLook, actual);
    looks := ScanTable(looks, SinTwoCharLook, actual);
    ApplyRulesAppend(map[], Rules(SinThreeCharLook), Rules(SinTwoCharLook), actual);
    var keys := SortedKeys(looks, |actual| + 1);
    result := [];
    for i := 0 to |keys|
      invariant result == seq(i, k requires 0 <= k < i => looks[keys[k]])
    {
      result := result + [looks[keys[i]]];
    }
  }

  /** Scanning two lists of patterns one after the other is scanning their concatenation. */
  lemma {:induction false} ApplyRulesAppend(looks: map<nat, bool>, a: seq<Glyph>, b: seq<Glyph>, actual: string)
    ensures ApplyRules(ApplyRules(looks, a, actual), b, actual) == ApplyRules(looks, a + b, actual)
    decreases |b|
  {
    if b == [] {
      assert a + b == a;
    } else {
      var init := b[..|b| - 1];
      ApplyRulesAppend(looks, a, init, actual);
      assert (a + b)[..|a + b| - 1] == a + init;
      assert (a + b)[|a + b| - 1] == b[|b| - 1];
    }
  }

  /** After the writes of one pattern, a position holds that pattern's decision if it is one
      of the pattern's matches and keeps its old entry otherwise. */
  lemma {:induction false} RecordAt(looks: map<nat, bool>, ps: seq<nat>, split: bool, p: nat)
    ensures p in Record(looks, ps, split) <==> p in looks || p in ps
    ensures p in ps ==> Record(looks, ps, split)[p] == split
    ensures p !in ps && p in looks ==> Record(looks, ps, split)[p] == looks[p]
    decreases |ps|
  {
    if ps != [] {
      RecordAt(looks, ps[..|ps| - 1], split, p);
      assert ps == ps[..|ps| - 1] + [ps[|ps| - 1]];
    }
  }

  /** Some pattern of `rules` has a match at `p`. */
  predicate MatchedBy(rules: seq<Glyph>, actual: string, p: nat)
  {
    exists j :: 0 <= j < |rules| && p in Matches(rules[j].pattern, actual)
  }

  /** A pattern list matches at `p` when its first patterns do or its last one does. */
  lemma MatchedBySnoc(rules: seq<Glyph>, actual: string, p: nat)
    requires rules != []
    ensures MatchedBy(rules, actual, p) <==>
              MatchedBy(rules[..|rules| - 1], actual, p) || p in Matches(rules[|rules| - 1].pattern, actual)
  {
    var init := rules[..|rules| - 1];
    if MatchedBy(rules, actual, p) {
      var j :| 0 <= j < |rules| && p in Matches(rules[j].pattern, actual);
      if j < |init| {
        assert init[j] == rules[j];
      }
    }
    if MatchedBy(init, actual, p) {
      var j :| 0 <= j < |init| && p in Matches(init[j].pattern, actual);
      assert rules[j] == init[j];
    }
  }

  /** The dictionary holds exactly the positions where some pattern has a match. */
  lemma {:induction false} ApplyRulesDomain(looks: map<nat, bool>, rules: seq<Glyph>, actual: string, p: nat)
    ensures p in ApplyRules(looks, rules, actual) <==> p in looks || MatchedBy(rules, actual, p)
    decreases |rules|
  {
    if rules != [] {
      var init := rules[..|rules| - 1];
      var g := rules[|rules| - 1];
      ApplyRulesDomain(looks, init, actual, p);
      RecordAt(ApplyRules(looks, init, actual), Matches(g.pattern, actual), g.split, p);
      MatchedBySnoc(rules, actual, p);
    }
  }

  /** A later write wins: the decision at a position is that of the last pattern, in scan
      order, with a match there. */
  lemma {:induction false} ApplyRulesLastWins(looks: map<nat, bool>, rules: seq<Glyph>, actual: string, p: nat, j: nat)
    requires j < |rules| && p in Matches(rules[j].pattern, actual)
    requires forall i :: j < i < |rules| ==> p !in Matches(rules[i].pattern, actual)
    ensures p in ApplyRules(looks, rules, actual)
    ensures ApplyRules(looks, rules, actual)[p] == rules[j].split
    decreases |rules|
  {
    var init := rules[..|rules| - 1];
    var g := rules[|rules| - 1];
    RecordAt(ApplyRules(looks, init, actual), Matches(g.pattern, actual), g.split, p);
    if j < |rules| - 1 {
      forall i | j < i < |init| ensures p !in Matches(init[i].pattern, actual) {
        assert init[i] == rules[i];
      }
      ApplyRulesLastWins(looks, init, actual, p, j);
    }
  }

  /** Every key is a match position, so none lies beyond the end of the word. */
  lemma {:induction false} ApplyRulesBounded(rules: seq<Glyph>, actual: string, p: nat)
    requires p in ApplyRules(map[], rules, actual)
    ensures p <= |actual|
  {
    ApplyRulesDomain(map[], rules, actual, p);
    var j :| 0 <= j < |rules| && p in Matches(rules[j].pattern, actual);
    var ps := Matches(rules[j].pattern, actual);
    var k :| 0 <= k < |ps| && ps[k] == p;
  }

  /** A strictly increasing list holding exactly the elements of a set is as long as the set
      is large. */
  lemma {:induction false} CountDistinct(ks: seq<nat>, s: set<nat>)
    requires forall k, l :: 0 <= k < l < |ks| ==> ks[k] < ks[l]
    requires forall p :: p in s <==> p in ks
    ensures |s| == |ks|
  {
    if ks != [] {
      var last := ks[|ks| - 1];
      var init := ks[..|ks| - 1];
      assert ks == init + [last];
      forall p ensures p in s - {last} <==> p in init {
        if p in init {
          var i :| 0 <= i < |init| && init[i] == p;
          assert ks[i] < last;
        }
      }
      CountDistinct(init, s - {last});
    }
  }

  /** `checkInLooks` returns exactly one decision per distinct start position with a match, in
      ascending position order, each the dictionary's entry for its position. */
  lemma DecisionsOnePerPosition(actual: string)
    ensures |Decisions(actual)| == |Positions(actual)| == |Looks(actual).Keys|
    ensures forall k, l :: 0 <= k < l < |Positions(actual)| ==> Positions(actual)[k] < Positions(actual)[l]
    ensures forall p :: p in Looks(actual) <==> p in Positions(actual)
    ensures forall k :: 0 <= k < |Decisions(actual)| ==>
              Decisions(actual)[k] == Looks(actual)[Positions(actual)[k]]
  {
    var looks := Looks(actual);
    forall p | p in looks ensures p < |actual| + 1 {
      ApplyRulesBounded(ScanOrder, actual, p);
    }
    CountDistinct(Positions(actual), looks.Keys);
  }

  /** The decision recorded at a position: present exactly when some pattern matches there, and
      then the decision of the last such pattern in scan order. */
  lemma LooksAt(actual: string, p: nat, j: nat)
    requires j < |ScanOrder| && p in Matches(ScanOrder[j].pattern, actual)
    requires forall i :: j < i < |ScanOrder| ==> p !in Matches(ScanOrder[i].pattern, actual)
    ensures p in Positions(actual)
    ensures Looks(actual)[p] == ScanOrder[j].split
  {
    ApplyRulesLastWins(map[], ScanOrder, actual, p, j);
    DecisionsOnePerPosition(actual);
  }
}
