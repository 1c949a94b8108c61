/** The ambiguous segmenter (`split_word`): a cursor walks the transliteration, trying at each
    position an ambiguous three-letter run, a safe three-letter phone, an ambiguous two-letter
    run, a safe two-letter phone and finally a single letter, in that order. Each ambiguous run
    takes the next split/merge decision the locator found in the Sinhala spelling. */
module Ambiguous {
  import opened Text
  import opened Tables
  import opened Locator

  /** What a lookahead finds at the cursor, and where the cursor goes next: an ambiguous run
      and its code, a phone that is always one token, or neither. */
  datatype Look = Ambiguous(code: string, next: nat) | Safe(next: nat) | Miss(next: nat)

  /** `lookForThreeChar`: the three letters at `i`, when there are three. */
  function LookForThreeChar(i: nat, phonetic: string): (r: Look)
    ensures r.Ambiguous? <==> i + 3 <= |phonetic| && phonetic[i..i + 3] in ThreeCharLook
    ensures r.Safe? <==>
              i + 3 <= |phonetic| && phonetic[i..i + 3] !in ThreeCharLook && phonetic[i..i + 3] in ThreeCharOk
    ensures r.Ambiguous? ==> r.code == phonetic[i..i + 3]
    ensures r.next == if r.Miss? then i else i + 3
  {
    if i + 2 < |phonetic| then
      var c := [phonetic[i]] + [phonetic[i + 1]] + [phonetic[i + 2]];
      assert c == phonetic[i..i + 3];
      if c in ThreeCharLook then Ambiguous(c, i + 3)
      else if c in ThreeCharOk then Safe(i + 3)
      else Miss(i)
    else
      Miss(i)
  }

  /** `lookForTwoChar`: the two letters at `i`, when there are two; on a miss the cursor
      moves past one letter. */
  function LookForTwoChar(i: nat, phonetic: string): (r: Look)
    ensures r.Ambiguous? <==> i + 2 <= |phonetic| && phonetic[i..i + 2] in TwoCharLook
    ensures r.Safe? <==>
              i + 2 <= |phonetic| && phonetic[i..i + 2] !in TwoCharLook && phonetic[i..i + 2] in TwoCharOk
    ensures r.Ambiguous? ==> r.code == phonetic[i..i + 2]
    ensures r.next == if r.Miss? then i + 1 else i + 2
  {
    if i + 1 < |phonetic| then
      var c := [phonetic[i]] + [phonetic[i + 1]];
      assert c == phonetic[i..i + 2];
      if c in TwoCharLook then Ambiguous(c, i + 2)
      else if c in TwoCharOk then Safe(i + 2)
      else Miss(i + 1)
    else
      Miss(i + 1)
  }

  /** The walk meets an ambiguous run at `ch` and consumes a decision there. */
  predicate IsRun(p: string, ch: nat)
  {
    LookForThreeChar(ch, p).Ambiguous? || (LookForThreeChar(ch, p).Miss? && LookForTwoChar(ch, p).Ambiguous?)
  }

  /** Where the cursor goes from `ch`: it always moves on, by one to three letters. */
  function Advance(p: string, ch: nat): (n: nat)
    requires ch < |p|
    ensures ch < n <= ch + 3 && n <= |p|
  {
    match LookForThreeChar(ch, p)
    case Ambiguous(_, next) => next
    case Safe(next) => next
    case Miss(_) => LookForTwoChar(ch, p).next
  }

  /** The tokens of an ambiguous run: the first letter and the rest when the decision is to
      split, the whole run otherwise. */
  function EmitRun(code: string, split: bool): (r: seq<string>)
    requires |code| >= 2
    ensures Concat(r) == code
    ensures split ==> |r| == 2 && |r[0]| == 1
    ensures !split ==> |r| == 1
  {
    ConcatPair(code[..1], code[1..]);
    assert code[..1] + code[1..] == code;
    if split then [code[..1], code[1..]] else [code]
  }

  /** The tokens one step of the walk emits at `ch`, given the next decision. */
  function StepTokens(p: string, ch: nat, decision: bool): (r: seq<string>)
    requires ch < |p|
    ensures Concat(r) == p[ch..Advance(p, ch)]
    ensures 1 <= |r| <= 2 && forall k :: 0 <= k < |r| ==> 1 <= |r[k]| <= 3
    ensures !IsRun(p, ch) ==> r == [p[ch..Advance(p, ch)]]
  {
    match LookForThreeChar(ch, p)
    case Ambiguous(c, _) => EmitRun(c, decision)
    case Safe(next) => [p[ch..next]]
    case Miss(_) =>
      var t := LookForTwoChar(ch, p);
      if t.Ambiguous? then EmitRun(t.code, decision) else [p[ch..t.next]]
  }

  /** The number of ambiguous runs the walk meets from `ch` on: the decisions it needs. */
  function Runs(p: string, ch: nat): (n: nat)
    decreases |p| - ch
    ensures ch <= |p| ==> 2 * n <= |p| - ch
  {
    if ch >= |p| then 0 else (if IsRun(p, ch) then 1 else 0) + Runs(p, Advance(p, ch))
  }

  /** The walk from `ch` with the decisions not yet consumed. */
  function Walk(p: string, looks: seq<bool>, ch: nat): seq<string>
    requires ch <= |p| && Runs(p, ch) <= |looks|
    decreases |p| - ch
  {
    if ch == |p| then []
    else if IsRun(p, ch) then StepTokens(p, ch, looks[0]) + Walk(p, looks[1..], Advance(p, ch))
    else StepTokens(p, ch, false) + Walk(p, looks, Advance(p, ch))
  }

  /** One step of the walk: the step's tokens, then the walk from the next cursor with the
      decisions that remain. */
  lemma WalkUnfold(p: string, looks: seq<bool>, ch: nat)
    requires ch < |p| && Runs(p, ch) <= |looks|
    ensures IsRun(p, ch) ==>
              (|looks| >= 1 &&
               Walk(p, looks, ch) == StepTokens(p, ch, looks[0]) + Walk(p, looks[1..], Advance(p, ch)))
    ensures !IsRun(p, ch) ==>
              Walk(p, looks, ch) == StepTokens(p, ch, false) + Walk(p, looks, Advance(p, ch))
  {
  }

  /** `split_word`: the decisions from the Sinhala spelling, the walk, the tokens joined by
      spaces. The source indexes the decisions without a check, so there must be enough. */
  method SplitWord(phonetic: string, actual: string) returns (line: string)
    requires Runs(phonetic, 0) <= |Decisions(actual)|
    ensures line == JoinSpaced(Walk(phonetic, Decisions(actual), 0))
  {
    var looks := CheckInLooks(actual);
    var spaced := WalkWithDecisions(phonetic, looks);
    line := JoinSpaced(spaced);
  }

  /** The cursor loop of `split_word`: `counter` indexes the decisions, `spaced` collects the
      tokens. */
  method WalkWithDecisions(phonetic: string, looks: seq<bool>) returns (spaced: seq<string>)
    requires Runs(phonetic, 0) <= |looks|
    ensures spaced == Walk(phonetic, looks, 0)
  {
    var counter := 0;
    spaced := [];
    var ch := 0;
    while ch < |phonetic|
      invariant ch <= |phonetic| && counter <= |looks|
      invariant counter + Runs(phonetic, ch) == Runs(phonetic, 0)
      invariant spaced + Walk(phonetic, looks[counter..], ch) == Walk(phonetic, looks, 0)
      decreases |phonetic| - ch
    {
      WalkStep(phonetic, looks, counter, ch, spaced);
      var tokens, next, used := StepWithDecisions(phonetic, looks, counter, ch);
      spaced := spaced + tokens;
      ch := next;
      counter := counter + used;
    }
    assert Walk(phonetic, looks[counter..], ch) == [];
  }

  /** One turn of the cursor loop: the tokens of the step at `ch`, the cursor after it, and how
      many decisions it used. */
  method StepWithDecisions(phonetic: string, looks: seq<bool>, counter: nat, ch: nat)
    returns (tokens: seq<string>, next: nat, used: nat)
    requires ch < |phonetic| && (IsRun(phonetic, ch) ==> counter < |looks|)
    ensures used == if IsRun(phonetic, ch) then 1 else 0
    ensures next == Advance(phonetic, ch)
    ensures tokens == StepTokens(phonetic, ch, if IsRun(phonetic, ch) then looks[counter] else false)
  {
    used := 0;
    var t := LookForThreeChar(ch, phonetic);
    if t.Ambiguous? {
      if looks[counter] {
        tokens := [t.code[..1], t.code[1..]];
        next := t.next;
      } else {
        tokens := [t.code];
        next := t.next;
      }
      used := 1;
    } else {
      if t.Safe? {
        tokens := [phonetic[ch..t.next]];
        next := t.next;
      } else {
        next := t.next;
        t := LookForTwoChar(next, phonetic);
        if t.Ambiguous? {
          assert t.code[1..2] == t.code[1..];
          if looks[counter] {
            tokens := [t.code[..1], t.code[1..2]];
            next := t.next;
          } else {
            tokens := [t.code];
            next := t.next;
          }
          used := 1;
        } else {
          tokens := [phonetic[next..t.next]];
          next := t.next;
        }
      }
    }
  }

  /** One turn of the cursor loop keeps its invariant: the step's tokens join those already
      collected, and a run uses up the decision at `counter`. */
  lemma WalkStep(phonetic: string, looks: seq<bool>, counter: nat, ch: nat, spaced: seq<string>)
    requires ch < |phonetic| && counter <= |looks|
    requires counter + Runs(phonetic, ch) == Runs(phonetic, 0) <= |looks|
    requires spaced + Walk(phonetic, looks[counter..], ch) == Walk(phonetic, looks, 0)
    ensures var run := IsRun(phonetic, ch);
            var used := if run then 1 else 0;
            var next := Advance(phonetic, ch);
            (run ==> counter < |looks|) &&
            counter + used + Runs(phonetic, next) == Runs(phonetic, 0) &&
            (spaced + StepTokens(phonetic, ch, if run then looks[counter] else false))
              + Walk(phonetic, looks[counter + used..], next) == Walk(phonetic, looks, 0)
  {
    var rest := looks[counter..];
    var run := IsRun(phonetic, ch);
    WalkUnfold(phonetic, rest, ch);
    if run {
      DropFirst(looks, counter);
    }
    var left := if run then rest[1..] else rest;
    var step := StepTokens(phonetic, ch, if run then rest[0] else false);
    AppendAssoc(spaced, step, Walk(phonetic, left, Advance(phonetic, ch)));
  }

  lemma AppendAssoc(a: seq<string>, b: seq<string>, c: seq<string>)
    ensures a + (b + c) == (a + b) + c
  {
  }

  lemma DropFirst(looks: seq<bool>, counter: nat)
    requires counter < |looks|
    ensures looks[counter..][0] == looks[counter] && looks[counter..][1..] == looks[counter + 1..]
  {
  }

  /** The tokens of the walk, put back together, are the transliteration from the cursor on. */
  lemma {:induction false} WalkConcat(p: string, looks: seq<bool>, ch: nat)
    requires ch <= |p| && Runs(p, ch) <= |looks|
    ensures Concat(Walk(p, looks, ch)) == p[ch..]
    decreases |p| - ch
  {
    if ch < |p| {
      var n := Advance(p, ch);
      var rest := if IsRun(p, ch) then looks[1..] else looks;
      var step := StepTokens(p, ch, if IsRun(p, ch) then looks[0] else false);
      WalkUnfold(p, looks, ch);
      assert Walk(p, looks, ch) == step + Walk(p, rest, n);
      WalkConcat(p, rest, n);
      ConcatAppend(step, Walk(p, rest, n));
      SliceSplit(p, ch, n);
    }
  }

  /** Every token of the walk is one to three letters long. */
  lemma {:induction false} WalkTokenLengths(p: string, looks: seq<bool>, ch: nat)
    requires ch <= |p| && Runs(p, ch) <= |looks|
    ensures forall k :: 0 <= k < |Walk(p, looks, ch)| ==> 1 <= |Walk(p, looks, ch)[k]| <= 3
    decreases |p| - ch
  {
    if ch < |p| {
      var rest := if IsRun(p, ch) then looks[1..] else looks;
      WalkTokenLengths(p, rest, Advance(p, ch));
    }
  }

  /** Only the first `Runs(p, ch)` decisions are used, one per ambiguous run, in order; any
      further decisions are ignored. */
  lemma {:induction false} WalkUsesRunsDecisions(p: string, looks: seq<bool>, ch: nat)
    requires ch <= |p| && Runs(p, ch) <= |looks|
    ensures Walk(p, looks, ch) == Walk(p, looks[..Runs(p, ch)], ch)
    decreases |p| - ch
  {
    if ch < |p| {
      var n := Advance(p, ch);
      var used := looks[..Runs(p, ch)];
      if IsRun(p, ch) {
        WalkUsesRunsDecisions(p, looks[1..], n);
        WalkUsesRunsDecisions(p, used[1..], n);
        assert looks[1..][..Runs(p, n)] == used[1..][..Runs(p, n)];
      } else {
        WalkUsesRunsDecisions(p, looks, n);
        WalkUsesRunsDecisions(p, used, n);
        assert looks[..Runs(p, n)] == used[..Runs(p, n)];
      }
    }
  }

  /** The priority order at one step: ambiguous three-letter run, safe three-letter phone,
      ambiguous two-letter run, safe two-letter phone, single letter. */
  lemma StepOrder(p: string, ch: nat, decision: bool)
    requires ch < |p|
    ensures var three := ch + 3 <= |p|;
            var two := ch + 2 <= |p|;
            if three && p[ch..ch + 3] in ThreeCharLook then
              IsRun(p, ch) && Advance(p, ch) == ch + 3 && StepTokens(p, ch, decision) == EmitRun(p[ch..ch + 3], decision)
            else if three && p[ch..ch + 3] in ThreeCharOk then
              !IsRun(p, ch) && Advance(p, ch) == ch + 3 && StepTokens(p, ch, decision) == [p[ch..ch + 3]]
            else if two && p[ch..ch + 2] in TwoCharLook then
              IsRun(p, ch) && Advance(p, ch) == ch + 2 && StepTokens(p, ch, decision) == EmitRun(p[ch..ch + 2], decision)
            else if two && p[ch..ch + 2] in TwoCharOk then
              !IsRun(p, ch) && Advance(p, ch) == ch + 2 && StepTokens(p, ch, decision) == [p[ch..ch + 2]]
            else
              !IsRun(p, ch) && Advance(p, ch) == ch + 1 && StepTokens(p, ch, decision) == [[p[ch]]]
  {
    assert p[ch..ch + 1] == [p[ch]];
  }

  /** Removing the spaces from `split_word`'s result gives back the transliteration. */
  lemma SplitWordRoundTrip(phonetic: string, actual: string)
    requires ' ' !in phonetic
    requires Runs(phonetic, 0) <= |Decisions(actual)|
    ensures DropSpaces(JoinSpaced(Walk(phonetic, Decisions(actual), 0))) == phonetic
  {
    var ts := Walk(phonetic, Decisions(actual), 0);
    DropSpacesJoinSpaced(ts);
    WalkConcat(phonetic, Decisions(actual), 0);
    assert phonetic[0..] == phonetic;
    DropSpacesNone(phonetic);
  }

  /** The `ah` quirk: with no ambiguous-table entry and no safe entry, `ah` is two letters and
      consumes no decision. */
  lemma AhIsTwoLetters(looks: seq<bool>)
    ensures Runs("ah", 0) == 0
    ensures Walk("ah", looks, 0) == ["a", "h"]
  {
    var p := "ah";
    assert p[0..2] == "ah" && "ah" !in TwoCharLook && "ah" !in TwoCharOk;
    assert LookForThreeChar(0, p).Miss? && LookForTwoChar(0, p).Miss?;
    assert Advance(p, 0) == 1 && StepTokens(p, 0, false) == ["a"] by {
      assert p[0..1] == "a";
    }
    assert LookForThreeChar(1, p).Miss? && LookForTwoChar(1, p).Miss?;
    assert Advance(p, 1) == 2 && StepTokens(p, 1, false) == ["h"] by {
      assert p[1..2] == "h";
    }
  }

  /** `ng` with a merge decision stays one token; with a split decision it becomes `n`, `g`. */
  lemma NgFollowsDecision(split: bool)
    ensures Runs("ng", 0) == 1
    ensures Walk("ng", [split], 0) == if split then ["n", "g"] else ["ng"]
  {
    var p := "ng";
    assert p[0..2] == "ng" && "ng" in TwoCharLook;
    assert LookForThreeChar(0, p).Miss? && LookForTwoChar(0, p).Ambiguous?;
    assert Advance(p, 0) == 2;
    assert "ng"[..1] == "n" && "ng"[1..] == "g";
  }
}
