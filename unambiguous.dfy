/** The unambiguous segmenter (`split_transliteration`): a transliteration with no
    ambiguous marker in it is cut into one-letter phones, each letter followed by a
    modifier `^` or `:` taking the modifier with it. */
module Unambiguous {
  import opened Text
  import opened Tables

  predicate IsModifier(c: char)
  {
    c == '^' || c == ':'
  }

  /** Some marker of `TwoCharPhones` occurs in `t`: the path cannot handle it. */
  predicate HasMarker(t: string)
  {
    exists m | m in TwoCharPhones :: Occurs(m, t)
  }

  /** The segmentation the merge loop computes, left to right: a letter and the modifier
      after it form one token, any other letter is a token on its own. */
  function ModifierSegments(t: string): seq<string>
  {
    if t == [] then []
    else if |t| >= 2 && IsModifier(t[1]) then [t[..2]] + ModifierSegments(t[2..])
    else [t[..1]] + ModifierSegments(t[1..])
  }

  /** What `split_transliteration` returns; `[]` tells the caller to use the ambiguous path. */
  function UnambiguousSplit(t: string): seq<string>
  {
    if HasMarker(t) then [] else ModifierSegments(t)
  }

  /** The shape of a token on this path: one character, or a character and a modifier. */
  predicate WellShaped(token: string)
  {
    |token| == 1 || (|token| == 2 && IsModifier(token[1]))
  }

  /** A one-character token is never followed by a token that starts with a modifier:
      every modifier that can be merged has been. */
  predicate Greedy(ts: seq<string>)
  {
    forall k :: 0 <= k < |ts| - 1 && |ts[k]| == 1 && ts[k + 1] != [] ==> !IsModifier(ts[k + 1][0])
  }

  /** One step of `ModifierSegments` at position `j`: the token there is two characters long
      when a modifier follows, one character otherwise. */
  lemma ModifierSegmentsAt(t: string, j: nat)
    requires j < |t|
    ensures j + 1 < |t| && IsModifier(t[j + 1]) ==>
              ModifierSegments(t[j..]) == [t[j..j + 2]] + ModifierSegments(t[j + 2..])
    ensures !(j + 1 < |t| && IsModifier(t[j + 1])) ==>
              ModifierSegments(t[j..]) == [[t[j]]] + ModifierSegments(t[j + 1..])
  {
    var u := t[j..];
    if |u| >= 2 {
      assert u[1] == t[j + 1];
      assert u[..2] == t[j..j + 2];
      assert u[2..] == t[j + 2..];
    }
    assert u[..1] == [t[j]];
    assert u[1..] == t[j + 1..];
  }

  /** `list(t)`: each character as a one-character string. */
  function Chars(t: string): (cs: seq<string>)
    ensures |cs| == |t|
    ensures forall k :: 0 <= k < |t| ==> cs[k] == [t[k]]
  {
    seq(|t|, k requires 0 <= k < |t| => [t[k]])
  }

  /** Dropping the first `n` elements of the character list drops the first `n` characters. */
  lemma CharsDrop(rest: seq<string>, t: string, j: nat, n: nat)
    requires j + n <= |t|
    requires rest == Chars(t[j..])
    ensures rest[n..] == Chars(t[j + n..])
  {
    assert |rest[n..]| == |Chars(t[j + n..])|;
    forall k | 0 <= k < |rest[n..]| ensures rest[n..][k] == Chars(t[j + n..])[k] {
      assert rest[n..][k] == rest[k + n];
    }
  }

  /** Joining the first two elements of the character list gives the first two characters. */
  lemma MergeTokens(rest: seq<string>, t: string, j: nat)
    requires j + 1 < |t|
    requires rest == Chars(t[j..])
    ensures rest[0] + rest[1] == t[j..j + 2]
  {
    assert rest[0] == [t[j]] && rest[1] == [t[j + 1]];
  }

  /** The loop's step when a modifier follows: merging the two elements keeps the list a
      prefix of the segmentation followed by the characters not yet looked at. */
  lemma MergeStep(done: seq<string>, rest: seq<string>, t: string, j: nat)
    requires j + 1 < |t| && IsModifier(t[j + 1])
    requires rest == Chars(t[j..])
    requires done + ModifierSegments(t[j..]) == ModifierSegments(t)
    ensures (done + [rest[0] + rest[1]]) + ModifierSegments(t[j + 2..]) == ModifierSegments(t)
    ensures rest[2..] == Chars(t[j + 2..])
  {
    MergeTokens(rest, t, j);
    ModifierSegmentsAt(t, j);
    CharsDrop(rest, t, j, 2);
  }

  /** The loop's step when no modifier follows: the element stays a token of its own. */
  lemma KeepStep(done: seq<string>, rest: seq<string>, t: string, j: nat)
    requires j < |t| && !(j + 1 < |t| && IsModifier(t[j + 1]))
    requires rest == Chars(t[j..])
    requires done + ModifierSegments(t[j..]) == ModifierSegments(t)
    ensures (done + [rest[0]]) + ModifierSegments(t[j + 1..]) == ModifierSegments(t)
    ensures rest[1..] == Chars(t[j + 1..])
  {
    ModifierSegmentsAt(t, j);
    assert rest[0] == [t[j]];
    CharsDrop(rest, t, j, 1);
  }

  /** The path's output, in place in a list of characters: an element followed by a modifier is
      replaced, together with it, by their concatenation. */
  method SplitTransliteration(transliteration: string) returns (charList: seq<string>)
    ensures charList == UnambiguousSplit(transliteration)
  {
    var cannotSplit := HasMarker(transliteration);
    if cannotSplit {
      return [];
    }
    var t := transliteration;
    charList := Chars(t);
    var index := 0;
    ghost var j := 0;  // the position in `t` of `charList[index]`
    while |charList| > 1
      invariant index <= |charList| && j <= |t|
      invariant index == 0 || index + 1 < |charList|
      invariant charList[index..] == Chars(t[j..])
      invariant charList[..index] + ModifierSegments(t[j..]) == ModifierSegments(t)
      decreases |charList| - index
    {
      if charList[index + 1] == "^" || charList[index + 1] == ":" {
        ghost var before := charList;
        charList := charList[..index] + [charList[index] + charList[index + 1]] + charList[index + 2..];
        MergeInvariant(before, index, t, j, charList);
        j := j + 2;
      } else {
        KeepInvariant(charList, index, t, j);
        j := j + 1;
      }
      index := index + 1;
      if index == |charList| - 1 || index == |charList| {
        break;
      }
    }
    LoopExit(charList, index, t, j);
  }

  /** Merging the element at `index` with the modifier after it keeps the loop invariant. */
  lemma MergeInvariant(c: seq<string>, index: nat, t: string, j: nat, merged: seq<string>)
    requires index + 1 < |c| && j <= |t|
    requires c[index..] == Chars(t[j..])
    requires c[..index] + ModifierSegments(t[j..]) == ModifierSegments(t)
    requires c[index + 1] == "^" || c[index + 1] == ":"
    requires merged == c[..index] + [c[index] + c[index + 1]] + c[index + 2..]
    ensures |merged| == |c| - 1 && j + 2 <= |t|
    ensures merged[index + 1..] == Chars(t[j + 2..])
    ensures merged[..index + 1] + ModifierSegments(t[j + 2..]) == ModifierSegments(t)
  {
    var rest := c[index..];
    assert c[index + 1] == rest[1] == [t[j + 1]];
    MergeStep(c[..index], rest, t, j);
    Splice(c, index, c[index] + c[index + 1], 2);
  }

  /** Moving past an element that no modifier follows keeps the loop invariant. */
  lemma KeepInvariant(c: seq<string>, index: nat, t: string, j: nat)
    requires index + 1 < |c| && j <= |t|
    requires c[index..] == Chars(t[j..])
    requires c[..index] + ModifierSegments(t[j..]) == ModifierSegments(t)
    requires !(c[index + 1] == "^" || c[index + 1] == ":")
    ensures j + 1 <= |t|
    ensures c[index + 1..] == Chars(t[j + 1..])
    ensures c[..index + 1] + ModifierSegments(t[j + 1..]) == ModifierSegments(t)
  {
    var rest := c[index..];
    assert c[index + 1] == rest[1] == [t[j + 1]];
    KeepStep(c[..index], rest, t, j);
    SliceAt(c, index);
  }

  lemma SliceAt(c: seq<string>, i: nat)
    requires i < |c|
    ensures c[..i + 1] == c[..i] + [c[i]]
    ensures c[i + 1..] == c[i..][1..]
  {
  }

  /** Replacing the `n` elements at `i` by `x`: what comes before and after the new element. */
  lemma Splice(c: seq<string>, i: nat, x: string, n: nat)
    requires i + n <= |c|
    ensures (c[..i] + [x] + c[i + n..])[..i + 1] == c[..i] + [x]
    ensures (c[..i] + [x] + c[i + n..])[i + 1..] == c[i..][n..]
  {
  }

  /** When at most one element is left to look at, the list is the whole segmentation. */
  lemma LoopExit(charList: seq<string>, index: nat, t: string, j: nat)
    requires index <= |charList| <= index + 1 && j <= |t|
    requires charList[index..] == Chars(t[j..])
    requires charList[..index] + ModifierSegments(t[j..]) == ModifierSegments(t)
    ensures charList == ModifierSegments(t)
  {
    if j < |t| {
      KeepStep(charList[..index], charList[index..], t, j);
    }
    assert charList == charList[..index] + charList[index..];
  }

  /** Without a marker, the tokens put back together give the transliteration. */
  lemma {:induction false} ModifierSegmentsConcat(t: string)
    ensures Concat(ModifierSegments(t)) == t
    decreases |t|
  {
    if t != [] {
      var n := if |t| >= 2 && IsModifier(t[1]) then 2 else 1;
      ModifierSegmentsConcat(t[n..]);
      assert t == t[..n] + t[n..];
    }
  }

  /** Every token is a character, or a character and a modifier, and merging is greedy. */
  lemma {:induction false} ModifierSegmentsShape(t: string)
    ensures forall k :: 0 <= k < |ModifierSegments(t)| ==> WellShaped(ModifierSegments(t)[k])
    ensures Greedy(ModifierSegments(t))
    ensures |ModifierSegments(t)| <= |t|
    ensures t != [] ==> ModifierSegments(t) != []
    decreases |t|
  {
    if t != [] {
      var n := if |t| >= 2 && IsModifier(t[1]) then 2 else 1;
      ModifierSegmentsShape(t[n..]);
      var rest := ModifierSegments(t[n..]);
      assert ModifierSegments(t) == [t[..n]] + rest;
      if n == 1 && rest != [] {
        ModifierSegmentsConcat(t[1..]);
        assert rest[0][0] == t[1] by {
          assert Concat(rest) == rest[0] + Concat(rest[1..]);
        }
      }
    }
  }

  /** The three properties pin the segmentation down: any token list that concatenates to `t`,
      has only well-shaped tokens and merges greedily is `ModifierSegments(t)`. */
  lemma {:induction false} ModifierSegmentsUnique(t: string, ts: seq<string>)
    requires Concat(ts) == t
    requires forall k :: 0 <= k < |ts| ==> WellShaped(ts[k])
    requires Greedy(ts)
    ensures ts == ModifierSegments(t)
    decreases |ts|
  {
    if ts != [] {
      var rest := ts[1..];
      assert t == ts[0] + Concat(rest);
      assert t[..|ts[0]|] == ts[0] && t[|ts[0]|..] == Concat(rest);
      assert Greedy(rest) by {
        forall k | 0 <= k < |rest| - 1 && |rest[k]| == 1 && rest[k + 1] != []
          ensures !IsModifier(rest[k + 1][0])
        {
          assert rest[k] == ts[k + 1] && rest[k + 1] == ts[k + 2];
        }
      }
      ModifierSegmentsUnique(Concat(rest), rest);
      if |ts[0]| == 1 && |t| >= 2 {
        assert rest != [];
        assert Concat(rest) == rest[0] + Concat(rest[1..]);
        assert t[1] == rest[0][0];
      }
    }
  }

  /** `split_transliteration` hands back `[]` exactly when a marker occurs or the input is
      empty; otherwise its tokens rebuild the input. */
  lemma UnambiguousSplitEmpty(t: string)
    ensures UnambiguousSplit(t) == [] <==> HasMarker(t) || t == []
    ensures UnambiguousSplit(t) != [] ==> Concat(UnambiguousSplit(t)) == t
  {
    ModifierSegmentsShape(t);
    ModifierSegmentsConcat(t);
  }

  /** A transliteration of a single character comes back as that one token. */
  lemma UnambiguousSplitSingle(t: string)
    requires |t| == 1
    ensures UnambiguousSplit(t) == [t]
  {
    assert forall m | m in TwoCharPhones :: |m| >= 2;
    assert !HasMarker(t);
    ModifierSegmentsAt(t, 0);
    assert t[0..] == t && t[1..] == [];
    assert ModifierSegments(t[1..]) == [];
    assert [t[0]] == t;
  }

  /** The two letters `x`, `y` begin some marker. */
  predicate StartsMarker(x: char, y: char)
  {
    (x == 'a' && y in "ehiu") || (x == 'r' && y == 'i') || (x == 'n' && y in "gjd")
    || (x == 'c' && y == 'n') || (x == 'j' && y == 'n') || (x == 'm' && y == 'b')
  }

  /** A string in which no two neighbouring letters begin a marker has no marker in it. */
  lemma NoMarkerIn(t: string)
    requires forall k :: 0 <= k < |t| - 1 ==> !StartsMarker(t[k], t[k + 1])
    ensures !HasMarker(t)
  {
    forall m, i | m in TwoCharPhones && 0 <= i <= |t| ensures !OccursAt(m, t, i) {
      assert |m| >= 2 && StartsMarker(m[0], m[1]);
      if i + |m| <= |t| {
        assert t[i..i + |m|][0] == t[i] && t[i..i + |m|][1] == t[i + 1];
      }
    }
  }

  /** A letter followed by a modifier merges with it; other letters stay alone. */
  lemma ModifierMergeExample()
    ensures UnambiguousSplit("ama:") == ["a", "m", "a:"]
  {
    var t := "ama:";
    NoMarkerIn(t);
    ModifierSegmentsAt(t, 0);
    ModifierSegmentsAt(t, 1);
    ModifierSegmentsAt(t, 2);
    assert t[0..] == t && t[4..] == [] && t[2..4] == "a:";
    assert !HasMarker(t);
  }

  /** A modifier right after a merged pair is a letter like any other: it stays alone, or
      takes a modifier that follows it. */
  lemma ModifierAfterMergeExample()
    ensures UnambiguousSplit("a::") == ["a:", ":"]
    ensures UnambiguousSplit("a:::") == ["a:", "::"]
  {
    var t := "a::";
    NoMarkerIn(t);
    ModifierSegmentsAt(t, 0);
    ModifierSegmentsAt(t, 2);
    assert t[0..] == t && t[3..] == [] && t[0..2] == "a:";
    var u := "a:::";
    NoMarkerIn(u);
    ModifierSegmentsAt(u, 0);
    ModifierSegmentsAt(u, 2);
    assert u[0..] == u && u[4..] == [] && u[0..2] == "a:" && u[2..4] == "::";
  }

  /** The `ru` quirk: `ru` is an ambiguous run of the other path but not a marker, so a
      transliteration holding it stays on this path and is cut letter by letter. */
  lemma RuStaysUnambiguous()
    ensures UnambiguousSplit("ru") == ["r", "u"]
  {
    var t := "ru";
    NoMarkerIn(t);
    ModifierSegmentsAt(t, 0);
    ModifierSegmentsAt(t, 1);
    assert t[0..] == t && t[2..] == [];
  }
}
