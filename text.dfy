/** String helpers the lexicon generator relies on: Python's substring test,
    the start positions `re.finditer` reports for a literal pattern, `' '.join`,
    and list flattening. */
module Text {

  /** `pat` occurs in `s` starting at position `i`. */
  predicate OccursAt(pat: string, s: string, i: int)
  {
    0 <= i && i + |pat| <= |s| && s[i..i + |pat|] == pat
  }

  /** Python's `pat in s` on strings. */
  predicate Occurs(pat: string, s: string)
  {
    exists i | 0 <= i <= |s| :: OccursAt(pat, s, i)
  }

  /** The leftmost occurrence of `pat` in `s` at or after `from`, or -1 when there is none. */
  function IndexOf(pat: string, s: string, from: nat): (r: int)
    decreases |s| - from
    ensures r == -1 || (from <= r && OccursAt(pat, s, r))
    ensures forall j :: from <= j && (r == -1 || j < r) ==> !OccursAt(pat, s, j)
  {
    if from + |pat| > |s| then -1
    else if s[from..from + |pat|] == pat then from
    else IndexOf(pat, s, from + 1)
  }

  /** How far `re.finditer` moves on after a match of `pat`: past the match, or one
      character after an empty match. */
  function Stride(pat: string): (n: nat)
    ensures n >= 1 && n >= |pat|
  {
    if |pat| == 0 then 1 else |pat|
  }

  /** The start positions `re.finditer(pat, s)` reports when `pat` has no regular-expression
      metacharacters, scanning from `from`: leftmost matches, each search starting where the
      previous match ended. */
  function MatchesFrom(pat: string, s: string, from: nat): (ps: seq<nat>)
    decreases |s| + 1 - from
    ensures forall k :: 0 <= k < |ps| ==> from <= ps[k] && OccursAt(pat, s, ps[k])
    ensures forall k, l :: 0 <= k < l < |ps| ==> ps[k] + Stride(pat) <= ps[l]
  {
    var i := IndexOf(pat, s, from);
    if i < 0 then [] else [i as nat] + MatchesFrom(pat, s, i + Stride(pat))
  }

  /** Position `j` lies in the window of `width` characters that starts at some element of `ps`. */
  predicate Covers(ps: seq<nat>, j: int, width: nat)
  {
    exists k :: 0 <= k < |ps| && ps[k] <= j < ps[k] + width
  }

  /** No occurrence is skipped: every occurrence at or after `from` is a reported match or
      lies inside one. */
  lemma {:induction false} MatchesFromCover(pat: string, s: string, from: nat, j: int)
    requires from <= j && OccursAt(pat, s, j)
    ensures Covers(MatchesFrom(pat, s, from), j, Stride(pat))
    decreases |s| + 1 - from
  {
    var ps := MatchesFrom(pat, s, from);
    FirstMatch(pat, s, from, j);
    var i := ps[0];
    var rest := MatchesFrom(pat, s, i + Stride(pat));
    if j < i + Stride(pat) {
      assert ps[0] <= j < ps[0] + Stride(pat);
    } else {
      MatchesFromCover(pat, s, i + Stride(pat), j);
      CoversCons(i, rest, j, Stride(pat));
    }
  }

  lemma CoversCons(x: nat, rest: seq<nat>, j: int, width: nat)
    requires Covers(rest, j, width)
    ensures Covers([x] + rest, j, width)
  {
    var k :| 0 <= k < |rest| && rest[k] <= j < rest[k] + width;
    assert ([x] + rest)[k + 1] == rest[k];
  }

  /** When an occurrence lies at or after `from`, a first match is reported, no later than it,
      and the search goes on from the end of that match. */
  lemma FirstMatch(pat: string, s: string, from: nat, j: int)
    requires from <= j && OccursAt(pat, s, j)
    ensures var ps := MatchesFrom(pat, s, from);
            ps != [] && ps[0] <= j && ps == [ps[0]] + MatchesFrom(pat, s, ps[0] + Stride(pat))
  {
    var i := IndexOf(pat, s, from);
    assert i != -1 && i <= j;
  }

  /** The start positions of `re.finditer(pat, s)`. */
  function Matches(pat: string, s: string): seq<nat>
  {
    MatchesFrom(pat, s, 0)
  }

  /** `''.join(ts)`: the tokens concatenated. */
  function Concat(ts: seq<string>): string
  {
    if ts == [] then [] else ts[0] + Concat(ts[1..])
  }

  lemma ConcatPair(a: string, b: string)
    ensures Concat([a]) == a
    ensures Concat([a, b]) == a + b
  {
    assert [a][1..] == [] && [a, b][1..] == [b];
    assert Concat([b]) == b + Concat([]);
  }

  lemma {:induction false} ConcatAppend(a: seq<string>, b: seq<string>)
    ensures Concat(a + b) == Concat(a) + Concat(b)
  {
    if a == [] {
      assert a + b == b;
    } else {
      assert (a + b)[1..] == a[1..] + b;
      ConcatAppend(a[1..], b);
    }
  }

  lemma SliceSplit(s: string, i: nat, n: nat)
    requires i <= n <= |s|
    ensures s[i..] == s[i..n] + s[n..]
  {
  }

  /** `' '.join(ts)`. */
  function JoinSpaced(ts: seq<string>): string
  {
    if ts == [] then []
    else if |ts| == 1 then ts[0]
    else ts[0] + " " + JoinSpaced(ts[1..])
  }

  /** `' '.join(ts)` holds the tokens' letters and one separator between each two tokens. */
  lemma {:induction false} JoinSpacedLength(ts: seq<string>)
    ensures |JoinSpaced(ts)| == |Concat(ts)| + (if ts == [] then 0 else |ts| - 1)
  {
    if |ts| > 1 {
      JoinSpacedLength(ts[1..]);
    }
  }

  /** The characters `str.isspace` accepts, which `str.split()` and `str.strip()` treat as separators. */
  predicate IsWhitespace(c: char)
  {
    ('\t' <= c <= '\r') || ('\U{001C}' <= c <= ' ') || c == '\U{0085}' || c == '\U{00A0}'
    || c == '\U{1680}' || ('\U{2000}' <= c <= '\U{200A}') || c == '\U{2028}' || c == '\U{2029}'
    || c == '\U{202F}' || c == '\U{205F}' || c == '\U{3000}'
  }

  predicate NoWhitespace(s: string)
  {
    forall k :: 0 <= k < |s| ==> !IsWhitespace(s[k])
  }

  /** `s.split()`: the maximal runs of non-whitespace characters, left to right. */
  function Fields(s: string): seq<string>
    decreases |s|
  {
    if s == [] then []
    else if IsWhitespace(s[0]) then Fields(s[1..])
    else
      var n := FieldLength(s, 0);
      [s[..n]] + Fields(s[n..])
  }

  /** The length of the run of non-whitespace characters at the start of `s[i..]`, plus `i`. */
  function FieldLength(s: string, i: nat): (n: nat)
    requires i <= |s|
    decreases |s| - i
    ensures i <= n <= |s|
    ensures forall k :: i <= k < n ==> !IsWhitespace(s[k])
    ensures n == |s| || IsWhitespace(s[n])
  {
    if i == |s| || IsWhitespace(s[i]) then i else FieldLength(s, i + 1)
  }

  /** Every field `str.split()` returns is non-empty and holds no whitespace character. */
  lemma {:induction false} FieldsWellFormed(s: string)
    decreases |s|
    ensures forall k :: 0 <= k < |Fields(s)| ==> Fields(s)[k] != [] && NoWhitespace(Fields(s)[k])
  {
    if s == [] {
    } else if IsWhitespace(s[0]) {
      FieldsWellFormed(s[1..]);
    } else {
      var n := FieldLength(s, 0);
      FieldsWellFormed(s[n..]);
      var fs := Fields(s);
      assert fs == [s[..n]] + Fields(s[n..]);
      forall k | 0 <= k < |fs| ensures fs[k] != [] && NoWhitespace(fs[k]) {
        if k > 0 {
          assert fs[k] == Fields(s[n..])[k - 1];
        }
      }
    }
  }

  lemma {:induction false} FieldsOfToken(t: string, rest: string)
    requires t != [] && NoWhitespace(t)
    requires rest == [] || IsWhitespace(rest[0])
    ensures Fields(t + rest) == [t] + Fields(rest)
  {
    var s := t + rest;
    FieldFullLength(s, |t|, 0);
    assert s[..|t|] == t;
    assert s[|t|..] == rest;
  }

  lemma {:induction false} FieldFullLength(s: string, n: nat, i: nat)
    requires i <= n <= |s|
    requires forall k :: i <= k < n ==> !IsWhitespace(s[k])
    requires n == |s| || IsWhitespace(s[n])
    ensures FieldLength(s, i) == n
    decreases n - i
  {
    if i < n {
      FieldFullLength(s, n, i + 1);
    }
  }

  /** The lexicon's line format round-trips: splitting `' '.join(ts)` on whitespace gives the
      tokens back when each is non-empty and has no whitespace in it. */
  lemma {:induction false} FieldsOfJoinSpaced(ts: seq<string>)
    requires forall k :: 0 <= k < |ts| ==> ts[k] != [] && NoWhitespace(ts[k])
    ensures Fields(JoinSpaced(ts)) == ts
  {
    if ts == [] {
    } else if |ts| == 1 {
      FieldsOfToken(ts[0], []);
      assert ts[0] + [] == ts[0];
    } else {
      var rest := JoinSpaced(ts[1..]);
      var tail := " " + rest;
      assert JoinSpaced(ts) == ts[0] + tail;
      assert Fields(ts[0] + tail) == [ts[0]] + Fields(tail) by {
        FieldsOfToken(ts[0], tail);
      }
      assert Fields(tail) == Fields(rest) by {
        assert tail[1..] == rest;
      }
      FieldsOfJoinSpaced(ts[1..]);
      assert ts == [ts[0]] + ts[1..];
    }
  }

  /** `s` with every space removed. */
  function DropSpaces(s: string): string
  {
    if s == [] then [] else (if s[0] == ' ' then [] else [s[0]]) + DropSpaces(s[1..])
  }

  lemma {:induction false} DropSpacesAppend(a: string, b: string)
    ensures DropSpaces(a + b) == DropSpaces(a) + DropSpaces(b)
  {
    if a == [] {
      assert a + b == b;
    } else {
      assert (a + b)[1..] == a[1..] + b;
      DropSpacesAppend(a[1..], b);
    }
  }

  lemma {:induction false} DropSpacesNone(s: string)
    requires ' ' !in s
    ensures DropSpaces(s) == s
  {
    if s != [] {
      assert s[0] == s[..1][0];
      assert ' ' !in s[1..] by {
        forall k | 0 <= k < |s[1..]| ensures s[1..][k] != ' ' {
          assert s[1..][k] == s[k + 1];
        }
      }
      DropSpacesNone(s[1..]);
      assert s == [s[0]] + s[1..];
    }
  }

  /** Removing the separators from `' '.join(ts)` leaves the tokens concatenated. */
  lemma {:induction false} DropSpacesJoinSpaced(ts: seq<string>)
    ensures DropSpaces(JoinSpaced(ts)) == DropSpaces(Concat(ts))
  {
    if ts == [] {
    } else if |ts| == 1 {
      assert Concat(ts) == ts[0] + Concat(ts[1..]);
      assert ts[0] + [] == ts[0];
    } else {
      DropSpacesJoinSpaced(ts[1..]);
      DropSpacesAppend(ts[0] + " ", JoinSpaced(ts[1..]));
      DropSpacesAppend(ts[0], " ");
      DropSpacesAppend(ts[0], Concat(ts[1..]));
      assert DropSpaces(" ") == [];
    }
  }
}
