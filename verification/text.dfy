/**
  The string primitives the parser relies on, as JavaScript defines them:
  `String.prototype.trim`, `search(/\S|$/)`, `startsWith`, `includes` and
  `split` on a one-character separator.
 */
module Text {

  /** The code points JavaScript's `trim` removes and its regex class `\s`
      matches: the ECMAScript WhiteSpace characters (TAB, VT, FF, SPACE,
      NO-BREAK SPACE, ZERO WIDTH NO-BREAK SPACE and the Unicode space
      separators) and the LineTerminator characters (LF, CR, LS, PS). */
  predicate IsWs(c: char) {
    || c == '\t' || c == '\n' || c == '\U{000B}' || c == '\U{000C}' || c == '\r'
    || c == ' ' || c == '\U{00A0}' || c == '\U{1680}'
    || ('\U{2000}' <= c <= '\U{200A}')
    || c == '\U{2028}' || c == '\U{2029}' || c == '\U{202F}' || c == '\U{205F}'
    || c == '\U{3000}' || c == '\U{FEFF}'
  }

  predicate AllWs(s: string) {
    forall i :: 0 <= i < |s| ==> IsWs(s[i])
  }

  /** `s.search(/\S|$/)`: the index of the first non-whitespace character,
      or `|s|` when there is none. */
  function LeadingWs(s: string): (n: nat)
    ensures n <= |s|
    ensures forall i :: 0 <= i < n ==> IsWs(s[i])
    ensures n < |s| ==> !IsWs(s[n])
  {
    if |s| == 0 || !IsWs(s[0]) then 0 else 1 + LeadingWs(s[1..])
  }

  /** The number of whitespace characters at the end of `s`. */
  function TrailingWs(s: string): (n: nat)
    ensures n <= |s|
    ensures forall i :: |s| - n <= i < |s| ==> IsWs(s[i])
    ensures n < |s| ==> !IsWs(s[|s| - n - 1])
  {
    if |s| == 0 || !IsWs(s[|s| - 1]) then 0 else 1 + TrailingWs(s[..|s| - 1])
  }

  /** `s.trim()`: `s` without its leading and trailing whitespace. */
  function Trim(s: string): string
  {
    var a := LeadingWs(s);
    if a == |s| then
      []
    else
      var b := TrailingWs(s);
      assert !IsWs(s[a]);
      s[a..|s| - b]
  }

  /** What `Trim` keeps: nothing for an all-whitespace string, and otherwise
      the part of `s` that starts at its first and ends at its last
      non-whitespace character. In particular the characters removed from the
      front are exactly the `LeadingWs(s)` ones. */
  lemma TrimSpec(s: string)
    ensures Trim(s) == [] <==> AllWs(s)
    ensures Trim(s) != [] ==> !IsWs(Trim(s)[0]) && !IsWs(Trim(s)[|Trim(s)| - 1])
    ensures LeadingWs(s) + |Trim(s)| <= |s|
    ensures Trim(s) == s[LeadingWs(s)..LeadingWs(s) + |Trim(s)|]
    ensures forall i :: LeadingWs(s) + |Trim(s)| <= i < |s| ==> IsWs(s[i])
  {
    var a := LeadingWs(s);
    if a == |s| {
      assert AllWs(s);
    } else {
      TrimOfText(s, a, TrailingWs(s));
    }
  }

  /** `TrimSpec` for a string with a non-whitespace character, in terms of
      the two whitespace counts. */
  lemma TrimOfText(s: string, a: nat, b: nat)
    requires a == LeadingWs(s) < |s| && b == TrailingWs(s)
    ensures a + b < |s|
    ensures Trim(s) == s[a..|s| - b]
    ensures Trim(s)[0] == s[a] && !IsWs(s[a])
    ensures Trim(s)[|Trim(s)| - 1] == s[|s| - b - 1] && !IsWs(s[|s| - b - 1])
  {
    assert !IsWs(s[a]);
    assert a + b < |s|;
    TrimByCounts(s, a, b);
    var r := s[a..|s| - b];
    assert r[|r| - 1] == s[|s| - b - 1];
  }

  /** Trimming a trimmed string changes nothing. */
  lemma TrimIdempotent(s: string)
    ensures Trim(Trim(s)) == Trim(s)
  {
    var r := Trim(s);
    TrimSpec(s);
    if r != [] {
      assert LeadingWs(r) == 0;
      assert TrailingWs(r) == 0;
      assert r[0..|r|] == r;
    }
  }

  /** Extra leading whitespace is counted one for one by `LeadingWs`. */
  lemma {:induction false} LeadingWsOfPrefixed(w: string, s: string)
    requires AllWs(w)
    ensures LeadingWs(w + s) == |w| + LeadingWs(s)
    decreases |w|
  {
    if w == [] {
      assert w + s == s;
    } else {
      assert (w + s)[1..] == w[1..] + s;
      LeadingWsOfPrefixed(w[1..], s);
    }
  }

  /** Extra leading whitespace is invisible after `Trim`: this is what makes
      indentation a separate feature of a line from its trimmed text. */
  lemma TrimOfPrefixed(w: string, s: string)
    requires AllWs(w)
    ensures Trim(w + s) == Trim(s)
  {
    LeadingWsOfPrefixed(w, s);
    if LeadingWs(s) == |s| {
      assert Trim(w + s) == [] by {
        assert LeadingWs(w + s) == |w + s|;
      }
    } else {
      TrailingWsOfPrefixed(w, s);
      TrimOfPrefixedText(w, s, LeadingWs(s), TrailingWs(s));
    }
  }

  /** The non-blank case of `TrimOfPrefixed`, with the two counts named. */
  lemma TrimOfPrefixedText(w: string, s: string, a: nat, t: nat)
    requires a == LeadingWs(s) < |s| && t == TrailingWs(s)
    requires LeadingWs(w + s) == |w| + a && TrailingWs(w + s) == t
    ensures Trim(w + s) == Trim(s)
  {
    var ws := w + s;
    assert ws[|w|..] == s;
    TrimOfSuffix(ws, s, |w|, a, t);
  }

  /** Trimming `ws`, whose suffix from `k` on is `s` and whose whitespace
      runs are those of `s` shifted by `k`, gives the trimmed `s`. */
  lemma TrimOfSuffix(ws: string, s: string, k: nat, a: nat, t: nat)
    requires |ws| == k + |s| && ws[k..] == s
    requires a == LeadingWs(s) < |s| && t == TrailingWs(s)
    requires LeadingWs(ws) == k + a && TrailingWs(ws) == t
    ensures Trim(ws) == Trim(s)
  {
    TrimByCounts(ws, k + a, t);
    TrimByCounts(s, a, t);
    SliceOfDrop(ws, s, k, a, t);
  }

  lemma SliceOfDrop(ws: string, s: string, k: nat, a: nat, t: nat)
    requires |ws| == k + |s| && ws[k..] == s && a + t <= |s|
    ensures ws[k + a..|ws| - t] == s[a..|s| - t]
  {
    assert |ws| - t == k + (|s| - t);
  }

  lemma TrimByCounts(s: string, a: nat, t: nat)
    requires a == LeadingWs(s) < |s| && t == TrailingWs(s)
    ensures Trim(s) == s[a..|s| - t]
  {
  }

  /** Trailing whitespace is not affected by a prefix when `s` itself holds
      a non-whitespace character. */
  lemma {:induction false} TrailingWsOfPrefixed(w: string, s: string)
    requires !AllWs(s)
    ensures TrailingWs(w + s) == TrailingWs(s)
    decreases |s|
  {
    var ws := w + s;
    if IsWs(s[|s| - 1]) {
      var s' := s[..|s| - 1];
      assert ws[..|ws| - 1] == w + s';
      var k :| 0 <= k < |s| && !IsWs(s[k]);
      assert s'[k] == s[k];
      TrailingWsOfPrefixed(w, s');
    }
  }

  /** `s.startsWith(p)`. */
  predicate StartsWith(s: string, p: string) {
    p <= s
  }

  /** `p` occurs in `s` starting at index `i`. */
  predicate OccursAt(s: string, p: string, i: nat) {
    i + |p| <= |s| && s[i..i + |p|] == p
  }

  /** `s.includes(p)`, scanning from the left. */
  function Contains(s: string, p: string): bool
    decreases |s|
  {
    if p <= s then true
    else if |s| == 0 then false
    else Contains(s[1..], p)
  }

  /** `Contains` holds exactly when `p` occurs somewhere in `s`. */
  lemma {:induction false} ContainsSpec(s: string, p: string)
    ensures Contains(s, p) <==> exists i: nat :: OccursAt(s, p, i)
    decreases |s|
  {
    if p <= s {
      assert OccursAt(s, p, 0);
    } else if |s| == 0 {
      assert forall i: nat :: !OccursAt(s, p, i);
    } else {
      ContainsSpec(s[1..], p);
      ContainsStep(s, p);
    }
  }

  /** A pattern whose first character does not appear in `s` is not
      contained in it. */
  lemma AbsentFirstChar(s: string, p: string)
    requires |p| > 0 && p[0] !in s
    ensures !Contains(s, p)
  {
    ContainsSpec(s, p);
    forall i: nat | i + |p| <= |s|
      ensures !OccursAt(s, p, i)
    {
      assert s[i..i + |p|][0] == s[i] != p[0];
    }
  }

  /** When `p` is not a prefix of `s`, it occurs in `s` exactly when it
      occurs in `s` without its first character. */
  lemma ContainsStep(s: string, p: string)
    requires |s| > 0 && !(p <= s)
    ensures (exists i: nat :: OccursAt(s, p, i)) <==> (exists i: nat :: OccursAt(s[1..], p, i))
  {
    if i: nat :| OccursAt(s, p, i) {
      assert i != 0;
      assert s[1..][i - 1..i - 1 + |p|] == s[i..i + |p|];
      assert OccursAt(s[1..], p, i - 1);
    }
    if i: nat :| OccursAt(s[1..], p, i) {
      assert s[1..][i..i + |p|] == s[i + 1..i + 1 + |p|];
      assert OccursAt(s, p, i + 1);
    }
  }

  /** Joins pieces with `sep` between neighbours: the inverse of `Split`. */
  function Join(pieces: seq<string>, sep: char): string
    requires |pieces| > 0
  {
    if |pieces| == 1 then pieces[0] else pieces[0] + [sep] + Join(pieces[1..], sep)
  }

  /** `s.split(sep)`: the maximal runs of `s` between occurrences of `sep`,
      including empty runs at either end and between adjacent separators. */
  function Split(s: string, sep: char): (pieces: seq<string>)
    ensures |pieces| > 0
    ensures forall k :: 0 <= k < |pieces| ==> sep !in pieces[k]
    decreases |s|
  {
    if |s| == 0 then [[]]
    else
      var rest := Split(s[1..], sep);
      if s[0] == sep then [[]] + rest
      else [[s[0]] + rest[0]] + rest[1..]
  }

  /** Splitting and joining again gives back the input. */
  lemma {:induction false} JoinSplit(s: string, sep: char)
    ensures Join(Split(s, sep), sep) == s
    decreases |s|
  {
    if |s| > 0 {
      var rest := Split(s[1..], sep);
      JoinSplit(s[1..], sep);
      if s[0] == sep {
        assert Split(s, sep)[1..] == rest;
        assert s == [sep] + s[1..];
      } else if |rest| == 1 {
        assert s == [s[0]] + s[1..];
      } else {
        var pieces := Split(s, sep);
        assert pieces[1..] == rest[1..];
        assert Join(rest, sep) == rest[0] + [sep] + Join(rest[1..], sep);
        assert s == [s[0]] + s[1..];
      }
    }
  }

  /** Joining separator-free pieces and splitting again gives back the pieces. */
  lemma {:induction false} SplitJoin(pieces: seq<string>, sep: char)
    requires |pieces| > 0
    requires forall k :: 0 <= k < |pieces| ==> sep !in pieces[k]
    ensures Split(Join(pieces, sep), sep) == pieces
    decreases |pieces|, |pieces[0]|
  {
    var p := pieces[0];
    if |pieces| == 1 {
      SplitFree(p, sep);
    } else if p == [] {
      var tail := Join(pieces[1..], sep);
      SplitJoin(pieces[1..], sep);
      assert Join(pieces, sep) == [sep] + tail;
      assert ([sep] + tail)[1..] == tail;
      assert [p] + pieces[1..] == pieces;
    } else {
      var shorter := [p[1..]] + pieces[1..];
      assert shorter[1..] == pieces[1..];
      SplitJoin(shorter, sep);
      var s := Join(pieces, sep);
      assert s == [p[0]] + Join(shorter, sep);
      assert s[1..] == Join(shorter, sep);
      assert p[0] != sep by { assert p[0] in p; }
      assert [p[0]] + p[1..] == p;
      assert [[p[0]] + shorter[0]] + shorter[1..] == pieces;
    }
  }

  /** A string without the separator splits into itself alone. */
  lemma {:induction false} SplitFree(s: string, sep: char)
    requires sep !in s
    ensures Split(s, sep) == [s]
    decreases |s|
  {
    if |s| > 0 {
      SplitFree(s[1..], sep);
      assert s[0] != sep by { assert s[0] in s; }
      assert [s[0]] + s[1..] == s;
    }
  }
}
