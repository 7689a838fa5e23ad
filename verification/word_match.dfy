/**
  Counting whole-word occurrences of a keyword, as `text.match(/\bkw\b/g)`
  does for a keyword made of word characters.
 */
module WordMatch {
  import opened Text

  /** The characters of the regex class `\w` (no `u` flag): ASCII letters,
      digits and the underscore. `\b` sits between a word character and a
      non-word character or an end of the text. */
  predicate IsWordChar(c: char) {
    || ('A' <= c <= 'Z')
    || ('a' <= c <= 'z')
    || ('0' <= c <= '9')
    || c == '_'
  }

  /** A keyword the parser searches for: non-empty and made of word
      characters only, so that `\b` before it and after it means "no word
      character adjacent". */
  predicate IsWord(kw: string) {
    |kw| > 0 && forall k :: 0 <= k < |kw| ==> IsWordChar(kw[k])
  }

  /** `\bkw\b` matches at index `i` of `text`. */
  predicate WholeWordAt(text: string, kw: string, i: nat) {
    && OccursAt(text, kw, i)
    && (i == 0 || !IsWordChar(text[i - 1]))
    && (i + |kw| == |text| || !IsWordChar(text[i + |kw|]))
  }

  /** The indices from `from` on at which `\bkw\b` matches. */
  function HitsFrom(text: string, kw: string, from: nat): set<nat> {
    set i: nat | from <= i < |text| && WholeWordAt(text, kw, i)
  }

  /** The indices at which `\bkw\b` matches. */
  function Hits(text: string, kw: string): set<nat> {
    HitsFrom(text, kw, 0)
  }

  /** The global regex scan from index `i`: after a match the scan resumes
      at the end of the match, otherwise one character further on. */
  function ScanFrom(text: string, kw: string, i: nat): nat
    requires IsWord(kw)
    decreases |text| - i
  {
    if i + |kw| > |text| then 0
    else if WholeWordAt(text, kw, i) then 1 + ScanFrom(text, kw, i + |kw|)
    else ScanFrom(text, kw, i + 1)
  }

  /** `(text.match(/\bkw\b/g) || []).length`. */
  function CountWholeWord(text: string, kw: string): nat
    requires IsWord(kw)
  {
    ScanFrom(text, kw, 0)
  }

  /** Inside a whole-word match no other match of the same keyword starts:
      the character before such a position belongs to the keyword. */
  lemma NoHitInsideHit(text: string, kw: string, i: nat, j: nat)
    requires IsWord(kw) && WholeWordAt(text, kw, i)
    requires i < j < i + |kw|
    ensures !WholeWordAt(text, kw, j)
  {
    assert text[j - 1] == text[i..i + |kw|][j - 1 - i] == kw[j - 1 - i];
  }

  /** The scan counts every whole-word position exactly once: the number it
      returns is the number of indices from `i` on at which `\bkw\b` matches. */
  lemma {:induction false} ScanCountsHits(text: string, kw: string, i: nat)
    requires IsWord(kw)
    ensures ScanFrom(text, kw, i) == |HitsFrom(text, kw, i)|
    decreases |text| - i
  {
    if i + |kw| > |text| {
      HitsPastEnd(text, kw, i);
    } else if WholeWordAt(text, kw, i) {
      ScanCountsHits(text, kw, i + |kw|);
      CountAtHit(text, kw, i);
    } else {
      ScanCountsHits(text, kw, i + 1);
      HitsAtMiss(text, kw, i);
    }
  }

  /** The step of `ScanCountsHits` at a match: the match itself plus the
      matches after it. */
  lemma CountAtHit(text: string, kw: string, i: nat)
    requires IsWord(kw) && i + |kw| <= |text| && WholeWordAt(text, kw, i)
    requires ScanFrom(text, kw, i + |kw|) == |HitsFrom(text, kw, i + |kw|)|
    ensures ScanFrom(text, kw, i) == |HitsFrom(text, kw, i)|
  {
    var rest := HitsFrom(text, kw, i + |kw|);
    HitsAtHit(text, kw, i);
    AddFresh(i, rest);
  }

  lemma AddFresh(i: nat, rest: set<nat>)
    requires i !in rest
    ensures |{i} + rest| == 1 + |rest|
  {
  }

  lemma HitsPastEnd(text: string, kw: string, i: nat)
    requires |kw| > 0 && i + |kw| > |text|
    ensures HitsFrom(text, kw, i) == {}
  {
  }

  lemma HitsAtHit(text: string, kw: string, i: nat)
    requires IsWord(kw) && WholeWordAt(text, kw, i)
    ensures HitsFrom(text, kw, i) == {i} + HitsFrom(text, kw, i + |kw|)
    ensures i !in HitsFrom(text, kw, i + |kw|)
  {
    forall j: nat | i < j < i + |kw|
      ensures !WholeWordAt(text, kw, j)
    {
      NoHitInsideHit(text, kw, i, j);
    }
  }

  lemma HitsAtMiss(text: string, kw: string, i: nat)
    requires !WholeWordAt(text, kw, i)
    ensures HitsFrom(text, kw, i) == HitsFrom(text, kw, i + 1)
  {
  }

  /** `CountWholeWord` is the number of whole-word positions of `kw`. */
  lemma CountIsNumberOfHits(text: string, kw: string)
    requires IsWord(kw)
    ensures CountWholeWord(text, kw) == |Hits(text, kw)|
  {
    ScanCountsHits(text, kw, 0);
  }

  /** A keyword one of whose letters does not appear in the text is not
      counted at all. */
  lemma AbsentKeyword(text: string, kw: string, j: nat)
    requires IsWord(kw) && j < |kw| && kw[j] !in text
    ensures CountWholeWord(text, kw) == 0
  {
    CountIsNumberOfHits(text, kw);
    forall i: nat | i + |kw| <= |text|
      ensures !OccursAt(text, kw, i)
    {
      assert text[i..i + |kw|][j] == text[i + j] != kw[j];
    }
    assert Hits(text, kw) == {};
  }

  /** A keyword that is a proper prefix of a longer keyword never matches
      where the longer one does: an occurrence of `forEach` is never also
      counted as `for`. */
  lemma {:induction false} ExtensionHidesPrefix(text: string, short: string, long: string, i: nat)
    requires IsWord(short) && IsWord(long)
    requires |short| < |long| && short <= long
    requires WholeWordAt(text, long, i)
    ensures !WholeWordAt(text, short, i)
  {
    assert text[i + |short|] == text[i..i + |long|][|short|] == long[|short|];
  }

  /** No position is a hit of both `for` and `forEach`. */
  lemma ForEachIsNotFor(text: string)
    ensures Hits(text, "for") !! Hits(text, "forEach")
  {
    forall i: nat | i in Hits(text, "forEach")
      ensures i !in Hits(text, "for")
    {
      ExtensionHidesPrefix(text, "for", "forEach", i);
    }
  }

  /** A keyword preceded by a word character, for instance `for` inside
      `performer`, is not counted at that position. */
  lemma EmbeddedIsNotCounted(text: string, kw: string, i: nat)
    requires IsWord(kw)
    requires 0 < i < |text| && IsWordChar(text[i - 1])
    ensures i !in Hits(text, kw)
  {
  }
}
