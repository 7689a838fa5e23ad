/**
  Worked examples: what the parse yields for a few small programs.
 */
module Scenarios {
  import opened Wrappers
  import opened Text
  import opened WordMatch
  import opened Scales
  import opened CodeParser

  // ------------------------------------------------------------ tempo

  /** A program that is one comment mentioning `map`. */
  const CommentedMap: string := "// map"

  lemma CommentedMapHasOneMap()
    ensures CountWholeWord(CommentedMap, "map") == 1
  {
    assert WholeWordAt(CommentedMap, "map", 3) by {
      assert CommentedMap[3..6] == "map";
    }
  }

  /** Keywords are counted over the whole text, comments included: the one
      `map` lifts the tempo from 90 to 105. */
  lemma CommentedMapTempo()
    ensures LoopCount(CommentedMap) == 1
    ensures Bpm(LoopCount(CommentedMap)) == 105
  {
    LoopKeywordsAreWords();
    var kws := LoopKeywords;
    assert kws[0] == "for" && kws[1] == "while" && kws[3] == "forEach" && kws[4] == "reduce";
    AbsentKeyword(CommentedMap, kws[0], 0);
    AbsentKeyword(CommentedMap, kws[1], 0);
    CommentedMapHasOneMap();
    AbsentKeyword(CommentedMap, kws[3], 0);
    AbsentKeyword(CommentedMap, kws[4], 0);
    assert kws[1..][1..][1..][1..][1..] == [];
  }

  /** The same program yields no events: its only line is a comment. */
  lemma CommentedMapIsSilent(code: string, key: ScaleKey)
    requires code == "// map"
    ensures ParseCodeToMusic(code, key).melodyEvents == []
  {
    SplitFree(code, '\n');
    assert IsSkipped(code);
    SilentWhenAllSkipped(code, key);
  }

  /** The whole parse of the comment: a tempo of 105 and no events. */
  lemma CommentedMapParse(code: string)
    requires code == "// map"
    ensures ParseCodeToMusic(code, Dorian) == ParsedComposition(105, [])
  {
    CommentedMapTempo();
    CommentedMapIsSilent(code, Dorian);
  }

  /** A program calling `forEach`. */
  const EachCall: string := "xs.forEach(play)"

  /** `forEach` is counted once, and the `for` at its front is not counted. */
  lemma ForEachCountedOnce()
    ensures CountWholeWord(EachCall, "forEach") == 1
    ensures CountWholeWord(EachCall, "for") == 0
  {
    assert WholeWordAt(EachCall, "forEach", 3) by {
      assert EachCall[3..10] == "forEach";
    }
    assert !WholeWordAt(EachCall, "for", 3);
  }

  // ----------------------------------------------------------- events

  /** The lines of `if (x) {`, `  return true;`, `}`. */
  lemma KickLine()
    ensures Features("if (x) {") == LineFeatures(false, 0, 8, Some(Kick), false)
  {
  }

  lemma ReturnLine(indent: string, text: string)
    requires indent == "  " && text == "return true;"
    ensures Features(indent + text) == LineFeatures(false, 2, 12, None, true)
  {
    assert AllWs(indent);
    AbsentFirstChar(text, "function");
    FeaturesOfIndentedText(indent, text);
  }

  lemma BraceLine()
    ensures Features("}") == LineFeatures(false, 0, 1, None, false)
  {
  }

  /** The scan of those three lines, with a blank line added before the
      brace: a kick with no note at the start, the return line's note one
      degree up and one tenth louder, and, after the return's extra
      sixteenth of rest, the brace's note. The blank line yields nothing. */
  lemma BranchScan()
    ensures EventsFrom([
        LineFeatures(false, 0, 8, Some(Kick), false),
        LineFeatures(false, 2, 12, None, true),
        Features(""),
        LineFeatures(false, 0, 1, None, false)], Notes(Dorian), 0)
      == Scan([
        MusicalEvent(0, None, Sixteenth, true, Some(Kick), 6),
        MusicalEvent(1, Some("E3"), Sixteenth, false, None, 7),
        MusicalEvent(3, Some("D3"), Sixteenth, false, None, 6)], 4)
  {
  }

  /** The whole parse of the branch program `if (x) {`, `  return true;`,
      `}`: no loop keyword, so tempo 90, and the three events of `BranchScan`,
      which the blank line there does not change. */
  lemma BranchParse(l0: string, indent: string, text: string, l2: string)
    requires l0 == "if (x) {" && indent == "  " && text == "return true;" && l2 == "}"
    ensures ParseCodeToMusic(l0 + "\n" + indent + text + "\n" + l2, Dorian)
      == ParsedComposition(90, [
        MusicalEvent(0, None, Sixteenth, true, Some(Kick), 6),
        MusicalEvent(1, Some("E3"), Sixteenth, false, None, 7),
        MusicalEvent(3, Some("D3"), Sixteenth, false, None, 6)])
  {
    var code := l0 + "\n" + indent + text + "\n" + l2;
    BranchTempo(l0, indent, text, l2);
    BranchEvents(l0, indent, text, l2);
    ParseIsScan(code, Dorian);
  }

  lemma BranchTempo(l0: string, indent: string, text: string, l2: string)
    requires l0 == "if (x) {" && indent == "  " && text == "return true;" && l2 == "}"
    ensures LoopCount(l0 + "\n" + indent + text + "\n" + l2) == 0
  {
    var code := l0 + "\n" + indent + text + "\n" + l2;
    forall c | c in "owmd"
      ensures c !in code
    {
      AbsentFromSix(c, l0, "\n", indent, text, "\n", l2);
    }
    NoLoopLetters(code);
  }

  /** A character absent from six pieces is absent from their concatenation. */
  lemma AbsentFromSix(c: char, a: string, b: string, d: string, e: string, f: string, g: string)
    requires c !in a && c !in b && c !in d && c !in e && c !in f && c !in g
    ensures c !in a + b + d + e + f + g
  {
  }

  lemma BranchEvents(l0: string, indent: string, text: string, l2: string)
    requires l0 == "if (x) {" && indent == "  " && text == "return true;" && l2 == "}"
    ensures EventsFrom(FeaturesOf(Split(l0 + "\n" + indent + text + "\n" + l2, '\n')), Notes(Dorian), 0).events
      == [MusicalEvent(0, None, Sixteenth, true, Some(Kick), 6),
          MusicalEvent(1, Some("E3"), Sixteenth, false, None, 7),
          MusicalEvent(3, Some("D3"), Sixteenth, false, None, 6)]
  {
    var lines := [l0, indent + text, l2];
    BranchLines(l0, indent, text, l2);
    SplitJoin(lines, '\n');
    FeaturesOfThree(l0, indent + text, l2);
    KickLine();
    ReturnLine(indent, text);
    BraceLine();
    BranchScanWithoutBlank();
  }

  /** Without the blank line the scan of the branch program is the same. */
  lemma BranchScanWithoutBlank()
    ensures EventsFrom([
        LineFeatures(false, 0, 8, Some(Kick), false),
        LineFeatures(false, 2, 12, None, true),
        LineFeatures(false, 0, 1, None, false)], Notes(Dorian), 0).events
      == [MusicalEvent(0, None, Sixteenth, true, Some(Kick), 6),
          MusicalEvent(1, Some("E3"), Sixteenth, false, None, 7),
          MusicalEvent(3, Some("D3"), Sixteenth, false, None, 6)]
  {
    var kick := LineFeatures(false, 0, 8, Some(Kick), false);
    var ret := LineFeatures(false, 2, 12, None, true);
    var brace := LineFeatures(false, 0, 1, None, false);
    var blank := Features("");
    assert blank.skipped;
    SkippedLeavesNoTrace([kick, ret], blank, [brace], Notes(Dorian), 0);
    assert [kick, ret] + [brace] == [kick, ret, brace];
    assert [kick, ret] + [blank] + [brace] == [kick, ret, blank, brace];
    BranchScan();
  }

  /** The branch program is its three lines joined by newlines. */
  lemma BranchLines(l0: string, indent: string, text: string, l2: string)
    requires l0 == "if (x) {" && indent == "  " && text == "return true;" && l2 == "}"
    ensures l0 + "\n" + indent + text + "\n" + l2 == Join([l0, indent + text, l2], '\n')
    ensures forall k :: 0 <= k < 3 ==> '\n' !in [l0, indent + text, l2][k]
  {
    JoinThree(l0, indent + text, l2, '\n');
  }

  /** Text without the letters `o`, `w`, `m` and `d` holds none of the five
      loop keywords, so its tempo is 90. */
  lemma NoLoopLetters(code: string)
    requires 'o' !in code && 'w' !in code && 'm' !in code && 'd' !in code
    ensures LoopCount(code) == 0
    ensures Bpm(LoopCount(code)) == 90
  {
    LoopKeywordsAreWords();
    var kws := LoopKeywords;
    assert kws == ["for", "while", "map", "forEach", "reduce"];
    forall k | 0 <= k < |kws|
      ensures CountWholeWord(code, kws[k]) == 0
    {
      var j := if k == 1 || k == 2 then 0 else if k == 4 then 2 else 1;
      AbsentKeyword(code, kws[k], j);
    }
    KeywordTotalZero(code, kws);
  }

  lemma JoinThree(a: string, b: string, c: string, sep: char)
    ensures Join([a, b, c], sep) == a + [sep] + b + [sep] + c
  {
    assert [a, b, c][1..] == [b, c];
    assert [b, c][1..] == [c];
    assert Join([b, c], sep) == b + [sep] + c;
  }

  lemma FeaturesOfThree(a: string, b: string, c: string)
    ensures FeaturesOf([a, b, c]) == [Features(a), Features(b), Features(c)]
  {
    FeaturesOfAppend([a], [b, c]);
    FeaturesOfAppend([b], [c]);
    assert [a] + [b, c] == [a, b, c];
    assert [b] + [c] == [b, c];
    FeaturesOfOne(a);
    FeaturesOfOne(b);
    FeaturesOfOne(c);
  }

  lemma FeaturesOfOne(a: string)
    ensures FeaturesOf([a]) == [Features(a)]
  {
    assert [a][1..] == [];
  }
}
