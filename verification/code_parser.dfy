/**
  The code-to-music transformation: a tempo from the density of loop
  keywords, and one musical event per line of code that is neither blank nor
  a line comment, placed on a running sixteenth-note clock.
 */
module CodeParser {
  import opened Wrappers
  import opened Text
  import opened WordMatch
  import opened Timing
  import opened Scales

  datatype DrumType = Kick | Snare | Hihat

  /** The duration classes, written `16n`, `8n` and `4n` on the transport. */
  datatype Duration = Sixteenth | Eighth | Quarter {
    /** The transport notation of the class agrees with its clock step: a
        note of `k` sixteenths is written `16/k` followed by `n`. */
    function Notation(): (n: string)
      ensures Step(this) == 1 <==> n == "16n"
      ensures Step(this) == 2 <==> n == "8n"
      ensures Step(this) == 4 <==> n == "4n"
    {
      match this
      case Sixteenth => "16n"
      case Eighth => "8n"
      case Quarter => "4n"
    }
  }

  /** One trigger for the playback scheduler. The event keeps the clock
      reading `tick` (in sixteenth notes) it was placed at; its time stamp is
      that reading written as a transport position. The velocity is kept in
      tenths: `velocityTenths == 6` stands for a velocity of 0.6. */
  datatype MusicalEvent = MusicalEvent(
    tick: nat,
    note: Option<string>,
    duration: Duration,
    isDrum: bool,
    drumType: Option<DrumType>,
    velocityTenths: nat)
  {
    /** The `bars:quarters:sixteenths` stamp the scheduler receives. */
    function TimeStamp(): (x: Time)
      ensures WellFormed(x) && Ticks(x) == tick
    {
      TimeOf(tick)
    }
  }

  datatype ParsedComposition = ParsedComposition(bpm: int, melodyEvents: seq<MusicalEvent>)

  /** The keywords whose whole-word occurrences speed the tempo up. */
  const LoopKeywords: seq<string> := ["for", "while", "map", "forEach", "reduce"]

  lemma LoopKeywordsAreWords()
    ensures forall k :: 0 <= k < |LoopKeywords| ==> IsWord(LoopKeywords[k])
  {
    assert IsWord("for") && IsWord("while") && IsWord("map");
    assert IsWord("forEach") && IsWord("reduce");
  }

  // ---------------------------------------------------------------- tempo

  /** The sum of the whole-word counts of `keywords` in `code`. */
  function KeywordTotal(code: string, keywords: seq<string>): nat
    requires forall k :: 0 <= k < |keywords| ==> IsWord(keywords[k])
  {
    if |keywords| == 0 then 0
    else CountWholeWord(code, keywords[0]) + KeywordTotal(code, keywords[1..])
  }

  /** The number of loop constructs the tempo is derived from. */
  function LoopCount(code: string): nat {
    LoopKeywordsAreWords();
    KeywordTotal(code, LoopKeywords)
  }

  /** Keywords none of which occurs as a whole word add nothing. */
  lemma {:induction false} KeywordTotalZero(code: string, keywords: seq<string>)
    requires forall k :: 0 <= k < |keywords| ==> IsWord(keywords[k])
    requires forall k :: 0 <= k < |keywords| ==> CountWholeWord(code, keywords[k]) == 0
    ensures KeywordTotal(code, keywords) == 0
    decreases |keywords|
  {
    if |keywords| > 0 {
      KeywordTotalZero(code, keywords[1..]);
    }
  }

  /** `LoopCount` is the number of whole-word positions of the five keywords
      together, each keyword counted on its own. */
  lemma LoopCountIsHits(code: string)
    ensures LoopCount(code)
      == |Hits(code, "for")| + |Hits(code, "while")| + |Hits(code, "map")|
       + |Hits(code, "forEach")| + |Hits(code, "reduce")|
  {
    LoopKeywordsAreWords();
    var kws := LoopKeywords;
    assert kws[1..] == ["while", "map", "forEach", "reduce"];
    assert kws[2..] == ["map", "forEach", "reduce"];
    assert kws[3..] == ["forEach", "reduce"];
    assert kws[4..] == ["reduce"];
    assert KeywordTotal(code, kws[4..]) == CountWholeWord(code, "reduce") by {
      assert kws[4..][1..] == [];
    }
    assert KeywordTotal(code, kws[3..]) == CountWholeWord(code, "forEach") + KeywordTotal(code, kws[4..]) by {
      assert kws[3..][1..] == kws[4..];
    }
    assert KeywordTotal(code, kws[2..]) == CountWholeWord(code, "map") + KeywordTotal(code, kws[3..]) by {
      assert kws[2..][1..] == kws[3..];
    }
    assert KeywordTotal(code, kws[1..]) == CountWholeWord(code, "while") + KeywordTotal(code, kws[2..]) by {
      assert kws[1..][1..] == kws[2..];
    }
    CountIsNumberOfHits(code, "for");
    CountIsNumberOfHits(code, "while");
    CountIsNumberOfHits(code, "map");
    CountIsNumberOfHits(code, "forEach");
    CountIsNumberOfHits(code, "reduce");
  }

  function Min(a: int, b: int): int { if a <= b then a else b }

  function Max(a: int, b: int): int { if a >= b then a else b }

  /** The tempo for a given number of loop constructs: 90 beats per minute
      plus 15 per loop, clamped to the range 80 to 180. */
  function Bpm(loopCount: nat): (bpm: int)
    ensures 80 <= bpm <= 180
    ensures 90 <= bpm
    ensures loopCount == 0 ==> bpm == 90
    ensures bpm == 180 <==> 6 <= loopCount
  {
    Min(Max(80, 90 + loopCount * 15), 180)
  }

  /** More loops never slow the tempo down, and below the cap every loop adds
      exactly 15 beats per minute. */
  lemma BpmGrowsWithLoops(a: nat, b: nat)
    requires a <= b
    ensures Bpm(a) <= Bpm(b)
    ensures b < 6 ==> Bpm(b) - Bpm(a) == 15 * (b - a)
  {
  }

  // --------------------------------------------------- per-line features

  /** What the parser reads off one line before it builds the line's event. */
  datatype LineFeatures = LineFeatures(
    skipped: bool,
    leading: nat,
    trimmedLength: nat,
    role: Option<DrumType>,
    isReturn: bool)

  /** The drum role of a trimmed line, first match wins: a line starting
      with `if` is a kick, else one starting with `else` a snare, else one
      containing `function` anywhere a hihat. */
  function DrumRole(trimmed: string): Option<DrumType> {
    if StartsWith(trimmed, "if") then Some(Kick)
    else if StartsWith(trimmed, "else") then Some(Snare)
    else if Contains(trimmed, "function") then Some(Hihat)
    else None
  }

  /** The roles are tried in priority order and exactly one outcome applies:
      `if` beats `else`, which beats an occurrence of `function` anywhere in
      the line; a line with none of the three has no drum. */
  lemma DrumRolePriority(trimmed: string)
    ensures DrumRole(trimmed) == Some(Kick) <==> StartsWith(trimmed, "if")
    ensures DrumRole(trimmed) == Some(Snare)
      <==> !StartsWith(trimmed, "if") && StartsWith(trimmed, "else")
    ensures DrumRole(trimmed) == Some(Hihat)
      <==> && !StartsWith(trimmed, "if") && !StartsWith(trimmed, "else")
           && exists i: nat :: OccursAt(trimmed, "function", i)
    ensures DrumRole(trimmed) == None
      <==> && !StartsWith(trimmed, "if") && !StartsWith(trimmed, "else")
           && forall i: nat :: !OccursAt(trimmed, "function", i)
  {
    ContainsSpec(trimmed, "function");
  }

  /** A line that produces no event: blank after trimming, or a `//` comment. */
  predicate IsSkipped(line: string) {
    var trimmed := Trim(line);
    trimmed == [] || StartsWith(trimmed, "//")
  }

  /** The features of one line: whether it is skipped, its leading
      whitespace, the length of its trimmed text, its drum role and whether
      it is a `return` line. */
  function Features(line: string): LineFeatures {
    var trimmed := Trim(line);
    LineFeatures(
      IsSkipped(line),
      LeadingWs(line),
      |trimmed|,
      DrumRole(trimmed),
      StartsWith(trimmed, "return"))
  }

  /** A line is skipped exactly when it is all whitespace or its text starts
      with `//`. For a kept line the leading whitespace count is exactly the
      number of characters trimming removes from the front: the trimmed text
      starts there, with a non-whitespace character. */
  lemma FeaturesSpec(line: string)
    ensures var f := Features(line);
      && (f.skipped <==> AllWs(line) || StartsWith(Trim(line), "//"))
      && (!f.skipped ==>
            && f.leading + f.trimmedLength <= |line|
            && line[f.leading..f.leading + f.trimmedLength] == Trim(line)
            && !IsWs(line[f.leading]))
  {
    TrimSpec(line);
  }

  /** Indenting a line by two more whitespace characters raises its leading
      count by two and changes none of its other features. */
  lemma IndentChangesOnlyLeading(line: string)
    ensures Features("  " + line) == Features(line).(leading := Features(line).leading + 2)
  {
    assert AllWs("  ");
    LeadingWsOfPrefixed("  ", line);
    TrimOfPrefixed("  ", line);
  }

  /** The features of a line made of indentation `w` followed by text `s`
      that starts and ends with a non-whitespace character. */
  lemma FeaturesOfIndentedText(w: string, s: string)
    requires AllWs(w)
    requires |s| > 0 && !IsWs(s[0]) && !IsWs(s[|s| - 1])
    ensures Features(w + s)
      == LineFeatures(StartsWith(s, "//"), |w|, |s|, DrumRole(s), StartsWith(s, "return"))
  {
    LeadingWsOfPrefixed(w, s);
    TrimOfPrefixed(w, s);
    TrimByCounts(s, 0, 0);
    assert s[0..|s|] == s;
  }

  // ----------------------------------------------------- event synthesis

  /** The duration class of a line from the length of its trimmed text. */
  function DurationOf(trimmedLength: nat): (d: Duration)
    ensures d == Quarter <==> 30 < trimmedLength
    ensures d == Eighth <==> 15 < trimmedLength <= 30
    ensures d == Sixteenth <==> trimmedLength <= 15
  {
    if trimmedLength > 30 then Quarter
    else if trimmedLength > 15 then Eighth
    else Sixteenth
  }

  /** How many sixteenth notes a duration class occupies on the clock. */
  function Step(d: Duration): (n: nat)
    ensures n == 1 || n == 2 || n == 4
  {
    match d
    case Sixteenth => 1
    case Eighth => 2
    case Quarter => 4
  }

  /** Longer lines never take fewer sixteenths than shorter ones, and two
      lengths take the same number exactly when they share a duration class. */
  lemma StepGrowsWithLength(a: nat, b: nat)
    requires a <= b
    ensures Step(DurationOf(a)) <= Step(DurationOf(b))
    ensures Step(DurationOf(a)) == Step(DurationOf(b)) <==> DurationOf(a) == DurationOf(b)
  {
  }

  /** Distinct duration classes are written differently, so the notation the
      scheduler receives determines the class and its clock step. */
  lemma NotationOneToOne(a: Duration, b: Duration)
    ensures a.Notation() == b.Notation() <==> a == b
    ensures a.Notation() == b.Notation() <==> Step(a) == Step(b)
  {
  }

  /** The scale degree of a line: one degree per two leading whitespace
      characters, saturating at the top of the scale. */
  function NoteIndex(leading: nat, scaleSize: nat): (k: nat)
    requires scaleSize > 0
    ensures k < scaleSize
    ensures k <= leading / 2
    ensures k == leading / 2 || k == scaleSize - 1
  {
    Min(leading / 2, scaleSize - 1)
  }

  /** How far the clock moves past a kept line: its duration's step, doubled
      for a `return` line to leave a rest behind it. */
  function Advance(f: LineFeatures): (n: nat)
    ensures 1 <= n <= 8
    ensures var step := Step(DurationOf(f.trimmedLength));
      && (n == step || n == 2 * step)
      && (n == 2 * step <==> f.isReturn)
  {
    var step := Step(DurationOf(f.trimmedLength));
    if f.isReturn then step * 2 else step
  }

  /** The event of a kept line when the clock reads `t`: the clock rendered
      as a position, the note of its depth unless it is a drum line that does
      not return, its duration class, its drum role, and a velocity of 0.6
      plus 0.1 per indentation level. */
  function EventOf(f: LineFeatures, scale: seq<string>, t: nat): (e: MusicalEvent)
    requires |scale| > 0
    ensures e.tick == t
    ensures e.isDrum <==> e.drumType.Some?
    ensures e.note.None? <==> e.isDrum && !f.isReturn
    ensures e.note.Some? ==> e.note.value in scale
    ensures e.note.Some? ==> e.note.value == scale[NoteIndex(f.leading, |scale|)]
    ensures e.drumType == f.role
    ensures e.duration == DurationOf(f.trimmedLength)
    ensures 6 <= e.velocityTenths && e.velocityTenths == 6 + f.leading / 2
  {
    var depth := f.leading / 2;
    var isDrum := f.role.Some?;
    var note := scale[NoteIndex(f.leading, |scale|)];
    MusicalEvent(
      t,
      if isDrum && !f.isReturn then None else Some(note),
      DurationOf(f.trimmedLength),
      isDrum,
      f.role,
      6 + depth)
  }

  /** The event of a line in terms of its text: it is a drum hit exactly when
      its trimmed text starts with `if` or `else` or contains `function`; it
      has no note exactly when it is a drum hit that does not start with
      `return`; otherwise its note is the one `LeadingWs / 2` degrees up,
      clamped to the top of the scale; its velocity is 0.6 plus 0.1 per two
      leading whitespace characters. */
  lemma LineEvent(line: string, scale: seq<string>, t: nat)
    requires |scale| > 0
    ensures var e, trimmed := EventOf(Features(line), scale, t), Trim(line);
      && (e.isDrum <==> || StartsWith(trimmed, "if") || StartsWith(trimmed, "else")
                        || exists i: nat :: OccursAt(trimmed, "function", i))
      && (e.note.None? <==> e.isDrum && !StartsWith(trimmed, "return"))
      && (e.note.Some? ==> e.note.value == scale[Min(LeadingWs(line) / 2, |scale| - 1)])
      && e.velocityTenths == 6 + LeadingWs(line) / 2
      && e.duration == DurationOf(|trimmed|)
  {
    DrumRolePriority(Trim(line));
  }

  /** Two more leading whitespace characters raise a line's note one scale
      degree (until the top of the scale) and its velocity by 0.1, and change
      nothing else about its event. */
  lemma IndentRaisesPitchAndVelocity(line: string, scale: seq<string>, t: nat)
    requires |scale| > 0
    ensures var f, f' := Features(line), Features("  " + line);
      var e, e' := EventOf(f, scale, t), EventOf(f', scale, t);
      && e'.velocityTenths == e.velocityTenths + 1
      && NoteIndex(f'.leading, |scale|) == Min(NoteIndex(f.leading, |scale|) + 1, |scale| - 1)
      && (e.note.Some? ==> e'.note == Some(scale[NoteIndex(f'.leading, |scale|)]))
      && e'.tick == e.tick && e'.duration == e.duration
      && e'.isDrum == e.isDrum && e'.drumType == e.drumType
      && e'.note.Some? == e.note.Some?
  {
    IndentChangesOnlyLeading(line);
    var leading := Features(line).leading;
    assert (leading + 2) / 2 == leading / 2 + 1;
  }

  // ------------------------------------------------------- the line scan

  /** The features of the lines that produce events, in source order. */
  function Kept(fs: seq<LineFeatures>): (kept: seq<LineFeatures>)
    ensures |kept| <= |fs|
    ensures forall k :: 0 <= k < |kept| ==> !kept[k].skipped
  {
    if |fs| == 0 then []
    else if fs[0].skipped then Kept(fs[1..])
    else [fs[0]] + Kept(fs[1..])
  }

  /** `Kept` drops exactly the skipped lines: every line that is not skipped
      is kept as often as it occurs, and no skipped line is kept. */
  lemma {:induction false} KeptIsFilter(fs: seq<LineFeatures>)
    ensures forall f :: multiset(Kept(fs))[f] == if f.skipped then 0 else multiset(fs)[f]
    decreases |fs|
  {
    if |fs| > 0 {
      KeptIsFilter(fs[1..]);
      assert fs == [fs[0]] + fs[1..];
    }
  }

  /** `Kept` works line by line and keeps source order: filtering a
      concatenation concatenates the filtered parts. With
      `Kept([f]) == if f.skipped then [] else [f]` this fixes `Kept` uniquely. */
  lemma {:induction false} KeptAppend(a: seq<LineFeatures>, b: seq<LineFeatures>)
    ensures Kept(a + b) == Kept(a) + Kept(b)
    decreases |a|
  {
    if |a| == 0 {
      assert a + b == b;
    } else {
      assert (a + b)[1..] == a[1..] + b;
      KeptAppend(a[1..], b);
    }
  }

  /** The total clock advance of a run of kept lines. */
  function AdvanceTotal(fs: seq<LineFeatures>): nat {
    if |fs| == 0 then 0 else Advance(fs[0]) + AdvanceTotal(fs[1..])
  }

  /** The state of the line scan: the events so far and the clock. */
  datatype Scan = Scan(events: seq<MusicalEvent>, clock: nat)

  /** The scan over the lines' features with the clock starting at `t`: a
      kept line yields one event stamped with the current clock and then
      advances it; a skipped line yields nothing and leaves the clock alone. */
  function EventsFrom(fs: seq<LineFeatures>, scale: seq<string>, t: nat): Scan
    requires |scale| > 0
    decreases |fs|
  {
    if |fs| == 0 then Scan([], t)
    else if fs[0].skipped then EventsFrom(fs[1..], scale, t)
    else
      var rest := EventsFrom(fs[1..], scale, t + Advance(fs[0]));
      Scan([EventOf(fs[0], scale, t)] + rest.events, rest.clock)
  }

  /** A scan emits one event per kept line, and the clock moves on by at
      least one sixteenth per event. */
  lemma {:induction false} EventsFromLength(fs: seq<LineFeatures>, scale: seq<string>, t: nat)
    requires |scale| > 0
    ensures |EventsFrom(fs, scale, t).events| == |Kept(fs)|
    ensures t + |EventsFrom(fs, scale, t).events| <= EventsFrom(fs, scale, t).clock
    decreases |fs|
  {
    if |fs| > 0 {
      if fs[0].skipped {
        EventsFromLength(fs[1..], scale, t);
      } else {
        EventsFromLength(fs[1..], scale, t + Advance(fs[0]));
      }
    }
  }

  /** Every event was placed at a clock reading in `[lo, hi)`. */
  predicate TimesWithin(events: seq<MusicalEvent>, lo: nat, hi: nat) {
    forall i :: 0 <= i < |events| ==> lo <= events[i].tick < hi
  }

  /** Later events have strictly later tick counts. */
  predicate TicksIncrease(events: seq<MusicalEvent>) {
    forall i, j :: 0 <= i < j < |events| ==> events[i].tick < events[j].tick
  }

  /** Every note of the events is drawn from `scale`. */
  predicate NotesFrom(events: seq<MusicalEvent>, scale: seq<string>) {
    forall i :: 0 <= i < |events| && events[i].note.Some? ==> events[i].note.value in scale
  }

  /** Every event of a scan lies between the start clock and the final clock,
      and the events are in strictly increasing time order. */
  lemma {:induction false} EventsFromOrdered(fs: seq<LineFeatures>, scale: seq<string>, t: nat)
    requires |scale| > 0
    ensures TimesWithin(EventsFrom(fs, scale, t).events, t, EventsFrom(fs, scale, t).clock)
    ensures TicksIncrease(EventsFrom(fs, scale, t).events)
    decreases |fs|
  {
    if |fs| > 0 {
      if fs[0].skipped {
        assert EventsFrom(fs, scale, t) == EventsFrom(fs[1..], scale, t);
        EventsFromOrdered(fs[1..], scale, t);
      } else {
        var t' := t + Advance(fs[0]);
        EventsFromOrdered(fs[1..], scale, t');
        EventsFromLength(fs[1..], scale, t');
        var r, rest := EventsFrom(fs, scale, t), EventsFrom(fs[1..], scale, t');
        var e := EventOf(fs[0], scale, t);
        assert r == Scan([e] + rest.events, rest.clock);
        forall i | 0 <= i < |r.events|
          ensures t <= r.events[i].tick < r.clock
        {
          if i > 0 {
            assert r.events[i] == rest.events[i - 1];
          }
        }
        forall i, j | 0 <= i < j < |r.events|
          ensures r.events[i].tick < r.events[j].tick
        {
          assert r.events[j] == rest.events[j - 1];
          if i > 0 {
            assert r.events[i] == rest.events[i - 1];
          }
        }
      }
    }
  }

  /** Every note a scan emits comes from the scale. */
  lemma {:induction false} EventsFromInScale(fs: seq<LineFeatures>, scale: seq<string>, t: nat)
    requires |scale| > 0
    ensures NotesFrom(EventsFrom(fs, scale, t).events, scale)
    decreases |fs|
  {
    if |fs| > 0 {
      if fs[0].skipped {
        assert EventsFrom(fs, scale, t) == EventsFrom(fs[1..], scale, t);
        EventsFromInScale(fs[1..], scale, t);
      } else {
        var t' := t + Advance(fs[0]);
        EventsFromInScale(fs[1..], scale, t');
        var r, rest := EventsFrom(fs, scale, t), EventsFrom(fs[1..], scale, t');
        assert r == Scan([EventOf(fs[0], scale, t)] + rest.events, rest.clock);
        forall i | 0 <= i < |r.events| && r.events[i].note.Some?
          ensures r.events[i].note.value in scale
        {
          if i > 0 {
            assert r.events[i] == rest.events[i - 1];
          }
        }
      }
    }
  }

  /** The clock after a scan is the start clock plus the advances of the
      kept lines; skipped lines contribute nothing. */
  lemma {:induction false} EventsFromClock(fs: seq<LineFeatures>, scale: seq<string>, t: nat)
    requires |scale| > 0
    ensures EventsFrom(fs, scale, t).clock == t + AdvanceTotal(Kept(fs))
    decreases |fs|
  {
    if |fs| > 0 {
      if fs[0].skipped {
        EventsFromClock(fs[1..], scale, t);
      } else {
        EventsFromClock(fs[1..], scale, t + Advance(fs[0]));
      }
    }
  }

  /** The scan read line by line: event `k` is the event of the `k`-th kept
      line, placed at clock reading `u`, the start clock plus the advances of
      the kept lines before it. */
  lemma {:induction false} KeptLineEvent(fs: seq<LineFeatures>, scale: seq<string>, t: nat, k: nat, u: nat)
    requires |scale| > 0
    requires k < |Kept(fs)|
    requires u == t + AdvanceTotal(Kept(fs)[..k])
    ensures k < |EventsFrom(fs, scale, t).events|
    ensures EventsFrom(fs, scale, t).events[k] == EventOf(Kept(fs)[k], scale, u)
    decreases |fs|
  {
    if fs[0].skipped {
      KeptLineEvent(fs[1..], scale, t, k, u);
    } else if k > 0 {
      AdvanceTotalOfConsPrefix(fs[0], Kept(fs[1..]), k);
      KeptLineEvent(fs[1..], scale, t + Advance(fs[0]), k - 1, u);
    }
  }

  /** `KeptLineEvent` for every kept line of a scan from the start of the
      transport. */
  lemma EventsFromKeptLines(fs: seq<LineFeatures>, scale: seq<string>)
    requires |scale| > 0
    ensures |EventsFrom(fs, scale, 0).events| == |Kept(fs)|
    ensures forall k :: 0 <= k < |Kept(fs)| ==>
      EventsFrom(fs, scale, 0).events[k] == EventOf(Kept(fs)[k], scale, AdvanceTotal(Kept(fs)[..k]))
  {
    EventsFromLength(fs, scale, 0);
    forall k | 0 <= k < |Kept(fs)|
      ensures EventsFrom(fs, scale, 0).events[k] == EventOf(Kept(fs)[k], scale, AdvanceTotal(Kept(fs)[..k]))
    {
      KeptLineEvent(fs, scale, 0, k, AdvanceTotal(Kept(fs)[..k]));
    }
  }

  lemma AdvanceTotalOfConsPrefix(f: LineFeatures, xs: seq<LineFeatures>, k: nat)
    requires 0 < k <= |xs| + 1
    ensures AdvanceTotal(([f] + xs)[..k]) == Advance(f) + AdvanceTotal(xs[..k - 1])
  {
    assert ([f] + xs)[..k] == [f] + xs[..k - 1];
  }

  /** Scanning two runs of lines one after the other is the same as scanning
      their concatenation. */
  lemma {:induction false} EventsFromAppend(a: seq<LineFeatures>, b: seq<LineFeatures>, scale: seq<string>, t: nat)
    requires |scale| > 0
    ensures var ra := EventsFrom(a, scale, t);
      var rb := EventsFrom(b, scale, ra.clock);
      EventsFrom(a + b, scale, t) == Scan(ra.events + rb.events, rb.clock)
    decreases |a|
  {
    if |a| == 0 {
      assert a + b == b;
    } else {
      assert (a + b)[1..] == a[1..] + b;
      assert (a + b)[0] == a[0];
      if a[0].skipped {
        EventsFromAppend(a[1..], b, scale, t);
      } else {
        var t' := t + Advance(a[0]);
        EventsFromAppend(a[1..], b, scale, t');
        var e := EventOf(a[0], scale, t);
        var ra' := EventsFrom(a[1..], scale, t');
        var rb := EventsFrom(b, scale, ra'.clock);
        assert [e] + (ra'.events + rb.events) == ([e] + ra'.events) + rb.events;
      }
    }
  }

  /** A skipped line leaves no trace: removing it changes neither the events
      nor the clock. */
  lemma SkippedLeavesNoTrace(a: seq<LineFeatures>, f: LineFeatures, b: seq<LineFeatures>, scale: seq<string>, t: nat)
    requires |scale| > 0
    requires f.skipped
    ensures EventsFrom(a + [f] + b, scale, t) == EventsFrom(a + b, scale, t)
  {
    assert a + [f] + b == a + ([f] + b);
    EventsFromAppend(a, [f] + b, scale, t);
    SkipHead(f, b, scale, EventsFrom(a, scale, t).clock);
    EventsFromAppend(a, b, scale, t);
  }

  lemma SkipHead(f: LineFeatures, b: seq<LineFeatures>, scale: seq<string>, t: nat)
    requires |scale| > 0
    requires f.skipped
    ensures EventsFrom([f] + b, scale, t) == EventsFrom(b, scale, t)
  {
    assert ([f] + b)[1..] == b;
  }

  /** Ticks that increase give positions that increase in bar, quarter,
      sixteenth order. */
  lemma IncreasingTicksAreBefore(events: seq<MusicalEvent>)
    requires forall i, j :: 0 <= i < j < |events| ==> events[i].tick < events[j].tick
    ensures forall i, j :: 0 <= i < j < |events| ==> Before(events[i].TimeStamp(), events[j].TimeStamp())
  {
    forall i, j | 0 <= i < j < |events|
      ensures Before(events[i].TimeStamp(), events[j].TimeStamp())
    {
      TimeOfMonotone(events[i].tick, events[j].tick);
    }
  }

  // ------------------------------------------------------ the whole parse

  /** The features of each line, in order. */
  function FeaturesOf(lines: seq<string>): (fs: seq<LineFeatures>)
    ensures |fs| == |lines|
  {
    if |lines| == 0 then [] else [Features(lines[0])] + FeaturesOf(lines[1..])
  }

  /** The lines that produce events, in source order. */
  function KeptLines(lines: seq<string>): seq<string> {
    if |lines| == 0 then []
    else if IsSkipped(lines[0]) then KeptLines(lines[1..])
    else [lines[0]] + KeptLines(lines[1..])
  }

  /** `KeptLines` drops exactly the blank and comment lines: every other line
      is kept as often as it occurs. */
  lemma {:induction false} KeptLinesIsFilter(lines: seq<string>)
    ensures forall line ::
      multiset(KeptLines(lines))[line] == if IsSkipped(line) then 0 else multiset(lines)[line]
    decreases |lines|
  {
    if |lines| > 0 {
      KeptLinesIsFilter(lines[1..]);
      assert lines == [lines[0]] + lines[1..];
    }
  }

  /** `KeptLines` works line by line and keeps source order. */
  lemma {:induction false} KeptLinesAppend(a: seq<string>, b: seq<string>)
    ensures KeptLines(a + b) == KeptLines(a) + KeptLines(b)
    decreases |a|
  {
    if |a| == 0 {
      assert a + b == b;
    } else {
      assert (a + b)[1..] == a[1..] + b;
      KeptLinesAppend(a[1..], b);
    }
  }

  /** Filtering after feature extraction keeps the features of exactly the
      kept lines. */
  lemma {:induction false} KeptFeaturesOf(lines: seq<string>)
    ensures Kept(FeaturesOf(lines)) == FeaturesOf(KeptLines(lines))
    decreases |lines|
  {
    if |lines| > 0 {
      KeptFeaturesOf(lines[1..]);
      assert FeaturesOf(lines)[1..] == FeaturesOf(lines[1..]);
    }
  }

  /** Feature extraction works line by line: it commutes with concatenation. */
  lemma {:induction false} FeaturesOfAppend(a: seq<string>, b: seq<string>)
    ensures FeaturesOf(a + b) == FeaturesOf(a) + FeaturesOf(b)
    decreases |a|
  {
    if |a| == 0 {
      assert a + b == b;
    } else {
      assert (a + b)[1..] == a[1..] + b;
      FeaturesOfAppend(a[1..], b);
    }
  }

  /** Turns source code into a composition, drawing notes from the scale
      registered under `key`. The tempo is at least 90 (there is no negative
      loop count), there is one event per kept line, and event positions
      strictly increase. */
  function ParseCodeToMusic(code: string, key: ScaleKey): (c: ParsedComposition)
    ensures 80 <= c.bpm <= 180 && 90 <= c.bpm
    ensures |c.melodyEvents| == |KeptLines(Split(code, '\n'))|
    ensures forall i, j :: 0 <= i < j < |c.melodyEvents| ==>
      Before(c.melodyEvents[i].TimeStamp(), c.melodyEvents[j].TimeStamp())
    ensures forall i :: 0 <= i < |c.melodyEvents| && c.melodyEvents[i].note.Some? ==>
      c.melodyEvents[i].note.value in Notes(key)
  {
    var lines := Split(code, '\n');
    var fs := FeaturesOf(lines);
    var scan := EventsFrom(fs, Notes(key), 0);
    KeptFeaturesOf(lines);
    EventsFromLength(fs, Notes(key), 0);
    EventsFromOrdered(fs, Notes(key), 0);
    EventsFromInScale(fs, Notes(key), 0);
    IncreasingTicksAreBefore(scan.events);
    ParsedComposition(Bpm(LoopCount(code)), scan.events)
  }

  /** Event `k` of a parse is the event of the `k`-th kept line, placed
      after the advances of the kept lines before it. */
  lemma ParsedEventsFollowKeptLines(code: string, key: ScaleKey)
    ensures |ParseCodeToMusic(code, key).melodyEvents| == |Kept(FeaturesOf(Split(code, '\n')))|
    ensures var kept := Kept(FeaturesOf(Split(code, '\n')));
      forall k :: 0 <= k < |kept| ==>
        ParseCodeToMusic(code, key).melodyEvents[k]
          == EventOf(kept[k], Notes(key), AdvanceTotal(kept[..k]))
  {
    ParseIsScan(code, key);
    EventsFromKeptLines(FeaturesOf(Split(code, '\n')), Notes(key));
  }

  /** The tempo of a parse from the whole-word positions of the five loop
      keywords: 90 plus 15 per position, capped at 180. */
  lemma ParsedTempo(code: string, key: ScaleKey)
    ensures var hits := |Hits(code, "for")| + |Hits(code, "while")| + |Hits(code, "map")|
                      + |Hits(code, "forEach")| + |Hits(code, "reduce")|;
      ParseCodeToMusic(code, key).bpm == Min(90 + 15 * hits, 180)
  {
    LoopCountIsHits(code);
  }

  lemma ParseIsScan(code: string, key: ScaleKey)
    ensures ParseCodeToMusic(code, key).melodyEvents
      == EventsFrom(FeaturesOf(Split(code, '\n')), Notes(key), 0).events
  {
  }

  /** A blank or comment line can be removed from the source without
      changing the events. */
  lemma SkippedLineLeavesNoTrace(a: seq<string>, line: string, b: seq<string>, scale: seq<string>)
    requires |scale| > 0
    requires IsSkipped(line)
    ensures EventsFrom(FeaturesOf(a + [line] + b), scale, 0) == EventsFrom(FeaturesOf(a + b), scale, 0)
  {
    FeaturesOfSplice(a, line, b);
    FeaturesOfAppend(a, b);
    SkippedLeavesNoTrace(FeaturesOf(a), Features(line), FeaturesOf(b), scale, 0);
  }

  lemma FeaturesOfSplice(a: seq<string>, line: string, b: seq<string>)
    ensures FeaturesOf(a + [line] + b) == FeaturesOf(a) + [Features(line)] + FeaturesOf(b)
  {
    FeaturesOfAppend(a + [line], b);
    FeaturesOfAppend(a, [line]);
    assert FeaturesOf([line]) == [Features(line)];
  }

  /** Source text made only of blank and comment lines yields no events. */
  lemma SilentWhenAllSkipped(code: string, key: ScaleKey)
    requires forall k :: 0 <= k < |Split(code, '\n')| ==> IsSkipped(Split(code, '\n')[k])
    ensures ParseCodeToMusic(code, key).melodyEvents == []
  {
    NoKeptLines(Split(code, '\n'));
  }

  lemma {:induction false} NoKeptLines(lines: seq<string>)
    requires forall k :: 0 <= k < |lines| ==> IsSkipped(lines[k])
    ensures KeptLines(lines) == []
    decreases |lines|
  {
    if |lines| > 0 {
      NoKeptLines(lines[1..]);
    }
  }

  /** The parse written as the program runs it: a loop over the keywords
      that accumulates the loop count, then a loop over the lines that
      carries the clock along. */
  method ComposeMusic(code: string, key: ScaleKey) returns (c: ParsedComposition)
    ensures c == ParseCodeToMusic(code, key)
  {
    var loopCount := CountLoops(code);
    var fs := FeaturesOf(Split(code, '\n'));
    var scan := ScanLines(fs, Notes(key));
    ParseIsScan(code, key);
    c := ParsedComposition(Bpm(loopCount), scan.events);
  }

  /** The line loop: each kept line appends its event at the current clock
      and moves the clock on; skipped lines are passed over. */
  method ScanLines(fs: seq<LineFeatures>, scale: seq<string>) returns (r: Scan)
    requires |scale| > 0
    ensures r == EventsFrom(fs, scale, 0)
  {
    var events: seq<MusicalEvent> := [];
    var clock: nat := 0;
    for i := 0 to |fs|
      invariant EventsFrom(fs[..i], scale, 0) == Scan(events, clock)
    {
      ScanStep(fs, i, scale);
      var f := fs[i];
      if !f.skipped {
        events := events + [EventOf(f, scale, clock)];
        clock := clock + Advance(f);
      }
    }
    ScanAll(fs, scale);
    r := Scan(events, clock);
  }

  lemma ScanAll(fs: seq<LineFeatures>, scale: seq<string>)
    requires |scale| > 0
    ensures EventsFrom(fs[..|fs|], scale, 0) == EventsFrom(fs, scale, 0)
  {
    assert fs[..|fs|] == fs;
  }

  /** One more line extends the scan of the lines before it by that line's
      event, or by nothing when the line is skipped. */
  lemma ScanStep(fs: seq<LineFeatures>, i: nat, scale: seq<string>)
    requires |scale| > 0
    requires i < |fs|
    ensures var r := EventsFrom(fs[..i], scale, 0);
      EventsFrom(fs[..i + 1], scale, 0)
        == if fs[i].skipped then r
           else Scan(r.events + [EventOf(fs[i], scale, r.clock)], r.clock + Advance(fs[i]))
  {
    var f := fs[i];
    assert fs[..i + 1] == fs[..i] + [f];
    EventsFromAppend(fs[..i], [f], scale, 0);
    var r := EventsFrom(fs[..i], scale, 0);
    EventsFromSingle(f, scale, r.clock);
    if f.skipped {
      assert r.events + [] == r.events;
    }
  }

  lemma EventsFromSingle(f: LineFeatures, scale: seq<string>, t: nat)
    requires |scale| > 0
    ensures EventsFrom([f], scale, t)
      == if f.skipped then Scan([], t) else Scan([EventOf(f, scale, t)], t + Advance(f))
  {
    assert [f][1..] == [];
  }

  /** The loop count accumulated keyword by keyword. */
  method CountLoops(code: string) returns (n: nat)
    ensures n == LoopCount(code)
  {
    LoopKeywordsAreWords();
    n := 0;
    var k := 0;
    while k < |LoopKeywords|
      invariant 0 <= k <= |LoopKeywords|
      invariant n + KeywordTotal(code, LoopKeywords[k..]) == LoopCount(code)
    {
      assert LoopKeywords[k..][1..] == LoopKeywords[k + 1..];
      n := n + CountWholeWord(code, LoopKeywords[k]);
      k := k + 1;
    }
  }
}
