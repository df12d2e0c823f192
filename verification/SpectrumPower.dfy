/** From measured power to text: where the power of every column is either that of a lit trace or too
    little to hold the key, a text keyed in power is copied as that text. */
module SpectrumPower {
  import opened Morse
  import opened Keying
  import opened SpectrumRuns
  import opened SpectrumTiming
  import opened SpectrumScan
  import opened SpectrumDecoders

  // ---------------------------------------------------------------- loud and quiet

  function Floor(level: Level): real {
    if level.noise < -110.0 then -110.0 else level.noise
  }

  predicate Loud(level: Level) {
    Floor(level) + 16.0 <= level.power
  }

  predicate Quiet(level: Level) {
    level.power < Floor(level) + 12.5
  }

  /** Nothing between the two thresholds. */
  ghost predicate Clean(heard: seq<Level>) {
    forall i :: 0 <= i < |heard| ==> Loud(heard[i]) || Quiet(heard[i])
  }

  /** Then the key is down exactly where it is loud. */
  lemma CleanColumns(seen: seq<Column>, heard: seq<Level>, lifted: set<nat>, latchedOn: bool, i: nat)
    requires Hysteresis(seen, heard, lifted, latchedOn) && Clean(heard) && i < |seen|
    ensures |heard| == |seen| && (seen[i].on <==> Loud(heard[i]))
  {
    assert KeyAt(seen, heard, lifted, i);
    assert Loud(heard[i]) || Quiet(heard[i]);
  }

  /** A mark outlasts a dip that stays at least 12.5 dB above the floor: between a loud column and
      any later one without a quiet column or a lift of the key, all are on. */
  lemma {:induction false} DipsDoNotSplit(seen: seq<Column>, heard: seq<Level>, lifted: set<nat>, latchedOn: bool, i: nat, j: nat)
    requires Hysteresis(seen, heard, lifted, latchedOn) && i <= j < |seen| && |heard| == |seen|
    requires Loud(heard[i]) && forall k :: i <= k <= j ==> !Quiet(heard[k])
    requires forall k :: i < k <= j ==> k !in lifted
    ensures seen[j].on
  {
    assert KeyAt(seen, heard, lifted, j);
    if i < j {
      DipsDoNotSplit(seen, heard, lifted, latchedOn, i, j - 1);
    }
  }

  /** Nor does a space end before a loud column: from a quiet column on, all are off. */
  lemma {:induction false} RisesDoNotSplit(seen: seq<Column>, heard: seq<Level>, lifted: set<nat>, latchedOn: bool, i: nat, j: nat)
    requires Hysteresis(seen, heard, lifted, latchedOn) && i <= j < |seen| && |heard| == |seen|
    requires Quiet(heard[i]) && forall k :: i <= k <= j ==> !Loud(heard[k])
    ensures !seen[j].on
  {
    assert KeyAt(seen, heard, lifted, j);
    if i < j {
      RisesDoNotSplit(seen, heard, lifted, latchedOn, i, j - 1);
    }
  }

  // ---------------------------------------------------------------- keyed stretches

  /** Tone `i` fills the columns from edge `i` up to the next edge; nothing is on before the first. */
  ghost predicate Stretches(cols: seq<Column>, edges: seq<nat>, tones: seq<Tone>) {
    && |edges| == |tones| + 1 && edges[|tones|] < |cols|
    && (tones != [] ==> tones[0].on)
    && (forall k :: 0 <= k < edges[0] && k < |cols| ==> !cols[k].on)
    && (forall i :: 0 <= i < |tones| ==> StretchAt(cols, edges, tones, i))
  }

  ghost predicate StretchAt(cols: seq<Column>, edges: seq<nat>, tones: seq<Tone>, i: nat)
    requires i < |tones| && |edges| == |tones| + 1
  {
    && edges[i] < edges[i + 1] < |cols|
    && (forall k :: edges[i] <= k < edges[i + 1] ==> cols[k].on == tones[i].on)
    && cols[edges[i + 1]].on != tones[i].on
    && cols[edges[i + 1]].tSec - cols[edges[i]].tSec >= 0.015
  }

  function SecondsOf(cols: seq<Column>, edges: seq<nat>, i: nat): real {
    if i + 1 < |edges| && edges[i] < |cols| && edges[i + 1] < |cols| then cols[edges[i + 1]].tSec - cols[edges[i]].tSec else 0.0
  }

  /** The runs of the first `n` tones, as long as their columns last. */
  function RunsOf(cols: seq<Column>, edges: seq<nat>, tones: seq<Tone>, n: nat): (runs: seq<Run>)
    requires n <= |tones|
    ensures |runs| == n && forall i :: 0 <= i < n ==> runs[i] == Run(tones[i].on, SecondsOf(cols, edges, i))
  {
    seq(n, i requires 0 <= i < n => Run(tones[i].on, SecondsOf(cols, edges, i)))
  }

  lemma {:induction false} StretchStartIs(cols: seq<Column>, s: nat, i: nat)
    requires s <= i < |cols| && (forall k :: s <= k <= i ==> cols[k].on == cols[i].on)
    requires s == 0 || cols[s - 1].on != cols[i].on
    ensures StretchStart(cols, 0, i) == s
  {
    if s < i {
      StretchStartIs(cols, s, i - 1);
    }
  }

  lemma {:induction false} NothingYet(cols: seq<Column>, n: nat)
    requires n <= |cols| && forall k :: 0 <= k < n - 1 ==> !cols[k].on
    ensures BatchRuns(cols, 0, n) == []
  {
    hide StretchStart;
    if 1 < n {
      NothingYet(cols, n - 1);
    }
  }

  /** No edge, no run. */
  lemma {:induction false} NothingInside(cols: seq<Column>, from: nat, to: nat)
    requires from < to <= |cols| && forall k :: from <= k < to ==> cols[k].on == cols[from].on
    ensures BatchRuns(cols, 0, to) == BatchRuns(cols, 0, from + 1)
  {
    hide StretchStart, Heard;
    if from + 1 < to {
      NothingInside(cols, from, to - 1);
    }
  }

  /** The tone before an edge has the other state. */
  lemma EdgeBefore(cols: seq<Column>, edges: seq<nat>, tones: seq<Tone>, i: nat)
    requires Stretches(cols, edges, tones) && i < |tones|
    ensures |edges| == |tones| + 1 && StretchAt(cols, edges, tones, i)
    ensures cols[edges[i]].on == tones[i].on
    ensures edges[i] == 0 || cols[edges[i] - 1].on != tones[i].on
    ensures i == 0 ==> tones[i].on
    ensures 0 < i ==> StretchAt(cols, edges, tones, i - 1) && tones[i - 1].on != tones[i].on
  {
    assert StretchAt(cols, edges, tones, i);
    if 0 < i {
      assert StretchAt(cols, edges, tones, i - 1);
    }
  }

  lemma MarkHeardBy(cols: seq<Column>, edges: seq<nat>, tones: seq<Tone>, i: nat)
    requires Stretches(cols, edges, tones) && 0 < i < |tones| && tones[i - 1].on
    ensures edges[i + 1] <= |cols| && Heard(cols, 0, edges[i + 1])
  {
    EdgeBefore(cols, edges, tones, i);
    EdgeBefore(cols, edges, tones, i - 1);
    var m := edges[i];
    StretchStartIs(cols, edges[i - 1], m - 1);
    assert LongStretch(cols, 0, m) && cols[m - 1].on;
  }

  /** Column `j` ends the stretch of columns that began with column `s`, long enough to count. */
  ghost predicate Lasts(cols: seq<Column>, s: nat, j: nat)
    requires s < j < |cols|
  {
    && (forall k :: s <= k < j ==> cols[k].on == cols[s].on)
    && (s == 0 || cols[s - 1].on != cols[s].on) && cols[j].on != cols[s].on
    && cols[j].tSec - cols[s].tSec >= 0.015
  }

  lemma RunEnds(cols: seq<Column>, s: nat, j: nat)
    requires s < j < |cols| && Lasts(cols, s, j) && (cols[s].on || Heard(cols, 0, j))
    ensures BatchRuns(cols, 0, j + 1) == BatchRuns(cols, 0, s + 1) + [Run(cols[s].on, cols[j].tSec - cols[s].tSec)]
  {
    hide Heard, BatchRuns, StretchStart;
    NothingInside(cols, s, j);
    StretchStartIs(cols, s, j - 1);
    assert cols[j - 1].on == cols[s].on;
    BatchNext(cols, j);
  }

  lemma BatchNext(cols: seq<Column>, j: nat)
    requires 0 < j < |cols| && LongStretch(cols, 0, j) && (cols[j - 1].on || Heard(cols, 0, j))
    ensures BatchRuns(cols, 0, j + 1)
         == BatchRuns(cols, 0, j) + [Run(cols[j - 1].on, cols[j].tSec - cols[StretchStart(cols, 0, j - 1)].tSec)]
  {
    hide Heard, LongStretch, StretchStart;
  }

  /** A tone fills its columns, and no more. */
  lemma ToneColumns(cols: seq<Column>, edges: seq<nat>, tones: seq<Tone>, i: nat)
    requires Stretches(cols, edges, tones) && i < |tones|
    ensures |edges| == |tones| + 1 && edges[i] < edges[i + 1] < |cols|
    ensures Lasts(cols, edges[i], edges[i + 1]) && cols[edges[i]].on == tones[i].on
    ensures tones[i].on || Heard(cols, 0, edges[i + 1])
    ensures SecondsOf(cols, edges, i) == cols[edges[i + 1]].tSec - cols[edges[i]].tSec
  {
    hide Heard, Stretches;
    EdgeBefore(cols, edges, tones, i);
    if !tones[i].on {
      MarkHeardBy(cols, edges, tones, i);
    }
  }

  lemma ToneRun(cols: seq<Column>, edges: seq<nat>, tones: seq<Tone>, i: nat)
    requires Stretches(cols, edges, tones) && i < |tones|
    ensures |edges| == |tones| + 1 && edges[i] < edges[i + 1] < |cols|
    ensures BatchRuns(cols, 0, edges[i + 1] + 1)
         == BatchRuns(cols, 0, edges[i] + 1) + [Run(tones[i].on, SecondsOf(cols, edges, i))]
  {
    hide *;
    ToneColumns(cols, edges, tones, i);
    RunEnds(cols, edges[i], edges[i + 1]);
  }

  /** The run-length encoding of keyed columns is the tones, as long as they lasted. */
  lemma {:induction false} StretchesEncode(cols: seq<Column>, edges: seq<nat>, tones: seq<Tone>, n: nat)
    requires Stretches(cols, edges, tones) && n <= |tones|
    ensures edges[n] < |cols| && BatchRuns(cols, 0, edges[n] + 1) == RunsOf(cols, edges, tones, n)
  {
    hide BatchRuns, StretchAt;
    if n == 0 {
      assert edges[0] < |cols| by {
        if tones != [] { EdgeBefore(cols, edges, tones, 0); }
      }
      NothingYet(cols, edges[0] + 1);
    } else {
      StretchesEncode(cols, edges, tones, n - 1);
      ToneRun(cols, edges, tones, n - 1);
    }
  }

  // ---------------------------------------------------------------- keyed power

  /** The same, said of the power alone: each tone fills its columns, loud or not. */
  ghost predicate KeyedPower(heard: seq<Level>, seen: seq<Column>, edges: seq<nat>, tones: seq<Tone>) {
    && |heard| == |seen| && |edges| == |tones| + 1 && edges[|tones|] < |seen|
    && (tones != [] ==> tones[0].on)
    && (forall k :: 0 <= k < edges[0] && k < |heard| ==> !Loud(heard[k]))
    && (forall i :: 0 <= i < |tones| ==> PowerAt(heard, seen, edges, tones, i))
  }

  ghost predicate PowerAt(heard: seq<Level>, seen: seq<Column>, edges: seq<nat>, tones: seq<Tone>, i: nat)
    requires i < |tones| && |edges| == |tones| + 1 && |heard| == |seen|
  {
    && edges[i] < edges[i + 1] < |seen|
    && (forall k :: edges[i] <= k < edges[i + 1] ==> (Loud(heard[k]) <==> tones[i].on))
    && (Loud(heard[edges[i + 1]]) <==> !tones[i].on)
    && seen[edges[i + 1]].tSec - seen[edges[i]].tSec >= 0.015
  }

  lemma PowerStretches(seen: seq<Column>, heard: seq<Level>, lifted: set<nat>, latchedOn: bool, edges: seq<nat>, tones: seq<Tone>)
    requires Hysteresis(seen, heard, lifted, latchedOn) && Clean(heard) && KeyedPower(heard, seen, edges, tones)
    ensures Stretches(seen, edges, tones)
  {
    hide Hysteresis, Clean, Loud;
    forall k | 0 <= k < |seen| ensures seen[k].on <==> Loud(heard[k]) {
      CleanColumns(seen, heard, lifted, latchedOn, k);
    }
    forall i | 0 <= i < |tones| ensures StretchAt(seen, edges, tones, i) {
      assert PowerAt(heard, seen, edges, tones, i);
    }
  }

  /** From clean power, the scan's runs are the tones that were keyed in it. */
  lemma PowerEncodes(seen: seq<Column>, heard: seq<Level>, lifted: set<nat>, latchedOn: bool, edges: seq<nat>, tones: seq<Tone>)
    requires Hysteresis(seen, heard, lifted, latchedOn) && Clean(heard) && KeyedPower(heard, seen, edges, tones)
    ensures edges[|tones|] < |seen|
    ensures ScanTo(seen, 0, edges[|tones|] + 1).runs == RunsOf(seen, edges, tones, |tones|)
    ensures ScanTo(seen, 0, edges[|tones|] + 1).isOn == Loud(heard[edges[|tones|]])
  {
    hide Hysteresis, Clean, Loud, Stretches, Heard, BatchRuns;
    PowerStretches(seen, heard, lifted, latchedOn, edges, tones);
    StretchesEncode(seen, edges, tones, |tones|);
    ScanIsBatch(seen, 0, edges[|tones|] + 1);
    CleanColumns(seen, heard, lifted, latchedOn, edges[|tones|]);
  }

  lemma CharacterEnds(text: string, j: nat)
    requires j < |text| && SpacedAt(text, j)
    ensures text[j] == ' ' ==> CharTones(text, j) == []
    ensures text[j] != ' ' ==> CharTones(text, j) != [] && !CharTones(text, j)[|CharTones(text, j)| - 1].on
  {
    hide PatternOf, Character, Known, IsPattern;
    if text[j] != ' ' {
      var pat := PatternOf(text[j]);
      PatternShape(text[j]);
      CharacterAt(pat, GapAfter(text, j), |pat|, |pat| - 1);
    }
  }

  /** The last tone of a keyed text is a gap. */
  lemma {:induction false} EndsInGap(text: string, j: nat)
    requires WellSpaced(text) && j <= |text| && Keyed(text, j) != []
    ensures !Keyed(text, j)[|Keyed(text, j)| - 1].on
  {
    hide CharTones, SpacedAt, WellSpaced;
    Spaced(text, j - 1);
    CharacterEnds(text, j - 1);
    if text[j - 1] == ' ' {
      EndsInGap(text, j - 1);
    }
  }

  // ---------------------------------------------------------------- the decoder

  lemma KeptIs(scope: SpectrumDecoder)
    requires scope.Valid() && scope.epoch == 0
    ensures Hysteresis(scope.seen, scope.heard, scope.lifted, scope.latchedOn)
    ensures scope.Consumed() <= |scope.seen|
    ensures var now := ScanTo(scope.seen, 0, scope.Consumed());
            && now.runs == scope.gone + scope.done && now.isOn == scope.isOn && now.haveState == scope.haveState
            && now.sawMark == scope.sawMark && (now.haveState ==> now.start == scope.stateStart)
  {
    hide Hysteresis, ScanTo, Timeline, Window;
  }

  /** Sealed and waiting, a decoder that has consumed keyed power holds the tones that were keyed. */
  lemma PowerIsRuns(scope: SpectrumDecoder, edges: seq<nat>, tones: seq<Tone>)
    requires scope.Valid() && scope.epoch == 0 && Clean(scope.heard)
    requires KeyedPower(scope.heard, scope.seen, edges, tones) && scope.Consumed() == edges[|tones|] + 1
    ensures scope.gone + scope.done == RunsOf(scope.seen, edges, tones, |tones|)
    ensures scope.isOn == Loud(scope.heard[edges[|tones|]])
  {
    hide *;
    KeptIs(scope);
    EdgeCount(scope.heard, scope.seen, edges, tones);
    PowerEncodes(scope.seen, scope.heard, scope.lifted, scope.latchedOn, edges, tones);
  }

  lemma EdgeCount(heard: seq<Level>, seen: seq<Column>, edges: seq<nat>, tones: seq<Tone>)
    requires KeyedPower(heard, seen, edges, tones)
    ensures |heard| == |seen| && |edges| == |tones| + 1 && edges[|tones|] < |seen|
    ensures tones != [] && !tones[|tones| - 1].on ==> Loud(heard[edges[|tones|]])
  {
    hide Loud;
    if tones != [] {
      assert PowerAt(heard, seen, edges, tones, |tones| - 1);
    }
  }

  /** The text while nothing is sealed. */
  lemma ToldPlainly(scope: SpectrumDecoder, c: Copy, power: real, noise: real, binWidth: real)
    requires 1.0 < binWidth && scope.Fed(c, power, true, noise, binWidth)
    requires c.gone == 0 && c.sealedText == "" && |scope.gone + scope.done| <= 4000
    ensures scope.done == scope.gone + scope.done
    ensures var view := scope.View(CursorAfter(c, binWidth));
            var timing := Measure(scope.done, PeriodOf(binWidth));
            timing.ok && |DecodeRuns(view, timing)| <= 8000 ==> scope.text == DecodeRuns(view, timing)
  {
    hide Measure, DecodeRuns, PeriodOf, SpectrumDecoder.Paced, SpectrumDecoder.UpTo, LastCut, CursorAfter, SpectrumDecoder.View;
    var runs := scope.gone + scope.done;
    assert runs[0..] == runs;
    assert scope.RunsBehind(0) == runs;
    assert LeftNow(runs, scope.columnSec) == runs;
    assert SealedNow(runs, scope.columnSec) == "";
    var shown := DecodeRuns(scope.View(CursorAfter(c, binWidth)), Measure(runs, PeriodOf(binWidth)));
    assert "" + "" + shown == shown && shown[0..] == shown;
  }

  lemma ViewOf(scope: SpectrumDecoder, cursor: real)
    ensures scope.isOn ==> scope.View(cursor) == scope.done
    ensures !scope.isOn && scope.haveState && scope.sawMark && 0.015 <= cursor - scope.stateStart ==>
              scope.View(cursor) == scope.done + [Run(false, cursor - scope.stateStart)]
  {
  }

  /** A text keyed in clean power is what the decoder shows once the column behind its last gap has
      been consumed: wherever the keyed lengths fit the cuts that are measured in them, and as long as
      there is no need to seal runs or to cut the text. */
  lemma KeyedPowerIsCopied(scope: SpectrumDecoder, c: Copy, power: real, noise: real, binWidth: real,
                           edges: seq<nat>, text: string)
    requires 1.0 < binWidth && scope.Valid() && scope.Fed(c, power, true, noise, binWidth)
    requires WellSpaced(text) && scope.epoch == 0 && Clean(scope.heard)
    requires KeyedPower(scope.heard, scope.seen, edges, Keyed(text, |text|))
    requires scope.Consumed() == edges[|Keyed(text, |text|)|] + 1
    requires c.gone == 0 && c.sealedText == "" && |Keyed(text, |text|)| <= 4000 && |text| <= 8000
    requires var runs := RunsOf(scope.seen, edges, Keyed(text, |text|), |Keyed(text, |text|)|);
             var timing := Measure(runs, PeriodOf(binWidth));
             timing.ok && FitAt(runs, 0, Keyed(text, |text|), timing)
    ensures scope.text == text
  {
    hide *;
    var tones := Keyed(text, |text|);
    var runs := RunsOf(scope.seen, edges, tones, |tones|);
    PowerIsRuns(scope, edges, tones);
    EdgeCount(scope.heard, scope.seen, edges, tones);
    KeyedTextComesBack(runs, text, Measure(runs, PeriodOf(binWidth)));
    NoRunsNoTiming(PeriodOf(binWidth));
    if tones != [] {
      EndsInGap(text, |text|);
    }
    ViewOf(scope, CursorAfter(c, binWidth));
    ToldPlainly(scope, c, power, noise, binWidth);
  }

  // ---------------------------------------------------------------- the last gap, still open

  lemma {:induction false} QuietGoesOn(cols: seq<Column>, s: nat, to: nat)
    requires s < to <= |cols| && (forall k :: s <= k < to ==> cols[k].on == cols[s].on)
    requires s == 0 || cols[s - 1].on != cols[s].on
    ensures ScanTo(cols, 0, to).runs == ScanTo(cols, 0, s + 1).runs && ScanTo(cols, 0, to).haveState
    ensures ScanTo(cols, 0, to).isOn == cols[s].on && ScanTo(cols, 0, to).start == cols[s].tSec
    ensures ScanTo(cols, 0, to).sawMark == ScanTo(cols, 0, s + 1).sawMark
  {
    if s + 1 < to {
      QuietGoesOn(cols, s, to - 1);
    } else {
      hide Heard, BatchRuns;
      ScanIsBatch(cols, 0, s + 1);
      StretchStartIs(cols, s, s);
    }
  }

  /** Behind a mark, the columns consumed so far are quiet. */
  ghost predicate OpenGap(heard: seq<Level>, from: nat, to: nat) {
    from < to <= |heard| && forall k :: from <= k < to ==> !Loud(heard[k])
  }

  lemma GapIsOpen(scope: SpectrumDecoder, edges: seq<nat>, tones: seq<Tone>)
    requires scope.Valid() && scope.epoch == 0 && Clean(scope.heard)
    requires tones != [] && tones[|tones| - 1].on && KeyedPower(scope.heard, scope.seen, edges, tones)
    requires OpenGap(scope.heard, edges[|tones|], scope.Consumed())
    ensures scope.gone + scope.done == RunsOf(scope.seen, edges, tones, |tones|)
    ensures !scope.isOn && scope.haveState && scope.sawMark && edges[|tones|] < |scope.seen|
    ensures scope.stateStart == scope.seen[edges[|tones|]].tSec
  {
    hide *;
    KeptIs(scope);
    EdgeCount(scope.heard, scope.seen, edges, tones);
    PowerEncodes(scope.seen, scope.heard, scope.lifted, scope.latchedOn, edges, tones);
    PowerStretches(scope.seen, scope.heard, scope.lifted, scope.latchedOn, edges, tones);
    GapColumns(scope.seen, scope.heard, scope.lifted, scope.latchedOn, edges[|tones|], scope.Consumed());
    LastMarkSaw(scope.seen, edges, tones);
    QuietGoesOn(scope.seen, edges[|tones|], scope.Consumed());
  }

  lemma GapColumns(seen: seq<Column>, heard: seq<Level>, lifted: set<nat>, latchedOn: bool, from: nat, to: nat)
    requires Hysteresis(seen, heard, lifted, latchedOn) && Clean(heard) && OpenGap(heard, from, to)
    ensures from < to <= |seen| && forall k :: from <= k < to ==> !seen[k].on
  {
    hide Clean, Loud;
    assert |heard| == |seen|;
    hide Hysteresis;
    forall k | from <= k < to ensures !seen[k].on {
      CleanColumns(seen, heard, lifted, latchedOn, k);
    }
  }

  /** Behind the last mark its column is off, and a mark has been heard. */
  lemma LastMarkSaw(cols: seq<Column>, edges: seq<nat>, tones: seq<Tone>)
    requires Stretches(cols, edges, tones) && tones != [] && tones[|tones| - 1].on
    ensures |edges| == |tones| + 1 && 0 < edges[|tones|] < |cols|
    ensures cols[edges[|tones|] - 1].on && !cols[edges[|tones|]].on
    ensures ScanTo(cols, 0, edges[|tones|] + 1).sawMark
  {
    hide Stretches, BatchRuns;
    var i: nat := |tones| - 1;
    EdgeBefore(cols, edges, tones, i);
    var m := edges[i + 1];
    StretchStartIs(cols, edges[i], m - 1);
    assert LongStretch(cols, 0, m) && cols[m - 1].on;
    ScanIsBatch(cols, 0, m + 1);
  }

  lemma OneRunMore(runs: seq<Run>, gap: real, marks: seq<Tone>, last: Tone, timing: Timing)
    requires |runs| == |marks| && FitAt(runs, 0, marks, timing) && Fits(Run(false, gap), last, timing)
    ensures FitAt(runs + [Run(false, gap)], 0, marks + [last], timing)
  {
    hide Fits;
    var all, tones := runs + [Run(false, gap)], marks + [last];
    forall i | 0 <= i < |tones| ensures Fits(all[0 + i], tones[i], timing) {
      assert i < |runs| ==> Fits(runs[0 + i], marks[i], timing);
    }
  }

  /** Where the last gap begins. */
  function LastEdge(edges: seq<nat>): nat {
    if edges == [] then 0 else edges[|edges| - 1]
  }

  function TimeAt(cols: seq<Column>, k: nat): real {
    if k < |cols| then cols[k].tSec else 0.0
  }

  lemma LastEdgeIs(cols: seq<Column>, edges: seq<nat>, n: nat)
    requires |edges| == n + 1 && edges[n] < |cols|
    ensures LastEdge(edges) == edges[n] && TimeAt(cols, LastEdge(edges)) == cols[edges[n]].tSec
  {
  }

  /** A text is not held up by its last gap: it is shown as soon as the silence behind its last mark is
      long enough for that gap. */
  lemma KeyedPowerIsShown(scope: SpectrumDecoder, c: Copy, power: real, noise: real, binWidth: real,
                          edges: seq<nat>, text: string, marks: seq<Tone>, last: Tone)
    requires 1.0 < binWidth && scope.Valid() && scope.Fed(c, power, true, noise, binWidth)
    requires WellSpaced(text) && Keyed(text, |text|) == marks + [last] && scope.epoch == 0 && Clean(scope.heard)
    requires marks != [] && marks[|marks| - 1].on && |marks| <= 4000 && KeyedPower(scope.heard, scope.seen, edges, marks)
    requires OpenGap(scope.heard, LastEdge(edges), scope.Consumed())
    requires var runs := RunsOf(scope.seen, edges, marks, |marks|);
             var timing := Measure(runs, PeriodOf(binWidth));
             var gap := CursorAfter(c, binWidth) - TimeAt(scope.seen, LastEdge(edges));
             timing.ok && FitAt(runs, 0, marks, timing) && Fits(Run(false, gap), last, timing) && 0.015 <= gap
    requires c.gone == 0 && c.sealedText == "" && |text| <= 8000
    ensures scope.text == text
  {
    hide *;
    var runs := RunsOf(scope.seen, edges, marks, |marks|);
    var timing := Measure(runs, PeriodOf(binWidth));
    var gap := CursorAfter(c, binWidth) - TimeAt(scope.seen, LastEdge(edges));
    EdgeCount(scope.heard, scope.seen, edges, marks);
    LastEdgeIs(scope.seen, edges, |marks|);
    GapIsOpen(scope, edges, marks);
    OneRunMore(runs, gap, marks, last, timing);
    KeyedTextComesBack(runs + [Run(false, gap)], text, timing);
    ViewOf(scope, CursorAfter(c, binWidth));
    ToldPlainly(scope, c, power, noise, binWidth);
  }

  // ---------------------------------------------------------------- the lag

  /** Six dahs: 18 dits of the speed before, at least 40 ms each, or 4.32 s before the speed is known. */
  function SixDahs(c: Copy): real {
    if !c.calibrated then 4.32 else if c.unit < 0.04 then 0.72 else 18.0 * c.unit
  }

  /** A column is read exactly when six dahs of newer spectrum have been drawn. */
  lemma SixDahsBehind(scope: SpectrumDecoder, c: Copy, power: real, noise: real, binWidth: real, i: nat)
    requires 1.0 < binWidth && scope.Fed(c, power, true, noise, binWidth) && c.consumed <= i < |scope.seen|
    ensures i < scope.Consumed() <==> scope.seen[i].tSec + SixDahs(c) <= scope.nowSec
  {
    hide Measure, DecodeRuns, PeriodOf, TimeAfter, SpectrumDecoder.Told, SpectrumDecoder.Paced;
  }

  // ---------------------------------------------------------------- the speed

  /** The first measurement sets the speed; every further one brings it nearer to the measured dit by
      fifteen hundredths of the distance. */
  lemma PaceSays(scope: SpectrumDecoder, calibratedBefore: bool, unitBefore: real)
    requires scope.Paced(calibratedBefore, unitBefore)
    ensures var timing := Measure(scope.done, scope.columnSec);
            && (timing.ok && !calibratedBefore ==> scope.unit == timing.dit)
            && (timing.ok && calibratedBefore ==> scope.unit - timing.dit == 0.85 * (unitBefore - timing.dit))
            && (timing.ok ==> scope.calibrated) && (!timing.ok ==> scope.unit == unitBefore && scope.calibrated == calibratedBefore)
  {
    hide Measure;
  }

  lemma NoRunsNoTiming(columnSec: real)
    ensures !Measure([], columnSec).ok
  {
  }
}
