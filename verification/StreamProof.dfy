/** Incremental commits equal one batch decode. */
module StreamProof {
  import opened Options
  import opened Integers
  import opened CtcGreedy
  import opened Stitching

  // ---------------------------------------------------------------- a chunk against the whole timeline

  lemma {:induction false} AfterShift(al: Alphabet, labels: seq<int>, c: nat, j: nat)
    requires c + j <= |labels|
    ensures After(al, After(al, START, labels, c), labels[c..], j) == After(al, START, labels, c + j)
  {
    if j > 0 {
      AfterShift(al, labels, c, j - 1);
      assert labels[c..][j - 1] == labels[c + j - 1];
    }
  }

  lemma {:induction false} RunEndShift(labels: seq<int>, c: nat, j: nat)
    requires c + j < |labels|
    ensures RunEnd(labels[c..], j) + c == RunEnd(labels, c + j)
    decreases |labels| - j
  {
    var chunk := labels[c..];
    assert chunk[j] == labels[c + j];
    if c + j + 1 < |labels| {
      assert chunk[j + 1] == labels[c + j + 1];
      if chunk[j + 1] == chunk[j] { RunEndShift(labels, c, j + 1); }
    }
  }

  lemma GroupShift(al: Alphabet, labels: seq<int>, c: nat, j: nat)
    requires al.Usable() && al.Labels(labels) && c + j < |labels|
    ensures var carry, chunk := After(al, START, labels, c), labels[c..];
            Shift(GroupSpans(al, carry, chunk, j), c) == GroupSpans(al, START, labels, c + j)
  {
    hide After;
    var carry, chunk := After(al, START, labels, c), labels[c..];
    var end := RunEnd(chunk, j);
    RunEndShift(labels, c, j);
    AfterShift(al, labels, c, end);
    assert chunk[j] == labels[c + j];
    assert end < |chunk| ==> chunk[end] == labels[c + end];
  }

  lemma ChunkLabels(al: Alphabet, labels: seq<int>, c: nat)
    requires al.Labels(labels) && c <= |labels|
    ensures al.Labels(labels[c..])
  {
  }

  lemma SpansStep(al: Alphabet, carry: Carry, labels: seq<int>, i: nat)
    requires al.Usable() && al.Labels(labels) && i <= |labels|
    ensures SpansFrom(al, carry, labels, i)
         == if i == |labels| then [] else GroupSpans(al, carry, labels, i) + SpansFrom(al, carry, labels, RunEnd(labels, i))
  {
    hide GroupSpans, RunEnd;
  }

  lemma {:induction false} SpansShift(al: Alphabet, labels: seq<int>, c: nat, j: nat)
    requires al.Usable() && al.Labels(labels) && c + j <= |labels|
    ensures Shift(SpansFrom(al, After(al, START, labels, c), labels[c..], j), c) == SpansFrom(al, START, labels, c + j)
    decreases |labels| - j
  {
    hide GroupSpans, After, SpansFrom, RunEnd, Alphabet.Usable, Alphabet.Labels;
    var carry, chunk := After(al, START, labels, c), labels[c..];
    ChunkLabels(al, labels, c);
    SpansStep(al, carry, chunk, j);
    SpansStep(al, START, labels, c + j);
    if c + j < |labels| {
      var end := RunEnd(chunk, j);
      RunEndShift(labels, c, j);
      GroupShift(al, labels, c, j);
      SpansShift(al, labels, c, end);
      ShiftConcat(GroupSpans(al, carry, chunk, j), SpansFrom(al, carry, chunk, end), c);
    }
  }

  lemma ShiftConcat(a: seq<Span>, b: seq<Span>, c: int)
    ensures Shift(a + b, c) == Shift(a, c) + Shift(b, c)
  {
  }

  // ---------------------------------------------------------------- the invariant of a stream

  /** Committing may resume at `e.committed`, whatever happens to the frames that are not frozen. */
  ghost predicate Ready(al: Alphabet, labels: seq<int>, e: Edge)
    requires Takes(al, labels, e)
  {
    e.committed == 0
    || (&& e.committed < e.frozen
        && (al.IsChar(labels[e.committed]) ==>
              al.IsChar(labels[e.committed - 1]) && labels[e.committed - 1] != labels[e.committed]))
  }

  /** The transcript and the carried state are exactly the reading of the committed frames. */
  ghost predicate Committed(al: Alphabet, labels: seq<int>, e: Edge, transcript: string) {
    && Takes(al, labels, e)
    && e.carry == After(al, START, labels, e.committed)
    && transcript == TextTo(al, labels, e.committed)
    && (e.hasText <==> transcript != "")
  }

  ghost predicate Streams(al: Alphabet, labels: seq<int>, e: Edge, transcript: string) {
    Committed(al, labels, e, transcript) && Ready(al, labels, e)
  }

  lemma StreamsPrefix(al: Alphabet, before: seq<int>, after: seq<int>, e: Edge, f: Edge, transcript: string)
    requires Streams(al, before, e, transcript) && al.Labels(after)
    requires f == e.(frozen := f.frozen) && e.frozen <= f.frozen <= |after|
    requires forall i :: 0 <= i < e.frozen ==> before[i] == after[i]
    ensures Streams(al, after, f, transcript)
  {
    hide TextTo, After;
    AfterPrefix(al, START, before, after, e.committed);
    TextPrefix(al, before, after, e.committed);
  }

  lemma ReadyInStep(al: Alphabet, labels: seq<int>, e: Edge, transcript: string)
    requires Streams(al, labels, e, transcript)
    ensures InStep(al, labels, e.committed, transcript, LaneText("", !e.hasText || e.carry.kind == Space), false)
  {
    hide TextTo;
  }

  lemma SeenFromStart(al: Alphabet, labels: seq<int>, e: Edge)
    requires Takes(al, labels, e) && e.carry == After(al, START, labels, e.committed)
    ensures Seen(al, labels, e) == SpansFrom(al, START, labels, e.committed)
  {
    hide After, SpansFrom;
    SpansShift(al, labels, e.committed, 0);
  }

  /** The first half of a call commits what the reading without lookahead has read. */
  lemma CommitStreams(al: Alphabet, labels: seq<int>, e: Edge, transcript: string, spans: seq<Span>, k: nat)
    requires Streams(al, labels, e, transcript) && spans == Seen(al, labels, e)
    requires 0 < k <= |spans| && spans[k - 1].character != ' '
    ensures var f := Commit(spans, e, k);
            var lane := Lane(spans[..k], !e.hasText || e.carry.kind == Space);
            && e.committed < f.committed <= |labels|
            && lane.text != ""
            && (f.committed <= f.frozen ==> Committed(al, labels, f, Append(transcript, lane)))
            && al.IsChar(labels[f.committed - 1]) && Clean(al, labels, f.committed)
            && spans[k..] == SpansFrom(al, START, labels, f.committed)
  {
    hide InStep, TextTo, Append, LaneFrom, Ready, Seen, SpansFrom;
    var lane := LaneText("", !e.hasText || e.carry.kind == Space);
    SeenFromStart(al, labels, e);
    ReadyInStep(al, labels, e, transcript);
    CommitReads(al, labels, e.committed, transcript, lane, false, k);
    AppendNonEmpty(transcript, LaneFrom(lane, false, spans[..k]));
  }

  lemma AppendNonEmpty(transcript: string, lane: LaneText)
    requires lane.text != ""
    ensures Append(transcript, lane) != ""
  {
  }

  // ---------------------------------------------------------------- passing frames without characters

  lemma {:induction false} ReleaseReads(al: Alphabet, labels: seq<int>, start: nat, end: nat)
    requires al.Usable() && al.Labels(labels) && start <= end <= |labels|
    requires forall k :: start <= k < end ==> !al.IsChar(labels[k])
    ensures Release(al, labels, After(al, START, labels, start), start, end) == After(al, START, labels, end)
  {
    if start < end { ReleaseReads(al, labels, start, end - 1); }
  }

  /** The second half keeps the reading, and leaves the stream ready if it stood behind a
      committed character or was ready before. */
  lemma AdvanceStreams(al: Alphabet, labels: seq<int>, e: Edge, transcript: string, end: int)
    requires Committed(al, labels, e, transcript) && end <= e.frozen
    requires forall k :: e.committed <= k < end ==> !al.IsChar(labels[k])
    ensures Committed(al, labels, Advance(al, labels, e, end), transcript)
  {
    if e.committed < end {
      hide TextTo, After, Release;
      ReleaseReads(al, labels, e.committed, end);
      QuietText(al, labels, e.committed, end);
    }
  }

  lemma AdvanceReady(al: Alphabet, labels: seq<int>, e: Edge, end: int)
    requires Takes(al, labels, e)
    requires Ready(al, labels, e)
             || (0 < e.committed < e.frozen && al.IsChar(labels[e.committed - 1]) && Clean(al, labels, e.committed))
    requires end < e.frozen && (e.committed <= end ==> !al.IsChar(labels[end]))
    ensures Takes(al, labels, Advance(al, labels, e, end)) && Ready(al, labels, Advance(al, labels, e, end))
  {
    hide Release;
  }

  lemma QuietTail(al: Alphabet, labels: seq<int>, spans: seq<Span>, k: nat, i: nat)
    requires al.Usable() && al.Labels(labels) && i <= |labels| && k <= |spans|
    requires spans[k..] == SpansFrom(al, START, labels, i)
    ensures var next := FirstChar(spans, k);
            var stop := if next < |spans| then spans[next].startFrame else |labels|;
            i <= stop <= |labels| && (forall m :: i <= m < stop ==> !al.IsChar(labels[m]))
  {
    hide SpansFrom;
    var next := FirstChar(spans, k);
    assert forall m :: 0 <= m < |spans| - k ==> spans[k..][m] == spans[k + m];
    QuietBefore(al, START, labels, i, next - k);
  }

  // ---------------------------------------------------------------- one call

  /** The state after the first half of any call. */
  lemma HalfStreams(al: Alphabet, labels: seq<int>, e: Edge, transcript: string, isFinal: bool, spans: seq<Span>, k: nat)
    requires Streams(al, labels, e, transcript) && spans == Seen(al, labels, e)
    requires k == TakeCount(spans, e, isFinal) && (isFinal ==> e.frozen == |labels|)
    ensures var f := Commit(spans, e, k);
            && Committed(al, labels, f, AppendTaken(transcript, TakenSpans(spans, e, isFinal)))
            && spans[k..] == SpansFrom(al, START, labels, f.committed)
            && (if k == 0 then f == e
                else && 0 < f.committed && (!isFinal ==> f.committed < f.frozen)
                     && al.IsChar(labels[f.committed - 1]) && Clean(al, labels, f.committed))
  {
    hide Seen, SpansFrom, Ready, LaneFrom, TakeCount, Append, Clean, Takes, TextTo, After;
    if k > 0 {
      CommitStreams(al, labels, e, transcript, spans, k);
    } else {
      SeenFromStart(al, labels, e);
      assert spans[0..] == spans;
    }
  }

  /** A call of `take_text` that is not final keeps the stream invariant. */
  lemma TakeTextStreams(al: Alphabet, labels: seq<int>, e: Edge, transcript: string)
    requires Streams(al, labels, e, transcript)
    ensures Streams(al, labels, TakeText(al, labels, e, false),
                    AppendTaken(transcript, TakenLane(al, labels, e, false)))
  {
    if e.committed < |labels| {
      hide Seen, SpansFrom, Ready, TakenSpans, TakeCount, Clean, TextTo, After, Release, AppendTaken, Advance, ReleaseEnd;
      var spans := Seen(al, labels, e);
      var k := TakeCount(spans, e, false);
      var f, end := Commit(spans, e, k), ReleaseEnd(spans, e.frozen, k);
      HalfStreams(al, labels, e, transcript, false, spans, k);
      QuietTail(al, labels, spans, k, f.committed);
      AdvanceStreams(al, labels, f, AppendTaken(transcript, TakenSpans(spans, e, false)), end);
      AdvanceReady(al, labels, f, end);
    }
  }

  /** The final call leaves exactly the batch decode of the whole timeline. */
  lemma TakeTextFinal(al: Alphabet, labels: seq<int>, e: Edge, transcript: string)
    requires Streams(al, labels, e, transcript) && e.frozen == |labels| < FINAL_LIMIT
    ensures AppendTaken(transcript, TakenLane(al, labels, e, true)) == BatchText(al, labels)
  {
    hide Seen, SpansFrom, Ready, TakenSpans, TakeCount, Clean, TextTo, After, AppendTaken, BatchText;
    BatchReads(al, labels);
    if e.committed < |labels| {
      var spans := Seen(al, labels, e);
      var k := TakeCount(spans, e, true);
      var f := Commit(spans, e, k);
      HalfStreams(al, labels, e, transcript, true, spans, k);
      QuietTail(al, labels, spans, k, f.committed);
      QuietText(al, labels, f.committed, |labels|);
    }
    assert AppendTaken(transcript, None) == transcript by { NothingTaken(transcript); }
  }

  lemma NothingTaken(transcript: string)
    ensures AppendTaken(transcript, None) == transcript
  {
  }

  // ---------------------------------------------------------------- whole runs

  datatype Window = Window(start: nat, logProbs: seq<seq<real>>)

  /** A stitcher together with the text its pieces have built up. */
  datatype Lanes = Lanes(stitch: Stitch, transcript: string)

  ghost predicate LanesOk(cfg: Settings, lanes: Lanes) {
    cfg.Usable() && Rows(lanes.stitch.rows, cfg.al.classes)
    && Takes(cfg.al, LabelsOf(cfg.al, lanes.stitch.rows), lanes.stitch.edge)
  }

  ghost predicate LanesStream(cfg: Settings, lanes: Lanes) {
    LanesOk(cfg, lanes)
    && Streams(cfg.al, LabelsOf(cfg.al, lanes.stitch.rows), lanes.stitch.edge, lanes.transcript)
  }

  /** One window through `add_window`, `take_text` and the engine's transcript. */
  ghost function RunWindow(cfg: Settings, lanes: Lanes, window: Window, isFinal: bool): Lanes
    requires LanesOk(cfg, lanes) && Matrix(window.logProbs, cfg.al.classes)
  {
    var s := AddWindow(cfg, lanes.stitch, window.start, window.logProbs, isFinal);
    var labels := LabelsOf(cfg.al, s.rows);
    Lanes(Stitch(s.rows, TakeText(cfg.al, labels, s.edge, isFinal)),
          AppendTaken(lanes.transcript, TakenLane(cfg.al, labels, s.edge, isFinal)))
  }

  ghost predicate Windows(cfg: Settings, windows: seq<Window>) {
    forall i :: 0 <= i < |windows| ==> Matrix(windows[i].logProbs, cfg.al.classes)
  }

  lemma AddWindowStreams(cfg: Settings, lanes: Lanes, window: Window, isFinal: bool)
    requires LanesStream(cfg, lanes) && Matrix(window.logProbs, cfg.al.classes)
    ensures LanesStream(cfg, Lanes(AddWindow(cfg, lanes.stitch, window.start, window.logProbs, isFinal), lanes.transcript))
  {
    hide AddWindow, Streams, LabelOf;
    var s := AddWindow(cfg, lanes.stitch, window.start, window.logProbs, isFinal);
    var before, after := LabelsOf(cfg.al, lanes.stitch.rows), LabelsOf(cfg.al, s.rows);
    assert forall i :: 0 <= i < lanes.stitch.edge.frozen ==> before[i] == after[i];
    StreamsPrefix(cfg.al, before, after, lanes.stitch.edge, s.edge, lanes.transcript);
  }

  lemma RunWindowStreams(cfg: Settings, lanes: Lanes, window: Window)
    requires LanesStream(cfg, lanes) && Matrix(window.logProbs, cfg.al.classes)
    ensures LanesStream(cfg, RunWindow(cfg, lanes, window, false))
  {
    AddWindowStreams(cfg, lanes, window, false);
    var s := AddWindow(cfg, lanes.stitch, window.start, window.logProbs, false);
    TakeTextStreams(cfg.al, LabelsOf(cfg.al, s.rows), s.edge, lanes.transcript);
    hide AddWindow, TakeText, TakenLane, AppendTaken, LabelOf, Committed, Ready;
  }

  lemma StartStreams(cfg: Settings)
    requires cfg.Usable()
    ensures LanesStream(cfg, Lanes(EMPTY, ""))
  {
  }

  /** The state after windows none of which is final. */
  ghost function RunAll(cfg: Settings, windows: seq<Window>): (lanes: Lanes)
    requires cfg.Usable() && Windows(cfg, windows)
    ensures LanesStream(cfg, lanes)
  {
    if windows == [] then StartStreams(cfg); Lanes(EMPTY, "")
    else
      var before := RunAll(cfg, windows[..|windows| - 1]);
      RunWindowStreams(cfg, before, windows[|windows| - 1]);
      RunWindow(cfg, before, windows[|windows| - 1], false)
  }

  /** What a later state has kept of an earlier one: the frozen frames, the committed text. */
  ghost predicate Extends(before: Lanes, after: Lanes) {
    && before.stitch.edge.frozen <= after.stitch.edge.frozen
    && before.stitch.edge.committed <= after.stitch.edge.committed
    && |before.stitch.rows| <= |after.stitch.rows|
    && (forall i :: 0 <= i < before.stitch.edge.frozen && i < |before.stitch.rows| ==> after.stitch.rows[i] == before.stitch.rows[i])
    && before.transcript <= after.transcript
  }

  lemma TakeTextMovesOn(al: Alphabet, labels: seq<int>, e: Edge, isFinal: bool)
    requires Takes(al, labels, e)
    ensures TakeText(al, labels, e, isFinal).frozen == e.frozen
    ensures e.committed <= TakeText(al, labels, e, isFinal).committed
  {
    hide CommitCount, SpansFrom, Release, FirstChar;
  }

  lemma AppendExtends(transcript: string, taken: Option<LaneText>)
    ensures transcript <= AppendTaken(transcript, taken)
  {
  }

  lemma WindowExtends(cfg: Settings, lanes: Lanes, window: Window, isFinal: bool)
    requires LanesStream(cfg, lanes) && Matrix(window.logProbs, cfg.al.classes)
    ensures Extends(lanes, RunWindow(cfg, lanes, window, isFinal))
  {
    hide AddWindow, TakeText, TakenLane, AppendTaken, LabelOf, Committed, Ready;
    AddWindowStreams(cfg, lanes, window, isFinal);
    var s := AddWindow(cfg, lanes.stitch, window.start, window.logProbs, isFinal);
    var labels := LabelsOf(cfg.al, s.rows);
    TakeTextMovesOn(cfg.al, labels, s.edge, isFinal);
    AppendExtends(lanes.transcript, TakenLane(cfg.al, labels, s.edge, isFinal));
  }

  /** Over any run, frames once frozen never change again, and text once committed stays. */
  lemma {:induction false} FrozenForGood(cfg: Settings, windows: seq<Window>, n: nat)
    requires cfg.Usable() && Windows(cfg, windows) && n <= |windows|
    ensures Extends(RunAll(cfg, windows[..n]), RunAll(cfg, windows))
  {
    hide RunWindow, LanesStream;
    if n < |windows| {
      var init := windows[..|windows| - 1];
      FrozenForGood(cfg, init, n);
      assert init[..n] == windows[..n];
      assert LanesStream(cfg, RunAll(cfg, init));
      WindowExtends(cfg, RunAll(cfg, init), windows[|windows| - 1], false);
      ExtendsTransitive(RunAll(cfg, windows[..n]), RunAll(cfg, init), RunAll(cfg, windows));
    } else {
      assert windows[..n] == windows;
    }
  }

  /** The final window keeps them as well. */
  lemma FrozenToTheEnd(cfg: Settings, windows: seq<Window>, n: nat, last: Window)
    requires cfg.Usable() && Windows(cfg, windows) && n <= |windows| && Matrix(last.logProbs, cfg.al.classes)
    ensures Extends(RunAll(cfg, windows[..n]), RunWindow(cfg, RunAll(cfg, windows), last, true))
  {
    hide RunWindow;
    FrozenForGood(cfg, windows, n);
    WindowExtends(cfg, RunAll(cfg, windows), last, true);
    ExtendsTransitive(RunAll(cfg, windows[..n]), RunAll(cfg, windows), RunWindow(cfg, RunAll(cfg, windows), last, true));
  }

  lemma ExtendsTransitive(a: Lanes, b: Lanes, c: Lanes)
    requires Extends(a, b) && Extends(b, c)
    ensures Extends(a, c)
  {
  }

  lemma FinalWindow(cfg: Settings, lanes: Lanes, window: Window)
    requires LanesStream(cfg, lanes) && Matrix(window.logProbs, cfg.al.classes)
    requires |lanes.stitch.rows| < FINAL_LIMIT && window.start + |window.logProbs| < FINAL_LIMIT
    ensures var after := RunWindow(cfg, lanes, window, true);
            Rows(after.stitch.rows, cfg.al.classes)
            && after.transcript == BatchText(cfg.al, LabelsOf(cfg.al, after.stitch.rows))
  {
    AddWindowStreams(cfg, lanes, window, true);
    var s := AddWindow(cfg, lanes.stitch, window.start, window.logProbs, true);
    assert s.edge.frozen == |s.rows| < FINAL_LIMIT;
    TakeTextFinal(cfg.al, LabelsOf(cfg.al, s.rows), s.edge, lanes.transcript);
  }

  /** Stream equals batch: whatever windows arrive, with whatever overlaps, gaps and empty
      results, the transcript after the final one is one greedy decode of the final scores. */
  lemma StreamEqualsBatch(cfg: Settings, windows: seq<Window>, last: Window)
    requires cfg.Usable() && Windows(cfg, windows) && Matrix(last.logProbs, cfg.al.classes)
    requires |RunAll(cfg, windows).stitch.rows| < FINAL_LIMIT && last.start + |last.logProbs| < FINAL_LIMIT
    ensures var lanes := RunWindow(cfg, RunAll(cfg, windows), last, true);
            lanes.transcript == BatchText(cfg.al, LabelsOf(cfg.al, lanes.stitch.rows))
  {
    FinalWindow(cfg, RunAll(cfg, windows), last);
  }
}
