/** Committing does not wait: whatever ended in front of the frozen edge has been written. */
module CommitProgress {
  import opened Options
  import opened Integers
  import opened CtcGreedy
  import opened Stitching
  import opened StreamProof

  // ---------------------------------------------------------------- spans of characters

  /** Every character run has a span that ends where it ends. */
  lemma {:induction false} SpanOfChar(al: Alphabet, carry: Carry, labels: seq<int>, i: nat, p: nat) returns (m: nat)
    requires al.Usable() && al.Labels(labels) && i <= p < |labels| && al.IsChar(labels[p])
    ensures m < |SpansFrom(al, carry, labels, i)|
    ensures var span := SpansFrom(al, carry, labels, i)[m];
            span.character != ' ' && span.startFrame <= p && span.endFrame + 1 == RunEnd(labels, p)
    decreases |labels| - i
  {
    hide GroupSpans, After, RunEnd;
    SpansStep(al, carry, labels, i);
    var end := RunEnd(labels, i);
    if p < end {
      m := 0;
      CharGroup(al, carry, labels, i);
      RunEndUnique(labels, i, p, end);
    } else {
      m := SpanOfChar(al, carry, labels, end, p);
      m := m + |GroupSpans(al, carry, labels, i)|;
    }
  }

  lemma CharGroup(al: Alphabet, carry: Carry, labels: seq<int>, i: nat)
    requires al.Usable() && al.Labels(labels) && i < |labels| && al.IsChar(labels[i])
    ensures GroupSpans(al, carry, labels, i) == [Span(al.chars[labels[i]], i, RunEnd(labels, i) - 1)]
    ensures al.chars[labels[i]] != ' '
  {
  }

  lemma GroupEnds(al: Alphabet, carry: Carry, labels: seq<int>, i: nat)
    requires al.Usable() && al.Labels(labels) && i < |labels|
    ensures forall k :: 0 <= k < |GroupSpans(al, carry, labels, i)| ==> GroupSpans(al, carry, labels, i)[k].endFrame < RunEnd(labels, i)
  {
  }

  /** Spans end one after the other. */
  lemma {:induction false} SpansAscend(al: Alphabet, carry: Carry, labels: seq<int>, i: nat, m: nat, n: nat)
    requires al.Usable() && al.Labels(labels) && i <= |labels| && m < n < |SpansFrom(al, carry, labels, i)|
    ensures SpansFrom(al, carry, labels, i)[m].endFrame < SpansFrom(al, carry, labels, i)[n].endFrame
    decreases |labels| - i
  {
    hide GroupSpans, After, RunEnd;
    SpansStep(al, carry, labels, i);
    if i < |labels| {
      var end, g := RunEnd(labels, i), |GroupSpans(al, carry, labels, i)|;
      GroupEnds(al, carry, labels, i);
      SpanFrames(al, carry, labels, end);
      if g <= m {
        SpansAscend(al, carry, labels, end, m - g, n - g);
      }
    }
  }

  // ---------------------------------------------------------------- counting them

  lemma {:induction false} CountKeeps(spans: seq<Span>, limit: int, i: nat, count: nat)
    requires count <= i <= |spans| && (0 < count ==> spans[count - 1].character != ' ')
    requires forall m :: 0 <= m < i ==> spans[m].endFrame + 1 < limit
    requires forall m :: count <= m < i ==> spans[m].character == ' '
    ensures count <= CommitCount(spans, limit, i, count)
    decreases |spans| - i
  {
    if i < |spans| && spans[i].endFrame + 1 < limit {
      CountKeeps(spans, limit, i + 1, if spans[i].character != ' ' then i + 1 else count);
    }
  }

  lemma {:induction false} CountReaches(spans: seq<Span>, limit: int, i: nat, count: nat, m: nat)
    requires count <= i <= m < |spans| && (0 < count ==> spans[count - 1].character != ' ')
    requires forall k :: 0 <= k < i ==> spans[k].endFrame + 1 < limit
    requires forall k :: count <= k < i ==> spans[k].character == ' '
    requires spans[m].character != ' ' && forall k :: 0 <= k <= m ==> spans[k].endFrame + 1 < limit
    ensures m < CommitCount(spans, limit, i, count)
    decreases |spans| - i
  {
    var next := if spans[i].character != ' ' then i + 1 else count;
    if i < m {
      CountReaches(spans, limit, i + 1, next, m);
    } else {
      CountKeeps(spans, limit, i + 1, next);
    }
  }

  // ---------------------------------------------------------------- one call

  lemma SeenSpan(al: Alphabet, labels: seq<int>, e: Edge, p: nat) returns (m: nat)
    requires Takes(al, labels, e) && e.committed <= p < |labels| && al.IsChar(labels[p])
    ensures m < |Seen(al, labels, e)| && Seen(al, labels, e)[m].character != ' '
    ensures Seen(al, labels, e)[m].endFrame + 1 == RunEnd(labels, p)
    ensures forall k :: 0 <= k <= m ==> Seen(al, labels, e)[k].endFrame + 1 <= RunEnd(labels, p)
  {
    hide SpansFrom, RunEnd, Alphabet.Usable;
    var chunk := labels[e.committed..];
    assert chunk[p - e.committed] == labels[p];
    ChunkLabels(al, labels, e.committed);
    m := SpanOfChar(al, e.carry, chunk, 0, p - e.committed);
    RunEndShift(labels, e.committed, p - e.committed);
    forall k | 0 <= k < m ensures Seen(al, labels, e)[k].endFrame + 1 <= RunEnd(labels, p) {
      SpansAscend(al, e.carry, chunk, 0, k, m);
    }
  }

  /** A character run at or behind the committed edge that ended in front of the last frozen frame
      is committed by the next call, whatever else is still open. */
  lemma TakeReaches(al: Alphabet, labels: seq<int>, e: Edge, p: nat)
    requires Takes(al, labels, e) && e.committed <= p < |labels| && al.IsChar(labels[p])
    requires RunEnd(labels, p) < e.frozen
    ensures RunEnd(labels, p) <= TakeText(al, labels, e, false).committed
  {
    hide Seen, RunEnd, CommitCount, Release, FirstChar;
    var m := SeenSpan(al, labels, e, p);
    var spans := Seen(al, labels, e);
    CountReaches(spans, e.frozen, 0, 0, m);
    SeenEnds(al, labels, e, m, TakeCount(spans, e, false));
  }

  lemma SeenEnds(al: Alphabet, labels: seq<int>, e: Edge, m: nat, k: nat)
    requires Takes(al, labels, e) && m < k <= |Seen(al, labels, e)|
    ensures Seen(al, labels, e)[m].endFrame <= Seen(al, labels, e)[k - 1].endFrame
  {
    hide SpansFrom;
    ChunkLabels(al, labels, e.committed);
    if m < k - 1 {
      SpansAscend(al, e.carry, labels[e.committed..], 0, m, k - 1);
    }
  }

  // ---------------------------------------------------------------- what is released

  /** A span of a character is a run of its class. */
  lemma {:induction false} CharSpanShape(al: Alphabet, carry: Carry, labels: seq<int>, i: nat, j: nat)
    requires al.Usable() && al.Labels(labels) && i <= |labels| && j < |SpansFrom(al, carry, labels, i)|
    requires SpansFrom(al, carry, labels, i)[j].character != ' '
    ensures var span := SpansFrom(al, carry, labels, i)[j];
            i <= span.startFrame < |labels| && al.IsChar(labels[span.startFrame]) && span.endFrame + 1 == RunEnd(labels, span.startFrame)
    decreases |labels| - i
  {
    hide After, RunEnd;
    SpansStep(al, carry, labels, i);
    var end, g := RunEnd(labels, i), |GroupSpans(al, carry, labels, i)|;
    if g <= j {
      CharSpanShape(al, carry, labels, end, j - g);
    }
  }

  /** The same of the spans a call sees. */
  lemma SeenShape(al: Alphabet, labels: seq<int>, e: Edge, j: nat)
    requires Takes(al, labels, e) && j < |Seen(al, labels, e)| && Seen(al, labels, e)[j].character != ' '
    ensures var span := Seen(al, labels, e)[j];
            && e.committed <= span.startFrame < |labels| && al.IsChar(labels[span.startFrame])
            && span.endFrame + 1 == RunEnd(labels, span.startFrame)
  {
    hide SpansFrom, RunEnd, Alphabet.Usable;
    var chunk := labels[e.committed..];
    ChunkLabels(al, labels, e.committed);
    CharSpanShape(al, e.carry, chunk, 0, j);
    RunEndShift(labels, e.committed, SpansFrom(al, e.carry, chunk, 0)[j].startFrame);
  }

  /** What is not committed is a run that reaches the last frozen frame. */
  lemma OpenSpan(al: Alphabet, labels: seq<int>, e: Edge, j: nat)
    requires Takes(al, labels, e) && j < |Seen(al, labels, e)| && Seen(al, labels, e)[j].character != ' '
    requires TakeCount(Seen(al, labels, e), e, false) <= j
    ensures e.frozen <= Seen(al, labels, e)[j].endFrame + 1
  {
    hide Seen, CommitCount;
    var spans := Seen(al, labels, e);
    if spans[j].endFrame + 1 < e.frozen {
      forall k | 0 <= k <= j ensures spans[k].endFrame + 1 < e.frozen {
        SeenEnds(al, labels, e, k, j + 1);
      }
      CountReaches(spans, e.frozen, 0, 0, j);
    }
  }

  /** Frames without a character do not stay either: up to one frame in front of the first character run
      that is still open, or of the frozen edge, all are passed. */
  lemma TakeReleases(al: Alphabet, labels: seq<int>, e: Edge, n: nat)
    requires Takes(al, labels, e) && n <= e.frozen
    requires forall p :: e.committed <= p < n && al.IsChar(labels[p]) ==> RunEnd(labels, p) < e.frozen
    ensures n - 1 <= TakeText(al, labels, e, false).committed
  {
    hide Seen, RunEnd, CommitCount, Release, FirstChar;
    if e.committed < |labels| {
      var spans := Seen(al, labels, e);
      var k := TakeCount(spans, e, false);
      var next := FirstChar(spans, k);
      if next < |spans| {
        SeenShape(al, labels, e, next);
        OpenSpan(al, labels, e, next);
      }
    }
  }

  // ---------------------------------------------------------------- the transcript

  lemma {:induction false} TextGrows(al: Alphabet, labels: seq<int>, k: nat, n: nat)
    requires al.Usable() && al.Labels(labels) && k <= n <= |labels|
    ensures TextTo(al, labels, k) <= TextTo(al, labels, n)
  {
    if k < n {
      TextGrows(al, labels, k, n - 1);
    }
  }

  /** A stream never stops inside a character run. */
  lemma ReadyIsClean(al: Alphabet, labels: seq<int>, e: Edge, p: nat)
    requires Takes(al, labels, e) && Ready(al, labels, e) && p < e.committed && al.IsChar(labels[p])
    ensures RunEnd(labels, p) <= e.committed
  {
    hide RunEnd;
    var c: nat := e.committed;
    if c < |labels| && labels[c] != labels[p] {
      RunEndBefore(labels, p, c);
    } else if c < |labels| && labels[c - 1] != labels[p] {
      RunEndBefore(labels, p, c - 1);
    }
  }

  lemma RunEndBefore(labels: seq<int>, p: nat, k: nat)
    requires p <= k < |labels| && labels[k] != labels[p]
    ensures RunEnd(labels, p) <= k
  {
    hide RunEnd;
  }

  /** All that ended in front of the last frozen frame stands in the transcript. */
  ghost predicate UpToDate(al: Alphabet, labels: seq<int>, frozen: nat, transcript: string)
    requires al.Usable() && al.Labels(labels)
  {
    forall p :: 0 <= p < |labels| && al.IsChar(labels[p]) && RunEnd(labels, p) < frozen ==>
      TextTo(al, labels, RunEnd(labels, p)) <= transcript
  }

  /** Behind a call that is not final, every character that ended in front of the last frozen frame
      has been written, in its place. */
  lemma TakeTextUpToDate(al: Alphabet, labels: seq<int>, e: Edge, transcript: string)
    requires Streams(al, labels, e, transcript)
    ensures al.Usable() && al.Labels(labels)
    ensures UpToDate(al, labels, e.frozen, AppendTaken(transcript, TakenLane(al, labels, e, false)))
  {
    hide TextTo, TakeText, TakenLane, AppendTaken, RunEnd, After;
    TakeTextStreams(al, labels, e, transcript);
    var f, text := TakeText(al, labels, e, false), AppendTaken(transcript, TakenLane(al, labels, e, false));
    TakeTextMovesOn(al, labels, e, false);
    forall p | 0 <= p < |labels| && al.IsChar(labels[p]) && RunEnd(labels, p) < e.frozen
      ensures TextTo(al, labels, RunEnd(labels, p)) <= text {
      if e.committed <= p {
        TakeReaches(al, labels, e, p);
      } else {
        ReadyIsClean(al, labels, e, p);
      }
      TextGrows(al, labels, RunEnd(labels, p), f.committed);
    }
  }

  /** Over any run, after every window that is not final: the transcript is up to date. */
  lemma RunUpToDate(cfg: Settings, windows: seq<Window>)
    requires cfg.Usable() && Windows(cfg, windows) && windows != []
    ensures var lanes := RunAll(cfg, windows);
            UpToDate(cfg.al, LabelsOf(cfg.al, lanes.stitch.rows), lanes.stitch.edge.frozen, lanes.transcript)
  {
    hide AddWindow, TakeText, TakenLane, AppendTaken, LabelOf, Committed, Ready, UpToDate;
    var before, last := RunAll(cfg, windows[..|windows| - 1]), windows[|windows| - 1];
    AddWindowStreams(cfg, before, last, false);
    var s := AddWindow(cfg, before.stitch, last.start, last.logProbs, false);
    var labels := LabelsOf(cfg.al, s.rows);
    TakeTextUpToDate(cfg.al, labels, s.edge, before.transcript);
    TakeTextMovesOn(cfg.al, labels, s.edge, false);
  }
}
