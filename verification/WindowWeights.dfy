/** How windows are weighed against each other: the interior of a window counts fully, its cut-off
    edges hardly at all, and the label of a frame is decided accordingly. */
module WindowWeights {
  import opened Options
  import opened Integers
  import RealNumbers
  import opened CtcGreedy
  import opened Stitching

  // ---------------------------------------------------------------- the ramp

  /** The ramp is level outside, takes the cubic's values at a quarter, a half and three quarters,
      and is symmetric about its middle. */
  lemma RampValues(x: real)
    ensures x <= 0.0 ==> Smoothstep(x) == 0.0
    ensures 1.0 <= x ==> Smoothstep(x) == 1.0
    ensures Smoothstep(0.25) == 5.0 / 32.0 && Smoothstep(0.5) == 0.5 && Smoothstep(0.75) == 27.0 / 32.0
    ensures Smoothstep(1.0 - x) == 1.0 - Smoothstep(x)
  {
    if 0.0 < x < 1.0 {
      var y, u := 1.0 - x, x * x;
      assert y * y == 1.0 - 2.0 * x + u;
      assert y * y * (3.0 - 2.0 * y) == (1.0 - 2.0 * x + u) * (1.0 + 2.0 * x);
      assert (1.0 - 2.0 * x + u) * (1.0 + 2.0 * x) == 1.0 - 4.0 * u + u + 2.0 * (u * x);
      assert u * (3.0 - 2.0 * x) == 3.0 * u - 2.0 * (u * x);
    }
  }

  /** It never falls. */
  lemma RampRises(x: real, y: real)
    requires x <= y
    ensures Smoothstep(x) <= Smoothstep(y)
  {
    if x < 0.0 || 1.0 < y {
      RampValues(x);
      RampValues(y);
    } else {
      CubicRises(x, y);
    }
  }

  lemma CubicRises(x: real, y: real)
    requires 0.0 <= x <= y <= 1.0
    ensures x * x * (3.0 - 2.0 * x) <= y * y * (3.0 - 2.0 * y)
  {
    // y^2 (3 - 2y) - x^2 (3 - 2x) = (y - x) (3 (x + y) - 2 (x^2 + x y + y^2)), and the second
    // factor is not negative
    var xx, xy, yy := x * x, x * y, y * y;
    Product(x, 1.0 - x);
    Product(y, 1.0 - y);
    Product(x, 1.0 - y);
    assert xx <= x && yy <= y && xy <= x;
    var g := 3.0 * (x + y) - 2.0 * (xx + xy + yy);
    assert 0.0 <= g;
    Product(y - x, g);
    assert (y - x) * g == 3.0 * ((y - x) * (x + y)) - 2.0 * ((y - x) * (xx + xy + yy));
    assert (y - x) * (x + y) == yy - xx;
    Cubes(x, y);
    assert xx * (3.0 - 2.0 * x) == 3.0 * xx - 2.0 * (xx * x);
    assert yy * (3.0 - 2.0 * y) == 3.0 * yy - 2.0 * (yy * y);
  }

  lemma Product(a: real, b: real)
    requires 0.0 <= a && 0.0 <= b
    ensures 0.0 <= a * b
  {
  }

  lemma Cubes(x: real, y: real)
    ensures (y - x) * (x * x + x * y + y * y) == y * y * y - x * x * x
  {
    assert y * (x * x) == x * x * y;
    assert (y - x) * (x * x + x * y + y * y)
        == y * (x * x) + y * (x * y) + y * (y * y) - x * (x * x) - x * (x * y) - x * (y * y);
    assert y * (x * y) == x * (y * y) && x * (x * y) == y * (x * x);
  }

  // ---------------------------------------------------------------- the weight of a frame

  function Seconds(framesPerSecond: real, frames: int): real
    requires 0.0 < framesPerSecond
  {
    frames as real / framesPerSecond
  }

  /** Far enough from both edges a frame counts fully; the first window has no left edge, the final
      one no right edge. */
  lemma InteriorCounts(fps: real, start: nat, frame: nat, count: nat, isFinal: bool)
    requires 0.0 < fps && frame < count
    requires start == 0 || 2.0 <= Seconds(fps, frame)
    requires isFinal || 1.0 <= Seconds(fps, count - 1 - frame)
    ensures ViewWeight(fps, start, frame, count, isFinal) == 1.0
  {
    hide Smoothstep;
    RampValues(Seconds(fps, frame) / 2.0);
    RampValues(Seconds(fps, count - 1 - frame) / 1.0);
  }

  /** The frame at a cut-off edge has the least weight. */
  lemma EdgeHardlyCounts(fps: real, start: nat, frame: nat, count: nat, isFinal: bool)
    requires 0.0 < fps && frame < count
    requires (start != 0 && frame == 0) || (!isFinal && frame == count - 1)
    ensures ViewWeight(fps, start, frame, count, isFinal) == MIN_VIEW_WEIGHT
  {
    hide Smoothstep;
    assert 0.0 / fps == 0.0;
    RampValues(0.0);
  }

  /** A quarter and half way up each ramp. */
  lemma RampCounts(fps: real, start: nat, frame: nat, count: nat, isFinal: bool)
    requires 0.0 < fps && frame < count
    ensures start != 0 && isFinal && Seconds(fps, frame) == 0.5 ==> ViewWeight(fps, start, frame, count, isFinal) == 5.0 / 32.0
    ensures start != 0 && isFinal && Seconds(fps, frame) == 1.0 ==> ViewWeight(fps, start, frame, count, isFinal) == 0.5
    ensures start == 0 && !isFinal && Seconds(fps, count - 1 - frame) == 0.25 ==> ViewWeight(fps, start, frame, count, isFinal) == 5.0 / 32.0
    ensures start == 0 && !isFinal && Seconds(fps, count - 1 - frame) == 0.5 ==> ViewWeight(fps, start, frame, count, isFinal) == 0.5
  {
    hide Smoothstep;
    RampValues(0.0);
  }

  /** The weight never falls when a frame moves away from an edge. */
  lemma WeightRises(fps: real, start: nat, frame: nat, count: nat, isFinal: bool,
                    start': nat, frame': nat, count': nat, isFinal': bool)
    requires 0.0 < fps && frame < count && frame' < count'
    requires start' == 0 || (start != 0 && frame <= frame')
    requires isFinal' || (!isFinal && count - 1 - frame <= count' - 1 - frame')
    ensures ViewWeight(fps, start, frame, count, isFinal) <= ViewWeight(fps, start', frame', count', isFinal')
  {
    hide Smoothstep, Seconds, ViewWeight;
    if start' != 0 {
      SecondsRise(fps, frame, frame');
      RampRises(Seconds(fps, frame) / 2.0, Seconds(fps, frame') / 2.0);
    }
    if !isFinal' {
      SecondsRise(fps, count - 1 - frame, count' - 1 - frame');
      RampRises(Seconds(fps, count - 1 - frame) / 1.0, Seconds(fps, count' - 1 - frame') / 1.0);
    }
    var left, right := LeftRamp(fps, start, frame), RightRamp(fps, frame, count, isFinal);
    var left', right' := LeftRamp(fps, start', frame'), RightRamp(fps, frame', count', isFinal');
    assert left <= left';
    assert right <= right';
    LowerProduct(left, right, left', right');
    WeightOfRamps(fps, start, frame, count, isFinal);
    WeightOfRamps(fps, start', frame', count', isFinal');
  }

  function LeftRamp(fps: real, start: nat, frame: nat): (t: real)
    requires 0.0 < fps
    ensures 0.0 <= t <= 1.0
  {
    if start == 0 then 1.0 else Smoothstep(Seconds(fps, frame) / 2.0)
  }

  function RightRamp(fps: real, frame: nat, count: nat, isFinal: bool): (t: real)
    requires 0.0 < fps && frame < count
    ensures 0.0 <= t <= 1.0
  {
    if isFinal then 1.0 else Smoothstep(Seconds(fps, count - 1 - frame) / 1.0)
  }

  lemma WeightOfRamps(fps: real, start: nat, frame: nat, count: nat, isFinal: bool)
    requires 0.0 < fps && frame < count
    ensures ViewWeight(fps, start, frame, count, isFinal)
         == RealNumbers.Max(MIN_VIEW_WEIGHT, LeftRamp(fps, start, frame) * RightRamp(fps, frame, count, isFinal))
  {
    hide Smoothstep;
  }

  lemma LowerProduct(a: real, b: real, c: real, d: real)
    requires 0.0 <= a <= c && 0.0 <= b <= d
    ensures a * b <= c * d
  {
    Product(c - a, d);
    Product(a, d - b);
    assert c * d - a * d == (c - a) * d && a * d - a * b == a * (d - b);
  }

  lemma SecondsRise(fps: real, a: int, b: int)
    requires 0.0 < fps && a <= b
    ensures Seconds(fps, a) <= Seconds(fps, b)
  {
    var d := (b - a) as real / fps;
    assert 0.0 <= d;
    assert b as real == a as real + (b - a) as real;
    assert b as real / fps == a as real / fps + d;
  }

  // ---------------------------------------------------------------- the label of a frame

  lemma {:induction false} StrongestUnique(row: seq<real>, n: nat, c: nat)
    requires c < n <= |row|
    requires forall k :: 0 <= k < n ==> row[k] <= row[c]
    requires forall k :: 0 <= k < c ==> row[k] < row[c]
    ensures Strongest(row, n) == c
  {
    var best := Strongest(row, n);
    assert row[best] <= row[c] && row[c] <= row[best];
  }

  /** A frame some window has seen is labelled with the first class of the greatest sum, any other
      one as blank. */
  lemma LabelIsStrongest(al: Alphabet, acc: Acc)
    requires al.Usable() && |acc.sums| == al.classes && 0.0 <= acc.weight
    ensures acc.weight == 0.0 ==> LabelOf(al, acc) == al.blank
    ensures 0.0 < acc.weight ==> LabelOf(al, acc) == Strongest(acc.sums, al.classes)
  {
    hide Strongest;
    var row := ScoreRow(al, acc);
    if acc.weight == 0.0 {
      StrongestUnique(row, al.classes, al.blank);
    } else {
      var c := Strongest(acc.sums, al.classes);
      forall k | 0 <= k < al.classes
        ensures row[k] <= row[c] && (k < c ==> row[k] < row[c])
      {
        QuotientRises(acc.sums[k], acc.sums[c], acc.weight);
      }
      StrongestUnique(row, al.classes, c);
    }
  }

  lemma QuotientRises(x: real, y: real, w: real)
    requires x <= y && 0.0 < w
    ensures x / w <= y / w && (x < y ==> x / w < y / w)
  {
    assert y / w == x / w + (y - x) / w;
  }

  /** What a window has made of a frame that no other window has seen: the window's own strongest
      class. */
  lemma OneWindowDecides(cfg: Settings, s: Stitch, start: nat, logProbs: seq<seq<real>>, isFinal: bool, i: nat)
    requires cfg.Usable() && Rows(s.rows, cfg.al.classes) && Matrix(logProbs, cfg.al.classes)
    requires RowAt(s.rows, cfg.al.classes, i) == Blank(cfg.al.classes)
    requires s.edge.frozen <= i && start <= i < start + |logProbs|
    ensures var t := AddWindow(cfg, s, start, logProbs, isFinal);
            i < |t.rows| && LabelOf(cfg.al, t.rows[i]) == Strongest(logProbs[i - start], cfg.al.classes)
  {
    hide Strongest, ViewWeight, LabelOf;
    var w, row := ViewWeight(cfg.framesPerSecond, start, i - start, |logProbs|, isFinal), logProbs[i - start];
    var acc := AddRow(Blank(cfg.al.classes), w, row);
    LabelIsStrongest(cfg.al, acc);
    var c := Strongest(row, cfg.al.classes);
    forall k | 0 <= k < cfg.al.classes
      ensures acc.sums[k] <= acc.sums[c] && (k < c ==> acc.sums[k] < acc.sums[c])
    {
      ScaledRises(row[k], row[c], w);
    }
    StrongestUnique(acc.sums, cfg.al.classes, c);
  }

  lemma ScaledRises(x: real, y: real, w: real)
    requires x <= y && 0.0 < w
    ensures w * x <= w * y && (x < y ==> w * x < w * y)
  {
  }

  /** The margin of `c` in row `a` cannot be made up by row `b` at a thousandth of the weight. */
  ghost predicate Outweighs(a: seq<real>, b: seq<real>, c: nat) {
    c < |a| == |b| && forall d :: 0 <= d < |a| && d != c ==> b[d] - b[c] < 1000.0 * (a[c] - a[d])
  }

  /** Where two windows have seen a frame, one in its interior and the other at its cut-off edge, the
      interior decides, whichever came first. */
  lemma InteriorDecides(cfg: Settings, s: Stitch, start1: nat, probs1: seq<seq<real>>, isFinal1: bool,
                        start2: nat, probs2: seq<seq<real>>, isFinal2: bool, i: nat, c: nat)
    requires cfg.Usable() && Rows(s.rows, cfg.al.classes)
    requires Matrix(probs1, cfg.al.classes) && Matrix(probs2, cfg.al.classes)
    requires RowAt(s.rows, cfg.al.classes, i) == Blank(cfg.al.classes) && s.edge.frozen <= i
    requires start1 <= i < start1 + |probs1| && start2 <= i < start2 + |probs2|
    requires AddWindow(cfg, s, start1, probs1, isFinal1).edge.frozen <= i
    requires var w1 := ViewWeight(cfg.framesPerSecond, start1, i - start1, |probs1|, isFinal1);
             var w2 := ViewWeight(cfg.framesPerSecond, start2, i - start2, |probs2|, isFinal2);
             || (w1 == 1.0 && w2 == MIN_VIEW_WEIGHT && Outweighs(probs1[i - start1], probs2[i - start2], c))
             || (w1 == MIN_VIEW_WEIGHT && w2 == 1.0 && Outweighs(probs2[i - start2], probs1[i - start1], c))
    ensures var t := AddWindow(cfg, AddWindow(cfg, s, start1, probs1, isFinal1), start2, probs2, isFinal2);
            i < |t.rows| && LabelOf(cfg.al, t.rows[i]) == c
  {
    hide Strongest, ViewWeight, LabelOf, Outweighs, AddRow;
    SumDecides(cfg.al, probs1[i - start1], ViewWeight(cfg.framesPerSecond, start1, i - start1, |probs1|, isFinal1),
               probs2[i - start2], ViewWeight(cfg.framesPerSecond, start2, i - start2, |probs2|, isFinal2), c);
  }

  lemma SumDecides(al: Alphabet, row1: seq<real>, w1: real, row2: seq<real>, w2: real, c: nat)
    requires al.Usable() && |row1| == al.classes && |row2| == al.classes
    requires (w1 == 1.0 && w2 == MIN_VIEW_WEIGHT && Outweighs(row1, row2, c))
          || (w1 == MIN_VIEW_WEIGHT && w2 == 1.0 && Outweighs(row2, row1, c))
    ensures LabelOf(al, AddRow(AddRow(Blank(al.classes), w1, row1), w2, row2)) == c
  {
    hide LabelOf, Strongest, Alphabet.Usable;
    var acc := AddRow(AddRow(Blank(al.classes), w1, row1), w2, row2);
    LabelIsStrongest(al, acc);
    forall d | 0 <= d < al.classes && d != c
      ensures acc.sums[d] < acc.sums[c] {
    }
    assert forall d :: 0 <= d < al.classes && d != c ==> acc.sums[d] < acc.sums[c];
    StrongestUnique(acc.sums, al.classes, c);
  }

  // ---------------------------------------------------------------- what is frozen

  /** A window that is not final freezes exactly the frames that lie at least the guard in front of its
      end, and a final one all there are; nothing thaws. */
  lemma FrozenExactly(cfg: Settings, s: Stitch, start: nat, logProbs: seq<seq<real>>, isFinal: bool, i: nat)
    requires cfg.Usable() && Rows(s.rows, cfg.al.classes) && Matrix(logProbs, cfg.al.classes)
    requires s.edge.frozen <= |s.rows|
    ensures var t := AddWindow(cfg, s, start, logProbs, isFinal);
            && (!isFinal ==> (i < t.edge.frozen <==>
                  i < s.edge.frozen || (logProbs != [] && i + cfg.freezeGuard < start + |logProbs|)))
            && (isFinal ==> (i < t.edge.frozen <==> i < |t.rows|))
            && (i < |t.rows| <==> i < |s.rows| || (logProbs != [] && i < start + |logProbs|))
  {
    hide NewRow;
  }
}
