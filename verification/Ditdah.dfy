/** `decode_with_params`: the dot length is estimated from the marks of the signal, and its runs
    are then read as elements and spaces. */
module Ditdah {
  import opened Keying
  import opened Sorting
  import opened Intervals

  const DIT_DAH_BOUNDARY := 2.0
  const LETTER_SPACE_BOUNDARY := 2.0
  const WORD_SPACE_BOUNDARY := 5.0
  const BREAKPOINT := 18.0
  const LETTER_MAX := 16

  datatype Copy = Copy(letter: string, out: string)

  function Reals(lens: seq<nat>): (vals: seq<real>)
    ensures |vals| == |lens| && forall i :: 0 <= i < |lens| ==> vals[i] == lens[i] as real
  {
    seq(|lens|, i requires 0 <= i < |lens| => lens[i] as real)
  }

  /** The dot length from the shortest mark, the longest, and those at a quarter and a half. */
  function DotFrom(shortest: real, longest: real, quarter: real, half: real): (dot: real)
    ensures 1.0 <= dot
  {
    var ratio := longest / (if shortest > 0.0 then shortest else 1.0);
    var dot := if ratio > 2.0 then quarter else if half > BREAKPOINT then half / 3.0 else half;
    if dot < 1.0 then 1.0 else dot
  }

  /** The dot length read off the mark lengths. */
  function DotLength(on: seq<nat>): (dot: real)
    requires on != []
    ensures 1.0 <= dot
  {
    var n, sorted := |on|, Sorted(Reals(on), |on|);
    DotFrom(sorted[0], sorted[n - 1], sorted[n / 2 / 2], sorted[n / 2])
  }

  function Debounce(dot: real): (samples: int)
    ensures 1 <= samples
  {
    var d := (dot * 0.3 + 0.5).Floor;
    if d < 1 then 1 else d
  }

  /** A character goes out if the buffer has room for it and its end. */
  function Put(out: string, c: char, outMax: int): string {
    if |out| + 1 < outMax then out + [c] else out
  }

  function Element(len: nat, dot: real): char
    requires 1.0 <= dot
  {
    if len as real / dot < DIT_DAH_BOUNDARY then '.' else '-'
  }

  function CloseMark(c: Copy, len: nat, dot: real): Copy
    requires 1.0 <= dot
  {
    if |c.letter| + 1 < LETTER_MAX then c.(letter := c.letter + [Element(len, dot)]) else c
  }

  function CloseSpace(c: Copy, len: nat, dot: real, outMax: int): Copy
    requires 1.0 <= dot
  {
    if len as real / dot <= LETTER_SPACE_BOUNDARY then c
    else
      var out := if c.letter != "" then Put(c.out, Copied(c.letter), outMax) else c.out;
      Copy("", if len as real / dot > WORD_SPACE_BOUNDARY && out != "" && out[|out| - 1] != ' ' then Put(out, ' ', outMax) else out)
  }

  function CloseRun(c: Copy, run: Interval, dot: real, outMax: int): Copy
    requires 1.0 <= dot
  {
    if run.len <= Debounce(dot) then c
    else if run.on then CloseMark(c, run.len, dot)
    else CloseSpace(c, run.len, dot, outMax)
  }

  function CopyRuns(runs: seq<Interval>, n: nat, dot: real, outMax: int): Copy
    requires n <= |runs| && 1.0 <= dot
  {
    if n == 0 then Copy("", "") else CloseRun(CopyRuns(runs, n - 1, dot, outMax), runs[n - 1], dot, outMax)
  }

  /** All runs but the last. A zero sample behind the signal closes what its value closes. */
  function Closed(levels: seq<bool>): seq<Interval>
    requires levels != []
  {
    var runs := Runs(levels, |levels|);
    runs[..|runs| - 1]
  }

  function MarkLens(power: seq<real>, threshold: real): seq<nat> {
    var runs := Runs(Levels(power, threshold), |power|);
    Lens(runs, true, |runs|)
  }

  function FinalCopy(power: seq<real>, threshold: real, outMax: int): Copy
    requires MarkLens(power, threshold) != []
  {
    var closed := Closed(Levels(power + [0.0], threshold));
    CopyRuns(closed, |closed|, DotLength(MarkLens(power, threshold)), outMax)
  }

  /** The text of a whole signal, and the pattern of its last character. */
  function Decode(power: seq<real>, threshold: real, outMax: int): string {
    if outMax <= 0 || MarkLens(power, threshold) == [] then ""
    else
      var c := FinalCopy(power, threshold, outMax);
      if c.letter != "" then Put(c.out, Copied(c.letter), outMax) else c.out
  }

  function Pending(power: seq<real>, threshold: real, outMax: int, pendingMax: int): string {
    if outMax <= 0 || pendingMax <= 0 || MarkLens(power, threshold) == [] then ""
    else
      var letter := FinalCopy(power, threshold, outMax).letter;
      letter[..if |letter| < pendingMax then |letter| else pendingMax - 1]
  }

  // ---------------------------------------------------------------- as it runs

  lemma {:induction false} CopyPrefix(runs: seq<Interval>, more: seq<Interval>, n: nat, dot: real, outMax: int)
    requires n <= |runs| && 1.0 <= dot
    ensures CopyRuns(runs + more, n, dot, outMax) == CopyRuns(runs, n, dot, outMax)
  {
    if 0 < n {
      CopyPrefix(runs, more, n - 1, dot, outMax);
    }
  }

  lemma CopySnoc(runs: seq<Interval>, run: Interval, dot: real, outMax: int)
    requires 1.0 <= dot
    ensures CopyRuns(runs + [run], |runs| + 1, dot, outMax) == CloseRun(CopyRuns(runs, |runs|, dot, outMax), run, dot, outMax)
  {
    CopyPrefix(runs, [run], |runs|, dot, outMax);
  }

  /** One closed run. */
  method Close(c: Copy, isOn: bool, current: nat, dot: real, outMax: int) returns (d: Copy)
    requires 1.0 <= dot
    ensures d == CloseRun(c, Interval(isOn, current), dot, outMax)
  {
    hide Copied, Debounce;
    var letter, out := c.letter, c.out;
    if current > Debounce(dot) {
      var norm := current as real / dot;
      if isOn {
        if |letter| + 1 < LETTER_MAX {
          letter := letter + (if norm < DIT_DAH_BOUNDARY then "." else "-");
        }
      } else if norm > LETTER_SPACE_BOUNDARY {
        if letter != "" {
          if |out| + 1 < outMax {
            out := out + [Copied(letter)];
          }
          letter := "";
        }
        if norm > WORD_SPACE_BOUNDARY {
          if out != "" && out[|out| - 1] != ' ' && |out| + 1 < outMax {
            out := out + " ";
          }
        }
      }
    }
    d := Copy(letter, out);
  }

  lemma ClosedOpen(levels: seq<bool>, closed: seq<Interval>, isOn: bool, current: nat)
    requires levels != [] && OpenRun(levels, |levels|, closed, isOn, current)
    ensures closed == Closed(levels)
  {
  }

  /** The second pass over the signal, one sample further than it goes. */
  method CopySignal(power: seq<real>, threshold: real, dot: real, outMax: int) returns (c: Copy)
    requires power != [] && 1.0 <= dot
    ensures var closed := Closed(Levels(power + [0.0], threshold)); c == CopyRuns(closed, |closed|, dot, outMax)
  {
    hide CopyRuns, CloseRun, Runs, OpenRun, Closed;
    ghost var levels := Levels(power + [0.0], threshold);
    c := Copy("", "");
    var isOn := power[0] > threshold;
    var current := 0;
    ghost var closed: seq<Interval> := [];
    NoRuns(levels);
    NoCopy(dot, outMax);
    for i := 0 to |power| + 1
      invariant OpenRun(levels, i, closed, isOn, current)
      invariant c == CopyRuns(closed, |closed|, dot, outMax)
    {
      var p := if i < |power| then power[i] else 0.0;
      OpenNext(levels, i, closed, isOn, current);
      if (p > threshold) == isOn {
        current := current + 1;
      } else {
        CopySnoc(closed, Interval(isOn, current), dot, outMax);
        c := Close(c, isOn, current, dot, outMax);
        closed := closed + [Interval(isOn, current)];
        isOn, current := !isOn, 1;
      }
    }
    ClosedOpen(levels, closed, isOn, current);
  }

  lemma NoCopy(dot: real, outMax: int)
    requires 1.0 <= dot
    ensures CopyRuns([], 0, dot, outMax) == Copy("", "")
  {
  }

  lemma NoMarks(threshold: real)
    ensures MarkLens([], threshold) == []
  {
  }

  /** `decode_with_params` */
  method DecodeWithParams(power: seq<real>, threshold: real, outMax: int, pendingMax: int)
    returns (out: string, pending: string, any: bool)
    ensures out == Decode(power, threshold, outMax)
    ensures pending == Pending(power, threshold, outMax, pendingMax)
    ensures any <==> out != ""
  {
    hide Lens, Runs, Closed, CopyRuns, DotLength, Copied;
    out, pending, any := "", "", false;
    NoMarks(threshold);
    if power == [] || outMax <= 0 {
      return;
    }
    var on, off := GetRawIntervals(power, threshold);
    if on == [] {
      return;
    }
    var dot := DotLength(on);
    var c := CopySignal(power, threshold, dot, outMax);
    if c.letter != "" && pendingMax > 0 {
      pending := c.letter[..if |c.letter| < pendingMax then |c.letter| else pendingMax - 1];
    }
    out := c.out;
    if c.letter != "" {
      if |out| + 1 < outMax {
        out := out + [Copied(c.letter)];
      }
    }
    any := out != "";
  }
}
