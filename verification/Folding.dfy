/** From run lengths to text: each length is classified, dots and dashes collect into a pattern,
    gaps turn it into a character, and every mark may move the speed. `FoldAll` is the batch
    meaning of a whole sequence of lengths. */
module Folding {
  import opened Options
  import opened Viterbi

  const TEXT_MAX := 8192
  const PAT_MAX := 16
  const MARK_LENGTHS := 64
  const REFIT_EVERY := 14
  const REFIT_LEAST := 7
  const MAX_SHIFT := 0.8
  const SLAB_CHAR := 0.0001
  const SEED_MEAN: seq<real> := [1.62, 2.70, 1.50, 2.72, 3.56]

  datatype ElemType = Dit | Dah | Intra | CharGap | WordGap

  /** What depends on exponentials and logarithms is left open: the density of a length under
      one type, the hazards built from the log-means, and the logarithm itself. */
  datatype Model = Model(density: (seq<real>, ElemType, int) -> real, hazards: seq<real> -> Hazards, ln: real -> real) {
    ghost predicate Ok() {
      forall means :: hazards(means).Ok()
    }

    /** `classify_length` */
    function Classify(means: seq<real>, length: int): ElemType {
      if length > 0 then
        if density(means, Dit, length) > density(means, Dah, length) then Dit else Dah
      else
        var a := if length < 0 then -length else 1;
        var p2, p3 := density(means, Intra, a), density(means, CharGap, a);
        var p4 := density(means, WordGap, a);
        var floored := if p4 < SLAB_CHAR then SLAB_CHAR else p4;
        if p2 > p3 && p2 > floored then Intra else if p3 > floored then CharGap else WordGap
    }
  }

  datatype Fold = Fold(text: string, pat: string, means: seq<real>, marks: seq<int>, adaptCount: int)

  const SEED := Fold("", "", SEED_MEAN, [], 0)

  // ---------------------------------------------------------------- text

  const FIGURES: seq<(string, string)> := [
    ("1", ".----"), ("2", "..---"), ("3", "...--"), ("4", "....-"), ("5", "....."), ("6", "-...."),
    ("7", "--..."), ("8", "---.."), ("9", "----."), ("0", "-----")]

  const LETTERS: seq<(string, string)> := [
    ("A", ".-"), ("B", "-..."), ("C", "-.-."), ("D", "-.."), ("E", "."), ("F", "..-."),
    ("G", "--."), ("H", "...."), ("I", ".."), ("J", ".---"), ("K", "-.-"), ("L", ".-.."),
    ("M", "--"), ("N", "-."), ("O", "---"), ("P", ".--."), ("Q", "--.-"), ("R", ".-."),
    ("S", "..."), ("T", "-"), ("U", "..-"), ("V", "...-"), ("W", ".--"), ("X", "-..-"),
    ("Y", "-.--"), ("Z", "--..")]

  const SIGNS: seq<(string, string)> := [
    ("/", "-..-."), (".", ".-.-.-"), (",", "--..--"), ("?", "..--.."), ("=", "-...-"),
    ("sk", "...-.-"), ("ar", ".-.-."), ("as", ".-..."), ("kn", "-.--."), ("cq", "-.-.--.-"),
    ("bk", "-...-.-"), ("dx", "-..-..-")]

  /** Patterns that are keyed wrongly often enough to be read all the same. */
  const SLIPS: seq<(string, string)> := [
    ("=", "-....-"), ("=", "-.....-"), ("?", "...--.."), ("?", "..--..."), ("?", "..--."), ("?", ".--.."),
    ("1", ".-----"), ("2", "..----"), ("2", "...---"), ("3", "....--"), ("4", ".....-"),
    ("5", "......"), ("5", "......."), ("6", "-....."), ("7", "--...."), ("8", "---...")]

  const MORSE: seq<(string, string)> := FIGURES + LETTERS + SIGNS + SLIPS

  /** `lookup_pattern`: the first exact match from entry `i` on. */
  function Lookup(pat: string, i: nat): (ch: Option<string>)
    requires i <= |MORSE|
    decreases |MORSE| - i
  {
    if i == |MORSE| then None
    else if MORSE[i].1 == pat then Some(MORSE[i].0)
    else Lookup(pat, i + 1)
  }

  /** A pattern yields the first entry that has it, and nothing only where none has. */
  lemma {:induction false} LookupSays(pat: string, i: nat)
    requires i <= |MORSE|
    ensures Lookup(pat, i).None? <==> forall j :: i <= j < |MORSE| ==> MORSE[j].1 != pat
    ensures Lookup(pat, i).Some? ==>
              exists j :: i <= j < |MORSE| && MORSE[j] == (Lookup(pat, i).value, pat) && forall k :: i <= k < j ==> MORSE[k].1 != pat
    decreases |MORSE| - i
  {
    hide MORSE;
    if i < |MORSE| && MORSE[i].1 != pat {
      LookupSays(pat, i + 1);
    } else if i < |MORSE| {
      assert MORSE[i] == (MORSE[i].0, pat);
    }
  }

  /** `append_text` */
  function AppendText(text: string, s: string): (t: string)
    ensures text <= t
    ensures |text| < TEXT_MAX ==> |t| < TEXT_MAX
  {
    var n := if |text| + |s| >= TEXT_MAX then TEXT_MAX - 1 - |text| else |s|;
    if n <= 0 then text else text + s[..n]
  }

  /** The pattern collected so far becomes a character. */
  function CloseChar(text: string, pat: string): (t: string)
    ensures text <= t
    ensures |text| < TEXT_MAX ==> |t| < TEXT_MAX
  {
    if pat == "" then text
    else
      var ch := Lookup(pat, 0);
      if ch.Some? then AppendText(text, ch.value) else text
  }

  /** A pattern without an entry leaves no trace. */
  lemma UnknownLeavesNothing(text: string, pat: string)
    ensures pat == "" || (forall j :: 0 <= j < |MORSE| ==> MORSE[j].1 != pat) ==> CloseChar(text, pat) == text
  {
    hide MORSE, Lookup;
    LookupSays(pat, 0);
  }

  /** The text part of one length. */
  function FoldText(f: Fold, kind: ElemType): (g: Fold)
    ensures g == f.(text := g.text, pat := g.pat)
    ensures f.text <= g.text
    ensures |f.text| < TEXT_MAX ==> |g.text| < TEXT_MAX
  {
    match kind
    case Dit => if |f.pat| < PAT_MAX then f.(pat := f.pat + ".") else f
    case Dah => if |f.pat| < PAT_MAX then f.(pat := f.pat + "-") else f
    case Intra => f
    case CharGap => f.(text := CloseChar(f.text, f.pat), pat := "")
    case WordGap => f.(text := AppendText(CloseChar(f.text, f.pat), " "), pat := "")
  }

  // ---------------------------------------------------------------- speed

  ghost predicate Sorted(s: seq<int>) {
    forall i, j :: 0 <= i < j < |s| ==> s[i] <= s[j]
  }

  /** `v` put behind everything of a sorted sequence that is not larger. */
  function Insert(s: seq<int>, v: int): (t: seq<int>)
    ensures |t| == |s| + 1
  {
    if s == [] || s[|s| - 1] <= v then s + [v] else Insert(s[..|s| - 1], v) + [s[|s| - 1]]
  }

  function Sort(s: seq<int>): (t: seq<int>)
    ensures |t| == |s|
  {
    if s == [] then [] else Insert(Sort(s[..|s| - 1]), s[|s| - 1])
  }

  lemma SnocSorted(s: seq<int>, x: int)
    requires Sorted(s) && forall i :: 0 <= i < |s| ==> s[i] <= x
    ensures Sorted(s + [x])
  {
  }

  lemma {:induction false} InsertSorted(s: seq<int>, v: int)
    requires Sorted(s)
    ensures Sorted(Insert(s, v))
    ensures multiset(Insert(s, v)) == multiset(s) + multiset{v}
  {
    if s == [] {
    } else if s[|s| - 1] <= v {
      assert forall i :: 0 <= i < |s| ==> s[i] <= s[|s| - 1];
      SnocSorted(s, v);
    } else {
      var init, last := s[..|s| - 1], s[|s| - 1];
      assert s == init + [last];
      InsertSorted(init, v);
      var t := Insert(init, v);
      forall i | 0 <= i < |t| ensures t[i] <= last {
        assert t[i] in multiset(t);
        assert t[i] == v || t[i] in multiset(init);
      }
      SnocSorted(t, last);
    }
  }

  /** The median is taken from a sorted rearrangement of the stored mark lengths. */
  lemma {:induction false} SortSorts(s: seq<int>)
    ensures Sorted(Sort(s)) && multiset(Sort(s)) == multiset(s)
  {
    if s != [] {
      SortSorts(s[..|s| - 1]);
      InsertSorted(Sort(s[..|s| - 1]), s[|s| - 1]);
      assert s == s[..|s| - 1] + [s[|s| - 1]];
    }
  }

  /** `adapt_speed` */
  function Adapt(model: Model, f: Fold, length: int): (g: Fold)
    requires |f.means| == 5
    ensures g.text == f.text && g.pat == f.pat && |g.means| == 5
  {
    if length <= 0 then f
    else
      var marks := if |f.marks| < MARK_LENGTHS then f.marks + [length] else f.marks[1..] + [length];
      var count := f.adaptCount + 1;
      if count < REFIT_EVERY || |marks| < REFIT_LEAST then f.(marks := marks, adaptCount := count)
      else Refit(model, f.(marks := marks, adaptCount := 0))
  }

  function Refit(model: Model, f: Fold): (g: Fold)
    requires |f.means| == 5 && 0 < |f.marks|
    ensures g == f.(means := g.means) && |g.means| == 5
  {
    var a := Sort(f.marks);
    var n := |a|;
    var delta := model.ln(a[n / 2] as real) - f.means[0];
    if a[n - 1] < a[0] * 2 || delta > MAX_SHIFT || delta < -MAX_SHIFT then f
    else f.(means := Shift(f.means, delta * 0.5))
  }

  function Shift(means: seq<real>, delta: real): (shifted: seq<real>)
    ensures |shifted| == |means| && forall i :: 0 <= i < |means| ==> shifted[i] == means[i] + delta
  {
    seq(|means|, i requires 0 <= i < |means| => means[i] + delta)
  }

  // ---------------------------------------------------------------- the fold

  function FoldOne(model: Model, f: Fold, length: int): Fold
    requires |f.means| == 5
  {
    Adapt(model, FoldText(f, model.Classify(f.means, length)), length)
  }

  /** What `cwsk_decoder_finish` does to an open character. */
  function Closed(f: Fold): Fold {
    f.(text := CloseChar(f.text, f.pat), pat := "")
  }

  /** The batch meaning of a sequence of lengths: one fold from the seed, with the character that
      was open behind the first `closedAt` lengths closed there, and none if that is negative. */
  function FoldAll(model: Model, lengths: seq<int>, closedAt: int): (f: Fold)
    ensures |f.means| == 5
  {
    var f := if lengths == [] then SEED
             else FoldOne(model, FoldAll(model, lengths[..|lengths| - 1], closedAt), lengths[|lengths| - 1]);
    if closedAt == |lengths| then Closed(f) else f
  }

  /** Text never shrinks and never outgrows its buffer, whatever lengths are folded. */
  lemma {:induction false} TextGrows(model: Model, before: seq<int>, after: seq<int>, closedAt: int)
    requires before <= after
    ensures FoldAll(model, before, closedAt).text <= FoldAll(model, after, closedAt).text
    ensures |FoldAll(model, after, closedAt).text| < TEXT_MAX
  {
    hide Adapt, Model.Classify;
    if |before| < |after| {
      TextGrows(model, before, after[..|after| - 1], closedAt);
    } else {
      assert before == after;
      if after != [] {
        var shorter := after[..|after| - 1];
        TextGrows(model, shorter, shorter, closedAt);
      }
    }
  }

  /** Adaptation scales the whole speed: every difference of two log-means keeps its seed value. */
  lemma {:induction false} RatiosKept(model: Model, lengths: seq<int>, closedAt: int, i: nat, j: nat)
    requires i < 5 && j < 5
    ensures FoldAll(model, lengths, closedAt).means[i] - FoldAll(model, lengths, closedAt).means[j] == SEED_MEAN[i] - SEED_MEAN[j]
  {
    hide Sort, Median, Model.Classify, FoldText;
    if lengths != [] {
      RatiosKept(model, lengths[..|lengths| - 1], closedAt, i, j);
    }
  }

  lemma FoldNext(model: Model, lengths: seq<int>, length: int, closedAt: int)
    requires closedAt <= |lengths|
    ensures FoldAll(model, lengths + [length], closedAt) == FoldOne(model, FoldAll(model, lengths, closedAt), length)
  {
    assert (lengths + [length])[..|lengths|] == lengths;
  }

  /** Closing later does not matter before. */
  lemma {:induction false} NotYetClosed(model: Model, lengths: seq<int>, closedAt: int)
    requires |lengths| < closedAt
    ensures FoldAll(model, lengths, closedAt) == FoldAll(model, lengths, -1)
  {
    hide FoldOne;
    if lengths != [] {
      NotYetClosed(model, lengths[..|lengths| - 1], closedAt);
    }
  }

  lemma ClosedNow(model: Model, lengths: seq<int>)
    ensures FoldAll(model, lengths, |lengths|) == Closed(FoldAll(model, lengths, -1))
  {
    hide FoldOne;
    if lengths != [] {
      NotYetClosed(model, lengths[..|lengths| - 1], |lengths|);
    }
  }

  // ---------------------------------------------------------------- the speed over runs of lengths

  /** The lengths of the marks. */
  function Marks(lengths: seq<int>): (marks: seq<int>)
    ensures forall i :: 0 <= i < |marks| ==> 0 < marks[i]
  {
    if lengths == [] then []
    else
      var last := lengths[|lengths| - 1];
      Marks(lengths[..|lengths| - 1]) + (if last > 0 then [last] else [])
  }

  /** The last 64 of them, or all. */
  function Recent(marks: seq<int>): (recent: seq<int>)
    ensures |recent| == if |marks| < 64 then |marks| else 64
  {
    if |marks| < 64 then marks else marks[|marks| - 64..]
  }

  lemma RecentNext(marks: seq<int>, length: int)
    ensures Recent(marks + [length])
         == WithMark(Recent(marks), length)
  {
  }

  /** What the decoder remembers: its last 64 marks, and how many there were since it last looked at
      the speed, which it does at every fourteenth. */
  lemma {:induction false} MarksRemembered(model: Model, lengths: seq<int>, closedAt: int)
    ensures var f := FoldAll(model, lengths, closedAt);
            f.marks == Recent(Marks(lengths)) && f.adaptCount == |Marks(lengths)| % 14
  {
    hide *;
    if lengths == [] {
      NothingRemembered(model, closedAt);
    } else {
      var init, last := lengths[..|lengths| - 1], lengths[|lengths| - 1];
      MarksRemembered(model, init, closedAt);
      FoldRemembers(model, lengths, closedAt);
      RecentNext(Marks(init), last);
      MarksNext(init, last);
      assert init + [last] == lengths;
    }
  }

  lemma MarksNext(lengths: seq<int>, length: int)
    ensures Marks(lengths + [length]) == if 0 < length then Marks(lengths) + [length] else Marks(lengths)
  {
    assert (lengths + [length])[..|lengths|] == lengths;
  }

  lemma NothingRemembered(model: Model, closedAt: int)
    ensures var f := FoldAll(model, [], closedAt); f.marks == Recent(Marks([])) == [] && f.adaptCount == 0
    ensures Marks([]) == []
  {
  }

  /** The marks a length is added to. */
  function WithMark(marks: seq<int>, length: int): seq<int> {
    (if |marks| < 64 then marks else marks[1..]) + [length]
  }

  lemma AdaptRemembers(model: Model, f: Fold, length: int)
    requires |f.means| == 5
    ensures var g := Adapt(model, f, length);
            if length <= 0 then g.marks == f.marks && g.adaptCount == f.adaptCount
            else
              && g.marks == WithMark(f.marks, length)
              && g.adaptCount == if f.adaptCount < 13 || |g.marks| < 7 then f.adaptCount + 1 else 0
  {
    hide Refit;
  }

  lemma FoldRemembers(model: Model, lengths: seq<int>, closedAt: int)
    requires lengths != []
    ensures var f, g := FoldAll(model, lengths[..|lengths| - 1], closedAt), FoldAll(model, lengths, closedAt);
            var length := lengths[|lengths| - 1];
            if length <= 0 then g.marks == f.marks && g.adaptCount == f.adaptCount
            else
              && g.marks == WithMark(f.marks, length)
              && g.adaptCount == if f.adaptCount < 13 || |g.marks| < 7 then f.adaptCount + 1 else 0
  {
    hide Model.Classify, Adapt, WithMark;
    var f := FoldAll(model, lengths[..|lengths| - 1], closedAt);
    var length := lengths[|lengths| - 1];
    AdaptRemembers(model, FoldText(f, model.Classify(f.means, length)), length);
  }

  /** Some mark is at least twice as long as another one. */
  ghost predicate TwoKinds(marks: seq<int>) {
    exists i, j :: 0 <= i < |marks| && 0 <= j < |marks| && 2 * marks[j] <= marks[i]
  }

  lemma SpreadOfSorted(marks: seq<int>)
    requires marks != []
    ensures TwoKinds(marks) <==> 2 * Sort(marks)[0] <= Sort(marks)[|marks| - 1]
  {
    hide Sort;
    var a := Sort(marks);
    var n := |marks|;
    SortSorts(marks);
    assert a[0] in multiset(a) && a[n - 1] in multiset(a);
    assert a[0] in marks && a[n - 1] in marks;
    forall k | 0 <= k < n ensures a[0] <= marks[k] <= a[n - 1] {
      assert marks[k] in multiset(marks);
      assert marks[k] in a;
    }
  }

  function Median(marks: seq<int>): int
    requires marks != []
  {
    Sort(marks)[|marks| / 2]
  }

  predicate NearEnough(model: Model, means: seq<real>, marks: seq<int>)
    requires means != [] && marks != []
  {
    -0.8 <= model.ln(Median(marks) as real) - means[0] <= 0.8
  }

  lemma RefitGoesHalfWay(model: Model, f: Fold)
    requires |f.means| == 5 && f.marks != []
    ensures var g := Refit(model, f);
            if TwoKinds(f.marks) && NearEnough(model, f.means, f.marks)
            then g.means[0] == (f.means[0] + model.ln(Median(f.marks) as real)) / 2.0
                 && forall i :: 0 <= i < 5 ==> g.means[i] - f.means[i] == g.means[0] - f.means[0]
            else g.means == f.means
  {
    hide Sort, TwoKinds;
    SpreadOfSorted(f.marks);
  }

  lemma AdaptMoves(model: Model, f: Fold, length: int)
    requires |f.means| == 5
    ensures var new_, marks := Adapt(model, f, length).means, WithMark(f.marks, length);
            if 0 < length && 13 <= f.adaptCount && 7 <= |marks| && TwoKinds(marks) && NearEnough(model, f.means, marks)
            then new_[0] == (f.means[0] + model.ln(Median(marks) as real)) / 2.0
                 && forall i :: 0 <= i < 5 ==> new_[i] - f.means[i] == new_[0] - f.means[0]
            else new_ == f.means
  {
    hide Refit, TwoKinds, Median, NearEnough;
    if 0 < length {
      RefitGoesHalfWay(model, f.(marks := WithMark(f.marks, length), adaptCount := 0));
    }
  }

  /** At every fourteenth mark, and then only, the speed moves: where the last 64 marks hold both kinds
      and their median is near enough, the log-mean of the dit goes half way towards the logarithm of
      the median, and the other log-means move by as much. */
  lemma SpeedFollows(model: Model, lengths: seq<int>, length: int, closedAt: int)
    requires closedAt <= |lengths|
    ensures var old_, new_ := FoldAll(model, lengths, closedAt).means, FoldAll(model, lengths + [length], closedAt).means;
            var marks := Marks(lengths + [length]);
            if 0 < length && |marks| % 14 == 0 && TwoKinds(Recent(marks)) && NearEnough(model, old_, Recent(marks))
            then new_[0] == (old_[0] + model.ln(Median(Recent(marks)) as real)) / 2.0
                 && forall i :: 0 <= i < 5 ==> new_[i] - old_[i] == new_[0] - old_[0]
            else new_ == old_
  {
    hide Marks, Adapt, TwoKinds, Median, NearEnough, FoldAll, Recent, WithMark, Model.Classify;
    var f := FoldAll(model, lengths, closedAt);
    FoldNext(model, lengths, length, closedAt);
    MarksRemembered(model, lengths, closedAt);
    RecentNext(Marks(lengths), length);
    MarksNext(lengths, length);
    AdaptMoves(model, FoldText(f, model.Classify(f.means, length)), length);
  }
}
