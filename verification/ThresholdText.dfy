/** The threshold decoder's text as it runs: single characters, and letters glued together that are
    split at the longest codes. */
module ThresholdTexts {
  import opened RealNumbers
  import opened Sorting
  import opened Morse
  import opened ScrollText
  import CopyMarks

  /** Codes beyond letters and figures. */
  function Punctuation(pat: string): char {
    if pat == ".-.-.-" then '.'
    else if pat == "--..--" then ','
    else if pat == "..--.." then '?'
    else if pat == "-.-.--" then '!'
    else if pat == "-....-" then '-'
    else if pat == "-..-." then '/'
    else if pat == ".-.-." then '+'
    else if pat == "-...-" then '='
    else if pat == "...-.-" then '*'
    else NONE
  }

  /** `morseToChar` */
  function MorseToChar(pat: string): char {
    if CharOf(pat) != NONE then CharOf(pat) else Punctuation(pat)
  }

  lemma NotALetter(pat: string)
    requires Place(Key(pat, |pat|)) == 36
    ensures CharOf(pat) == NONE
  {
    hide CODES, Search, Key, Place;
    if CharOf(pat) != NONE {
      MorseSound(pat);
      CodePlace(PlaceOf(CharOf(pat)));
    }
  }

  /** Further signs come back from their codes. */
  lemma SignsComeBack()
    ensures MorseToChar(".-.-.-") == '.' && MorseToChar("--..--") == ',' && MorseToChar("..--..") == '?'
    ensures MorseToChar("-.-.--") == '!' && MorseToChar("-....-") == '-' && MorseToChar("-..-.") == '/'
    ensures MorseToChar(".-.-.") == '+' && MorseToChar("-...-") == '=' && MorseToChar("...-.-") == '*'
  {
    hide CharOf;
    LongIsNoLetter(".-.-.-");
    LongIsNoLetter("--..--");
    LongIsNoLetter("..--..");
    LongIsNoLetter("-.-.--");
    LongIsNoLetter("-....-");
    LongIsNoLetter("...-.-");
    FiveKeys();
    NotALetter("-..-.");
    NotALetter(".-.-.");
    NotALetter("-...-");
  }

  lemma FiveKeys()
    ensures Place(Key("-..-.", 5)) == 36 && Place(Key(".-.-.", 5)) == 36 && Place(Key("-...-", 5)) == 36
  {
    KeyOfFive("-..-.");
    KeyOfFive(".-.-.");
    KeyOfFive("-...-");
  }

  lemma KeyOfFive(pat: string)
    requires |pat| == 5
    ensures Key(pat, 5) == 32 + (if pat[0] == '-' then 16 else 0) + (if pat[1] == '-' then 8 else 0)
                              + (if pat[2] == '-' then 4 else 0) + (if pat[3] == '-' then 2 else 0) + (if pat[4] == '-' then 1 else 0)
  {
    assert Key(pat, 0) == 1;
    assert Key(pat, 2) == 2 * Key(pat, 1) + (if pat[1] == '-' then 1 else 0);
    assert Key(pat, 4) == 2 * Key(pat, 3) + (if pat[3] == '-' then 1 else 0);
  }

  // ---------------------------------------------------------------- the split

  predicate CodeAt(pat: string, i: nat, len: nat)
    requires i + len <= |pat|
  {
    MorseToChar(pat[i..i + len]) != NONE
  }

  /** The length of the longest code of at most `most` elements at position `i`, or 0. */
  function Longest(pat: string, i: nat, most: nat): (len: nat)
    requires i + most <= |pat|
    ensures len <= most
    decreases most
  {
    if most == 0 then 0
    else if CodeAt(pat, i, most) then most
    else Longest(pat, i, most - 1)
  }

  function MostAt(pat: string, i: nat): (most: nat)
    requires i <= |pat|
    ensures i + most <= |pat|
  {
    if |pat| - i < 6 then |pat| - i else 6
  }

  /** The pieces of a pattern from position `i` on; where no code fits, one element alone. */
  function Pieces(pat: string, i: nat): seq<string>
    requires i <= |pat|
    decreases |pat| - i
  {
    if i == |pat| then []
    else
      var len := Longest(pat, i, MostAt(pat, i));
      if len == 0 then [pat[i..i + 1]] + Pieces(pat, i + 1) else [pat[i..i + len]] + Pieces(pat, i + len)
  }

  function CharFor(piece: string): char {
    if MorseToChar(piece) == NONE then '?' else MorseToChar(piece)
  }

  function Chars(pieces: seq<string>): (chars: string)
    ensures |chars| == |pieces|
  {
    if pieces == [] then "" else [CharFor(pieces[0])] + Chars(pieces[1..])
  }

  function Joined(pieces: seq<string>): string {
    if pieces == [] then "" else pieces[0] + Joined(pieces[1..])
  }

  /** `emitChars` of a pattern. */
  function EmitChars(pat: string): string {
    if MorseToChar(pat) != NONE then [MorseToChar(pat)]
    else if |pat| >= 5 then Chars(Pieces(pat, 0))
    else "?"
  }

  lemma {:induction false} LongestIs(pat: string, i: nat, most: nat)
    requires i + most <= |pat|
    ensures forall k :: Longest(pat, i, most) < k <= most ==> !CodeAt(pat, i, k)
    ensures 0 < Longest(pat, i, most) ==> CodeAt(pat, i, Longest(pat, i, most))
  {
    hide CodeAt;
    if 0 < most {
      LongestIs(pat, i, most - 1);
    }
  }

  lemma SingleElements()
    ensures MorseToChar(".") == 'E' && MorseToChar("-") == 'T'
  {
    hide Search;
    MorseRoundTrip('E');
    MorseRoundTrip('T');
    ETCodes();
  }

  lemma ETCodes()
    ensures PatternOf('E') == "." && PatternOf('T') == "-"
  {
  }

  /** At every position at least the single element is a code. */
  lemma SomeCodeFits(pat: string, i: nat)
    requires i < |pat| && IsPattern(pat)
    ensures 0 < Longest(pat, i, MostAt(pat, i))
  {
    hide MorseToChar;
    SingleElements();
    assert pat[i] == '.' || pat[i] == '-';
    assert pat[i..i + 1] == [pat[i]];
    LongestIs(pat, i, MostAt(pat, i));
    assert CodeAt(pat, i, 1);
  }

  /** The codes of the pieces join to the pattern; each is a code, and the longest one that fits. */
  lemma {:induction false} PiecesCover(pat: string, i: nat)
    requires i <= |pat| && IsPattern(pat)
    ensures Joined(Pieces(pat, i)) == pat[i..]
    ensures forall p :: p in Pieces(pat, i) ==> MorseToChar(p) != NONE && p != ""
    decreases |pat| - i
  {
    hide MorseToChar, Longest;
    if i < |pat| {
      SomeCodeFits(pat, i);
      LongestIs(pat, i, MostAt(pat, i));
      var len := Longest(pat, i, MostAt(pat, i));
      PiecesCover(pat, i + len);
      assert pat[i..] == pat[i..i + len] + pat[i + len..];
      var rest := Pieces(pat, i + len);
      assert ([pat[i..i + len]] + rest)[1..] == rest;
    }
  }

  lemma QuestionCode(piece: string)
    requires MorseToChar(piece) != NONE
    ensures CharFor(piece) == '?' <==> piece == "..--.."
  {
    hide CharOf, PatternOf;
    if CharOf(piece) != NONE {
      MorseSound(piece);
      KnownIsNotQuestion(CharOf(piece));
      QuestionIsNoLetter(piece);
    }
  }

  lemma KnownIsNotQuestion(c: char)
    ensures Known(c) ==> c != '?'
  {
  }

  lemma QuestionIsNoLetter(piece: string)
    requires CharOf(piece) != NONE
    ensures piece != "..--.."
  {
    hide CODES, PatternOf, CharOf;
    MorseSound(piece);
    PatternShape(CharOf(piece));
  }

  lemma {:induction false} QuestionsAreCodes(pieces: seq<string>)
    requires forall p :: p in pieces ==> MorseToChar(p) != NONE
    ensures '?' in Chars(pieces) <==> "..--.." in pieces
  {
    hide MorseToChar, CharFor;
    if pieces != [] {
      QuestionCode(pieces[0]);
      QuestionsAreCodes(pieces[1..]);
      assert pieces == [pieces[0]] + pieces[1..];
    }
  }

  /** A split yields a question mark only where the code of the question mark stands in it. */
  lemma SplitQuestions(pat: string)
    requires IsPattern(pat)
    ensures '?' in Chars(Pieces(pat, 0)) <==> "..--.." in Pieces(pat, 0)
    ensures Joined(Pieces(pat, 0)) == pat
  {
    hide Chars, Pieces, MorseToChar;
    PiecesCover(pat, 0);
    QuestionsAreCodes(Pieces(pat, 0));
    assert pat[0..] == pat;
  }

  predicate StandsAt(pat: string, code: string, i: int) {
    0 <= i && i + |code| <= |pat| && pat[i..i + |code|] == code
  }

  lemma {:induction false} PiecesStandInside(pat: string, i: nat)
    requires i <= |pat|
    ensures forall p :: p in Pieces(pat, i) ==> exists k :: StandsAt(pat, p, k)
    decreases |pat| - i
  {
    hide Longest;
    if i < |pat| {
      var len := Longest(pat, i, MostAt(pat, i));
      var step := if len == 0 then 1 else len;
      PiecesStandInside(pat, i + step);
      assert StandsAt(pat, pat[i..i + step], i);
    }
  }

  /** A caller can see beforehand that no question mark will come: its code stands nowhere in the
      pattern. */
  lemma NoQuestionInside(pat: string)
    requires IsPattern(pat) && forall k :: !StandsAt(pat, "..--..", k)
    ensures '?' !in Chars(Pieces(pat, 0))
  {
    hide Chars, Pieces;
    SplitQuestions(pat);
    PiecesStandInside(pat, 0);
  }

  lemma LongIsNoLetter(pat: string)
    requires 5 < |pat|
    ensures CharOf(pat) == NONE
  {
    hide CharOf, PatternOf;
    if CharOf(pat) != NONE {
      MorseSound(pat);
      PatternShape(CharOf(pat));
    }
  }

  /** So "the split never yields a question mark" fails: this pattern is no code, and its longest
      codes are that of the question mark and E. */
  lemma SplitCanYieldQuestion()
    ensures MorseToChar("..--...") == NONE && EmitChars("..--...") == "?E"
  {
    hide CharOf;
    var pat := "..--...";
    LongIsNoLetter(pat);
    LongIsNoLetter("..--..");
    SingleElements();
    assert pat[0..6] == "..--.." && pat[6..7] == ".";
    assert CodeAt(pat, 0, 6) && CodeAt(pat, 6, 1);
    assert Pieces(pat, 7) == [];
    assert Pieces(pat, 6) == ["."];
    assert Pieces(pat, 0) == ["..--..", "."];
    assert Chars(["."]) == "E";
    assert ["..--..", "."][1..] == ["."];
  }

  // ---------------------------------------------------------------- what is dropped

  const MAX_PEAKS := 12
  const NO_PEAK := -200.0
  const HEARD_PEAK := -180.0

  function MarksPattern(durs: seq<real>, unit: real): (pat: string)
    ensures |pat| == |durs| && IsPattern(pat)
  {
    seq(|durs|, k requires 0 <= k < |durs| => if durs[k] >= unit * 1.90 then '-' else '.')
  }

  function Loudest(peaks: seq<real>, n: nat): real
    requires n <= |peaks|
  {
    if n == 0 then NO_PEAK else Max(Loudest(peaks, n - 1), peaks[n - 1])
  }

  /** No peak is louder, and it is that of one of the marks. */
  lemma {:induction false} LoudestSays(peaks: seq<real>, n: nat)
    requires n <= |peaks|
    ensures forall k :: 0 <= k < n ==> peaks[k] <= Loudest(peaks, n)
    ensures Loudest(peaks, n) == NO_PEAK || exists k :: 0 <= k < n && peaks[k] == Loudest(peaks, n)
  {
    if 0 < n {
      LoudestSays(peaks, n - 1);
    }
  }

  /** A single mark too short for an E or a T. */
  predicate TooShort(durs: seq<real>, unit: real, calibrated: bool) {
    |durs| == 1 &&
    if durs[0] >= unit * 1.90 then durs[0] < (if calibrated then Max(0.10, unit * 1.05) else 0.12)
    else durs[0] < (if calibrated then Max(0.015, unit * 0.28) else 0.015)
  }

  /** A single character that is likely noise: of one mark, barely above the threshold and far below
      the marks before, and of no plausible length. */
  predicate Faint(emit: string, durs: seq<real>, text: string, recent: seq<real>, peak: real, unit: real, threshold: real) {
    && |emit| == 1 && recent != [] && |text| >= 4 && |durs| == 1
    && CopyMarks.Upper(emit[0]) in ['I', 'E', 'T', '?']
    && !(CopyMarks.Upper(emit[0]) == 'E' && durs[0] >= unit * 0.28)
    && !(CopyMarks.Upper(emit[0]) == 'T' && durs[0] >= unit * 1.0)
    && peak < MedianOf(recent) - 8.0 && peak < threshold + 2.5
  }

  predicate Drops(durs: seq<real>, peaks: seq<real>, text: string, recent: seq<real>, unit: real, calibrated: bool, threshold: real) {
    durs == [] || TooShort(durs, unit, calibrated)
    || Faint(EmitChars(MarksPattern(durs, unit)), durs, text, recent, Loudest(peaks, |peaks|), unit, threshold)
  }

  /** Only single marks are ever dropped; and of those no T that is long enough, and no E that
      passes the first filter of a calibrated decoder. */
  lemma LettersAreKept(durs: seq<real>, peaks: seq<real>, text: string, recent: seq<real>, unit: real, calibrated: bool,
                       threshold: real)
    requires 0.0 < unit
    ensures 2 <= |durs| ==> !Drops(durs, peaks, text, recent, unit, calibrated, threshold)
    ensures |durs| == 1 && durs[0] >= unit * 1.90 && !TooShort(durs, unit, calibrated) ==>
              !Drops(durs, peaks, text, recent, unit, calibrated, threshold)
    ensures |durs| == 1 && calibrated && !TooShort(durs, unit, calibrated) ==>
              !Drops(durs, peaks, text, recent, unit, calibrated, threshold)
  {
    hide MorseToChar, MedianOf, Loudest, Pieces, Chars;
    if |durs| == 1 {
      SingleElements();
      var pat := MarksPattern(durs, unit);
      assert pat == (if durs[0] >= unit * 1.90 then "-" else ".");
    }
  }

  /** What must be dropped is: a single mark of less than 15 ms, one of dah length below 100 ms, and in
      a calibrated decoder one of dit length below 0.28 units. */
  lemma ShortMarksDropped(dur: real, peaks: seq<real>, text: string, recent: seq<real>, unit: real, calibrated: bool,
                          threshold: real)
    requires dur < 0.015 || unit * 1.90 <= dur < 0.10 || (calibrated && dur < unit * 1.90 && dur < unit * 0.28)
    ensures Drops([dur], peaks, text, recent, unit, calibrated, threshold)
  {
    hide Faint, EmitChars, Loudest;
  }

  /** A faint dit is dropped where marks were heard before, whether the speed is known or not: below
      their median by more than 8 dB, within 2.5 dB of the threshold, and shorter than 0.28 units. */
  lemma FaintMarksDropped(dur: real, peaks: seq<real>, text: string, recent: seq<real>, unit: real, calibrated: bool,
                          threshold: real)
    requires recent != [] && 4 <= |text| && 0.0 < unit && dur < unit * 0.28
    requires Loudest(peaks, |peaks|) < MedianOf(recent) - 8.0 && Loudest(peaks, |peaks|) < threshold + 2.5
    ensures Drops([dur], peaks, text, recent, unit, calibrated, threshold)
  {
    hide MorseToChar, MedianOf, Loudest, Pieces, Chars;
    SingleElements();
    assert MarksPattern([dur], unit) == ".";
  }

  /** Marks that are dahs where the code of a letter or figure has them are emitted as that character. */
  lemma LetterComesBack(durs: seq<real>, unit: real, c: char)
    requires Known(c) && |durs| == |PatternOf(c)|
    requires forall k :: 0 <= k < |durs| ==> (durs[k] >= unit * 1.90 <==> PatternOf(c)[k] == '-')
    ensures EmitChars(MarksPattern(durs, unit)) == [c]
  {
    hide PatternOf, CharOf, Pieces, Chars;
    PatternShape(c);
    assert MarksPattern(durs, unit) == PatternOf(c);
    MorseRoundTrip(c);
  }

  function PeaksAfter(recent: seq<real>, peak: real): (r: seq<real>)
    ensures |recent| <= MAX_PEAKS ==> |r| <= MAX_PEAKS
    ensures peak > -180.0 ==> r != [] && r[|r| - 1] == peak && |r| == if |recent| < 12 then |recent| + 1 else 12
    ensures peak <= -180.0 ==> r == recent
  {
    if peak <= HEARD_PEAK then recent
    else if |recent| + 1 > MAX_PEAKS then (recent + [peak])[|recent| + 1 - MAX_PEAKS..]
    else recent + [peak]
  }

  // ---------------------------------------------------------------- as it runs

  /** The inner loop of the split: lengths are tried from the longest down. */
  method FindCode(pattern: string, i: nat) returns (matched: bool, len: nat)
    requires i < |pattern|
    ensures len == Longest(pattern, i, MostAt(pattern, i)) && (matched <==> len != 0)
  {
    hide MorseToChar;
    matched := false;
    len := if 6 < |pattern| - i then 6 else |pattern| - i;
    while len >= 1
      invariant len <= MostAt(pattern, i) && Longest(pattern, i, len) == Longest(pattern, i, MostAt(pattern, i))
    {
      if MorseToChar(pattern[i..i + len]) != NONE {
        matched := true;
        break;
      }
      len := len - 1;
    }
  }

  /** The loops of `emitOneLetter` over a glued pattern. */
  method SplitGlued(pattern: string) returns (emit: string)
    ensures emit == Chars(Pieces(pattern, 0))
  {
    hide MorseToChar, Longest, Pieces, Chars, MostAt;
    emit := "";
    var i := 0;
    while i < |pattern|
      invariant 0 <= i <= |pattern| && emit + Chars(Pieces(pattern, i)) == Chars(Pieces(pattern, 0))
    {
      var matched, len := FindCode(pattern, i);
      NextPiece(pattern, i);
      var step, ch := 1, '?';
      if matched {
        step, ch := len, MorseToChar(pattern[i..i + len]);
      }
      assert emit + ([ch] + Chars(Pieces(pattern, i + step))) == emit + [ch] + Chars(Pieces(pattern, i + step));
      emit := emit + [ch];
      i := i + step;
    }
    NoPieces(pattern);
  }

  lemma NoPieces(pat: string)
    ensures Chars(Pieces(pat, |pat|)) == ""
  {
  }

  lemma NextPiece(pat: string, i: nat)
    requires i < |pat|
    ensures var len := Longest(pat, i, MostAt(pat, i));
            var step := if len == 0 then 1 else len;
            && i + step <= |pat|
            && Chars(Pieces(pat, i)) == [CharFor(pat[i..i + step])] + Chars(Pieces(pat, i + step))
            && (len == 0 ==> MorseToChar(pat[i..i + step]) == NONE)
            && (0 < len ==> MorseToChar(pat[i..i + step]) != NONE)
  {
    hide MorseToChar;
    LongestIs(pat, i, MostAt(pat, i));
    assert Longest(pat, i, MostAt(pat, i)) == 0 ==> !CodeAt(pat, i, 1);
    var len := Longest(pat, i, MostAt(pat, i));
    var step := if len == 0 then 1 else len;
    assert ([pat[i..i + step]] + Pieces(pat, i + step))[1..] == Pieces(pat, i + step);
  }

  class ThresholdText {
    var scrollText: string
    var recentChars: string
    var spamHintCount: int
    var unitSeconds: real
    var unitCalibrated: bool
    var thresholdDb: real
    var recentLetterPeaks: seq<real>

    ghost function View(): Scroll
      reads this
    {
      Scroll(scrollText, recentChars, spamHintCount)
    }

    constructor ()
      ensures View() == CLEAR && recentLetterPeaks == []
    {
      scrollText, recentChars, spamHintCount := "", "", 0;
      unitSeconds, unitCalibrated, thresholdDb, recentLetterPeaks := 0.1, false, -80.0, [];
    }

    /** `clearDecode` */
    method ClearDecode()
      modifies `scrollText, `recentChars, `spamHintCount
      ensures View() == CLEAR
    {
      scrollText, recentChars, spamHintCount := "", "", 0;
    }

    /** `maybeInsertProtocolSpace` */
    method MaybeInsertProtocolSpace(next: char)
      modifies `scrollText
      ensures scrollText == WithProtocolSpace(old(scrollText), next)
    {
      hide EndsWith;
      if next == ' ' || scrollText == "" || EndsWith(scrollText, " ") {
        return;
      }
      if CopyMarks.Upper(next) == 'D' {
        if EndsWith(scrollText, "CQ") || scrollText == "Q" || EndsWith(scrollText, " Q") {
          ghost var was := scrollText;
          scrollText := scrollText + " ";
          SpaceEnds(was);
        }
      }
      if EndsWith(scrollText, "DE") || EndsWith(scrollText, " DE") {
        scrollText := scrollText + " ";
      }
    }

    /** `trimScrollBuffer` */
    method TrimScrollBuffer()
      modifies `scrollText
      ensures scrollText == Trimmed(old(scrollText))
    {
      if |scrollText| <= MAX_SCROLL {
        return;
      }
      var drop := |scrollText| - MAX_SCROLL + 200;
      var cut := drop;
      var sp := SpaceFrom(scrollText, drop - 40);
      if sp >= 0 && sp < drop + 80 {
        cut := sp + 1;
      }
      if cut <= |scrollText| {
        scrollText := scrollText[cut..];
      }
    }

    method CountTe() returns (te: nat)
      ensures te == TeCount(recentChars, |recentChars|)
    {
      te := 0;
      for i := 0 to |recentChars|
        invariant te == TeCount(recentChars, i)
      {
        if recentChars[i] == 'T' || recentChars[i] == 'E' {
          te := te + 1;
        }
      }
    }

    /** `appendChar` */
    method AppendChar(ch: char)
      modifies `scrollText, `recentChars, `spamHintCount
      ensures View() == Appended(old(View()), ch)
    {
      hide EndsWith, WithProtocolSpace, Trimmed, TeCount;
      if ch == ' ' && (scrollText == "" || EndsWith(scrollText, " ")) {
        return;
      }
      if ch != ' ' {
        MaybeInsertProtocolSpace(ch);
        var te := CountTe();
        var n := |recentChars|;
        if n >= 10 && te * 100 / n >= 80 && (ch == 'T' || ch == 'E') {
          spamHintCount := if 10 < spamHintCount + 1 then 10 else spamHintCount + 1;
          return;
        }
        recentChars := recentChars + [CopyMarks.Upper(ch)];
        if |recentChars| > MAX_RECENT {
          recentChars := recentChars[|recentChars| - MAX_RECENT..];
        }
        te := CountTe();
        if |recentChars| >= 8 && te * 100 / |recentChars| >= 75 {
          spamHintCount := if 10 < spamHintCount + 1 then 10 else spamHintCount + 1;
        } else {
          spamHintCount := if spamHintCount - 1 < 0 then 0 else spamHintCount - 1;
        }
      }
      scrollText := scrollText + [ch];
      TrimScrollBuffer();
    }

    /** The characters of a pattern. */
    method CharsOf(pattern: string) returns (emit: string)
      ensures emit == EmitChars(pattern)
    {
      hide MorseToChar, Pieces, Chars;
      emit := "?";
      var rawCh := MorseToChar(pattern);
      if rawCh != NONE {
        emit := [rawCh];
      } else if |pattern| >= 5 {
        emit := SplitGlued(pattern);
      }
    }

    /** `noteMarkPeak` behind a letter that was heard. */
    method NotePeak(peak: real)
      modifies `recentLetterPeaks
      ensures recentLetterPeaks == PeaksAfter(old(recentLetterPeaks), peak)
    {
      if peak > HEARD_PEAK {
        recentLetterPeaks := recentLetterPeaks + [peak];
        if |recentLetterPeaks| > MAX_PEAKS {
          recentLetterPeaks := recentLetterPeaks[|recentLetterPeaks| - MAX_PEAKS..];
        }
      }
    }

    /** Pattern and loudest peak of the marks of a letter. */
    method Gather(durs: seq<real>, peaks: seq<real>) returns (pattern: string, letterPeak: real)
      ensures pattern == MarksPattern(durs, unitSeconds) && letterPeak == Loudest(peaks, |peaks|)
    {
      pattern := "";
      for k := 0 to |durs|
        invariant pattern == MarksPattern(durs, unitSeconds)[..k]
      {
        pattern := pattern + (if durs[k] >= unitSeconds * 1.90 then "-" else ".");
      }
      letterPeak := NO_PEAK;
      for k := 0 to |peaks|
        invariant letterPeak == Loudest(peaks, k)
      {
        letterPeak := Max(letterPeak, peaks[k]);
      }
    }

    /** `emitOneLetter`: unless the letter is dropped, its characters are appended one by one. */
    method EmitOneLetter(durs: seq<real>, peaks: seq<real>)
      modifies `scrollText, `recentChars, `spamHintCount, `recentLetterPeaks
      ensures var emit := EmitChars(MarksPattern(durs, unitSeconds));
              if Drops(durs, peaks, old(scrollText), old(recentLetterPeaks), unitSeconds, unitCalibrated, thresholdDb)
              then View() == old(View()) && recentLetterPeaks == old(recentLetterPeaks)
              else View() == AppendedAll(old(View()), emit, |emit|)
                   && recentLetterPeaks == PeaksAfter(old(recentLetterPeaks), Loudest(peaks, |peaks|))
    {
      hide MorseToChar, Appended, EmitChars, Loudest, MarksPattern, MedianOf, TooShort, Faint, PeaksAfter;
      if durs == [] {
        return;
      }
      var pattern, letterPeak := Gather(durs, peaks);
      if TooShort(durs, unitSeconds, unitCalibrated) {
        return;
      }
      var emit := CharsOf(pattern);
      if Faint(emit, durs, scrollText, recentLetterPeaks, letterPeak, unitSeconds, thresholdDb) {
        return;
      }
      for ci := 0 to |emit|
        invariant View() == AppendedAll(old(View()), emit, ci) && recentLetterPeaks == old(recentLetterPeaks)
      {
        AppendChar(emit[ci]);
      }
      NotePeak(letterPeak);
    }
  }

  lemma SpaceEnds(text: string)
    ensures !EndsWith(text + " ", "DE") && !EndsWith(text + " ", " DE")
  {
    hide EndsWith;
    LastIs(text + " ", "DE");
    LastIs(text + " ", " DE");
  }

  lemma LastIs(text: string, end: string)
    requires end != ""
    ensures EndsWith(text, end) ==> text != "" && text[|text| - 1] == end[|end| - 1]
  {
    if EndsWith(text, end) {
      assert text[|text| - |end|..][|end| - 1] == text[|text| - 1];
    }
  }
}
