/** Call signs. `isCallSign` is a loop over prefix lengths; it accepts exactly the language of the
    regular expression that describes it. */
module CallSigns {
  datatype Regex = Class(lo: char, hi: char) | Cat(left: Regex, right: Regex) | Alt(one: Regex, other: Regex)
                 | Repeat(body: Regex, least: nat, most: nat)

  ghost predicate Matches(r: Regex, s: string)
    decreases r, 0
  {
    match r
    case Class(lo, hi) => |s| == 1 && lo <= s[0] <= hi
    case Cat(a, b) => exists i :: 0 <= i <= |s| && Matches(a, s[..i]) && Matches(b, s[i..])
    case Alt(a, b) => Matches(a, s) || Matches(b, s)
    case Repeat(body, least, most) => MatchesTimes(body, least, most, s)
  }

  ghost predicate MatchesTimes(r: Regex, least: nat, most: nat, s: string)
    decreases r, most + 1
  {
    (least == 0 && s == "")
    || (0 < most && exists i :: 0 <= i <= |s| && Matches(r, s[..i])
                                && MatchesTimes(r, if least == 0 then 0 else least - 1, most - 1, s[i..]))
  }

  const LETTER := Class('A', 'Z')
  const DIGIT := Class('0', '9')

  /** (?:[A-Z]{1,2}[0-9]{1,2}|[0-9][A-Z][0-9])[A-Z]{1,4} */
  const CALL_SIGN :=
    Cat(Alt(Cat(Repeat(LETTER, 1, 2), Repeat(DIGIT, 1, 2)), Cat(DIGIT, Cat(LETTER, DIGIT))), Repeat(LETTER, 1, 4))

  predicate Only(lo: char, hi: char, key: string, begin: int, end: int)
    requires 0 <= begin <= end <= |key|
  {
    forall i :: begin <= i < end ==> lo <= key[i] <= hi
  }

  // ---------------------------------------------------------------- the code

  /** `lettersOnly`, `digitsOnly` */
  method ScanOnly(lo: char, hi: char, key: string, begin: int, end: int) returns (only: bool)
    requires 0 <= begin <= end <= |key|
    ensures only == Only(lo, hi, key, begin, end)
  {
    for i := begin to end
      invariant Only(lo, hi, key, begin, i)
    {
      if key[i] < lo || key[i] > hi {
        return false;
      }
    }
    return true;
  }

  /** One or two letters, one or two digits, one to four letters. */
  predicate Usual(key: string, letters: int, digits: int) {
    && 1 <= letters <= 2 && 1 <= digits <= 2 && letters + digits < |key| <= letters + digits + 4
    && Only('A', 'Z', key, 0, letters) && Only('0', '9', key, letters, letters + digits)
    && Only('A', 'Z', key, letters + digits, |key|)
  }

  /** Digit, letter, digit, one to four letters. */
  predicate Unusual(key: string) {
    4 <= |key| <= 7 && '0' <= key[0] <= '9' && 'A' <= key[1] <= 'Z' && '0' <= key[2] <= '9' && Only('A', 'Z', key, 3, |key|)
  }

  predicate CallSign(key: string) {
    Usual(key, 1, 1) || Usual(key, 1, 2) || Usual(key, 2, 1) || Usual(key, 2, 2) || Unusual(key)
  }

  /** `isCallSign` */
  method IsCallSign(key: string) returns (yes: bool)
    ensures yes == CallSign(key)
  {
    var n := |key|;
    if n < 3 || n > 8 {
      return false;
    }
    for letters := 1 to 3
      invariant forall l, d :: 1 <= l < letters && 1 <= d <= 2 ==> !Usual(key, l, d)
    {
      var front := ScanOnly('A', 'Z', key, 0, letters);
      if !front {
        break;
      }
      for digits := 1 to 3
        invariant forall d :: 1 <= d < digits ==> !Usual(key, letters, d)
      {
        var prefix := letters + digits;
        if prefix >= n {
          continue;
        }
        var middle := ScanOnly('0', '9', key, letters, prefix);
        if !middle {
          continue;
        }
        var suffix := n - prefix;
        if suffix >= 1 && suffix <= 4 {
          var back := ScanOnly('A', 'Z', key, prefix, n);
          if back {
            return true;
          }
        }
      }
    }
    assert forall d :: !Usual(key, 1, d);
    assert forall d :: !Usual(key, 2, d);
    if n >= 4 && n <= 7 && '0' <= key[0] <= '9' && 'A' <= key[1] <= 'Z' && '0' <= key[2] <= '9' {
      var back := ScanOnly('A', 'Z', key, 3, n);
      if back {
        return true;
      }
    }
    return false;
  }

  // ---------------------------------------------------------------- the language

  predicate AllIn(lo: char, hi: char, s: string) {
    forall i :: 0 <= i < |s| ==> lo <= s[i] <= hi
  }

  lemma AllInRest(lo: char, hi: char, s: string)
    requires s != ""
    ensures AllIn(lo, hi, s) <==> lo <= s[0] <= hi && AllIn(lo, hi, s[1..])
  {
    if AllIn(lo, hi, s[1..]) && lo <= s[0] <= hi {
      forall i | 0 <= i < |s| ensures lo <= s[i] <= hi {
        assert 0 < i ==> s[i] == s[1..][i - 1];
      }
    }
  }

  /** A repeated character class: so many characters, all in the class. */
  lemma {:induction false} ClassTimes(lo: char, hi: char, least: nat, most: nat, s: string)
    ensures MatchesTimes(Class(lo, hi), least, most, s) <==> least <= |s| <= most && AllIn(lo, hi, s)
    decreases most
  {
    hide AllIn;
    var less: nat := if least == 0 then 0 else least - 1;
    if s == "" {
      EmptyAllIn(lo, hi);
      forall i | 0 <= i <= |s| ensures !Matches(Class(lo, hi), s[..i]) {
        assert |s[..i]| == 0;
      }
    } else if 0 < most {
      AllInRest(lo, hi, s);
      ClassTimes(lo, hi, less, most - 1, s[1..]);
      if MatchesTimes(Class(lo, hi), least, most, s) {
        var i :| 0 <= i <= |s| && Matches(Class(lo, hi), s[..i]) && MatchesTimes(Class(lo, hi), less, most - 1, s[i..]);
        assert i == 1;
      }
      if least <= |s| <= most && AllIn(lo, hi, s) {
        assert Matches(Class(lo, hi), s[..1]) && MatchesTimes(Class(lo, hi), less, most - 1, s[1..]);
      }
    }
  }

  lemma EmptyAllIn(lo: char, hi: char)
    ensures AllIn(lo, hi, "")
  {
  }

  lemma OnlyIsAllIn(lo: char, hi: char, key: string, begin: int, end: int)
    requires 0 <= begin <= end <= |key|
    ensures Only(lo, hi, key, begin, end) <==> AllIn(lo, hi, key[begin..end])
  {
    if AllIn(lo, hi, key[begin..end]) {
      forall i | begin <= i < end ensures lo <= key[i] <= hi {
        assert key[i] == key[begin..end][i - begin];
      }
    }
  }

  const FRONT := Cat(Repeat(LETTER, 1, 2), Repeat(DIGIT, 1, 2))
  const ODD_FRONT := Cat(DIGIT, Cat(LETTER, DIGIT))
  const BACK := Repeat(LETTER, 1, 4)

  lemma FrontMatches(s: string)
    ensures Matches(FRONT, s) <==>
            exists l :: 0 <= l <= |s| && 1 <= l <= 2 && 1 <= |s| - l <= 2 && AllIn('A', 'Z', s[..l]) && AllIn('0', '9', s[l..])
  {
    hide AllIn, MatchesTimes;
    forall l | 0 <= l <= |s|
      ensures Matches(Repeat(LETTER, 1, 2), s[..l]) <==> 1 <= l <= 2 && AllIn('A', 'Z', s[..l])
      ensures Matches(Repeat(DIGIT, 1, 2), s[l..]) <==> 1 <= |s| - l <= 2 && AllIn('0', '9', s[l..]) {
      ClassTimes('A', 'Z', 1, 2, s[..l]);
      ClassTimes('0', '9', 1, 2, s[l..]);
    }
  }

  lemma OddFrontMatches(s: string)
    ensures Matches(ODD_FRONT, s) <==> |s| == 3 && '0' <= s[0] <= '9' && 'A' <= s[1] <= 'Z' && '0' <= s[2] <= '9'
  {
    if |s| == 3 && '0' <= s[0] <= '9' && 'A' <= s[1] <= 'Z' && '0' <= s[2] <= '9' {
      assert Matches(DIGIT, s[..1]);
      assert s[1..][..1] == [s[1]] && s[1..][1..] == [s[2]];
      assert Matches(LETTER, s[1..][..1]) && Matches(DIGIT, s[1..][1..]);
      assert Matches(Cat(LETTER, DIGIT), s[1..]);
    }
  }

  lemma BackMatches(s: string)
    ensures Matches(BACK, s) <==> 1 <= |s| <= 4 && AllIn('A', 'Z', s)
  {
    hide AllIn, MatchesTimes;
    ClassTimes('A', 'Z', 1, 4, s);
  }

  /** The expression splits a key in front and back. */
  lemma WholeMatches(key: string)
    ensures Matches(CALL_SIGN, key) <==>
            exists p :: 0 <= p <= |key| && (Matches(FRONT, key[..p]) || Matches(ODD_FRONT, key[..p])) && Matches(BACK, key[p..])
  {
    forall p | 0 <= p <= |key|
      ensures Matches(Alt(FRONT, ODD_FRONT), key[..p]) <==> Matches(FRONT, key[..p]) || Matches(ODD_FRONT, key[..p]) {
    }
    assert CALL_SIGN == Cat(Alt(FRONT, ODD_FRONT), BACK);
  }

  lemma UsualMatches(key: string, l: int, d: int)
    requires Usual(key, l, d)
    ensures Matches(CALL_SIGN, key)
  {
    hide Only, AllIn, Matches;
    var p := l + d;
    OnlyIsAllIn('A', 'Z', key, 0, l);
    OnlyIsAllIn('0', '9', key, l, p);
    OnlyIsAllIn('A', 'Z', key, p, |key|);
    assert key[..p][..l] == key[0..l] && key[..p][l..] == key[l..p] && key[p..|key|] == key[p..];
    FrontMatches(key[..p]);
    BackMatches(key[p..]);
    WholeMatches(key);
  }

  lemma UnusualMatches(key: string)
    requires Unusual(key)
    ensures Matches(CALL_SIGN, key)
  {
    hide Only, AllIn, Matches;
    OnlyIsAllIn('A', 'Z', key, 3, |key|);
    assert key[3..|key|] == key[3..];
    OddFrontMatches(key[..3]);
    BackMatches(key[3..]);
    WholeMatches(key);
  }

  lemma MatchIsCallSign(key: string)
    requires Matches(CALL_SIGN, key)
    ensures CallSign(key)
  {
    hide Only, AllIn, Matches;
    WholeMatches(key);
    var p :| 0 <= p <= |key| && (Matches(FRONT, key[..p]) || Matches(ODD_FRONT, key[..p])) && Matches(BACK, key[p..]);
    BackMatches(key[p..]);
    OnlyIsAllIn('A', 'Z', key, p, |key|);
    assert key[p..|key|] == key[p..];
    if Matches(FRONT, key[..p]) {
      FrontMatches(key[..p]);
      var s := key[..p];
      var l :| 0 <= l <= |s| && 1 <= l <= 2 && 1 <= |s| - l <= 2 && AllIn('A', 'Z', s[..l]) && AllIn('0', '9', s[l..]);
      OnlyIsAllIn('A', 'Z', key, 0, l);
      OnlyIsAllIn('0', '9', key, l, p);
      assert s[..l] == key[0..l] && s[l..] == key[l..p];
      assert Usual(key, l, p - l);
    } else {
      OddFrontMatches(key[..p]);
    }
  }

  /** The loops accept exactly the language of the expression. */
  lemma CallSignIsRegex(key: string)
    ensures CallSign(key) <==> Matches(CALL_SIGN, key)
  {
    hide Usual, Unusual, Matches;
    if CallSign(key) {
      if Unusual(key) {
        UnusualMatches(key);
      } else {
        var l, d :| 1 <= l <= 2 && 1 <= d <= 2 && Usual(key, l, d);
        UsualMatches(key, l, d);
      }
    }
    if Matches(CALL_SIGN, key) {
      MatchIsCallSign(key);
    }
  }
}
