/** The language of the phone_number pattern, as a whole-string recogniser
    built from the pattern's three alternatives:
      \d{3}[-\.\s]??\d{3}[-\.\s]??\d{4}
      \(\d{3}\)\s*\d{3}[-\.\s]??\d{4}
      \d{3}[-\.\s]??\d{4}
    The lazy `??` only changes which match the engine tries first, not the
    set of strings matched, so it reads here as a plain optional. */
module PhonePattern {
  import opened Chars

  /** `[-\.\s]`. */
  predicate IsSep(c: char) {
    c == '-' || c == '.' || IsSpace(c)
  }

  /** `[-\.\s]??\d{n}`: `n` digits, optionally preceded by one separator. */
  predicate SepDigits(s: string, n: nat) {
    Digits(s, n) || (|s| == n + 1 && IsSep(s[0]) && Digits(s[1..], n))
  }

  /** `\d{3}[-\.\s]??\d{4}`: a seven-digit local number. */
  predicate LocalNumber(s: string) {
    |s| >= 3 && Digits(s[..3], 3) && SepDigits(s[3..], 4)
  }

  /** `[-\.\s]??\d{3}[-\.\s]??\d{4}`. */
  predicate SepLocal(s: string) {
    LocalNumber(s) || (|s| > 0 && IsSep(s[0]) && LocalNumber(s[1..]))
  }

  /** `\d{3}[-\.\s]??\d{3}[-\.\s]??\d{4}`: area code, exchange and line number. */
  predicate FullNumber(s: string) {
    |s| >= 3 && Digits(s[..3], 3) && SepLocal(s[3..])
  }

  /** `\s*\d{3}[-\.\s]??\d{4}`. */
  predicate SpacedLocal(s: string)
    decreases |s|
  {
    LocalNumber(s) || (|s| > 0 && IsSpace(s[0]) && SpacedLocal(s[1..]))
  }

  /** `\(\d{3}\)\s*\d{3}[-\.\s]??\d{4}`: parenthesised area code. */
  predicate ParenNumber(s: string) {
    |s| >= 5 && s[0] == '(' && Digits(s[1..4], 3) && s[4] == ')' && SpacedLocal(s[5..])
  }

  /** The phone_number language: the union of the three alternatives. */
  predicate PhoneMatch(s: string) {
    FullNumber(s) || ParenNumber(s) || LocalNumber(s)
  }

  /** Apart from digits, a matched string holds only separators, and a
      parenthesis only around the area code. */
  ghost predicate OnlyPhoneChars(s: string) {
    forall i :: 0 <= i < |s| && !IsDigit(s[i]) ==>
      IsSep(s[i]) || (i == 0 && s[i] == '(') || (i == 4 && s[i] == ')')
  }

  lemma SepDigitsShape(s: string, n: nat)
    requires SepDigits(s, n)
    ensures DigitCount(s) == n
    ensures forall i :: 0 <= i < |s| && !IsDigit(s[i]) ==> i == 0 && IsSep(s[i])
  {
    if Digits(s, n) {
      DigitCountAll(s);
    } else {
      assert s == [s[0]] + s[1..];
      DigitCountAppend([s[0]], s[1..]);
      DigitCountAll(s[1..]);
    }
  }

  lemma LocalNumberShape(s: string)
    requires LocalNumber(s)
    ensures DigitCount(s) == 7
    ensures forall i :: 0 <= i < |s| && !IsDigit(s[i]) ==> IsSep(s[i])
  {
    assert s == s[..3] + s[3..];
    DigitCountAppend(s[..3], s[3..]);
    DigitCountAll(s[..3]);
    SepDigitsShape(s[3..], 4);
    forall i | 0 <= i < |s| && !IsDigit(s[i])
      ensures IsSep(s[i])
    {
      assert i >= 3 && s[i] == s[3..][i - 3];
    }
  }

  lemma SepLocalShape(s: string)
    requires SepLocal(s)
    ensures DigitCount(s) == 7
    ensures forall i :: 0 <= i < |s| && !IsDigit(s[i]) ==> IsSep(s[i])
  {
    if LocalNumber(s) {
      LocalNumberShape(s);
    } else {
      assert s == [s[0]] + s[1..];
      DigitCountAppend([s[0]], s[1..]);
      LocalNumberShape(s[1..]);
      forall i | 0 < i < |s| && !IsDigit(s[i])
        ensures IsSep(s[i])
      {
        assert s[i] == s[1..][i - 1];
      }
    }
  }

  lemma {:induction false} SpacedLocalShape(s: string)
    requires SpacedLocal(s)
    ensures DigitCount(s) == 7
    ensures forall i :: 0 <= i < |s| && !IsDigit(s[i]) ==> IsSep(s[i])
    decreases |s|
  {
    if LocalNumber(s) {
      LocalNumberShape(s);
    } else {
      assert s == [s[0]] + s[1..];
      DigitCountAppend([s[0]], s[1..]);
      SpacedLocalShape(s[1..]);
      forall i | 0 < i < |s| && !IsDigit(s[i])
        ensures IsSep(s[i])
      {
        assert s[i] == s[1..][i - 1];
      }
    }
  }

  /** Every phone_number match holds exactly 7 or 10 digits (10 for the two
      forms with an area code), and its other characters are separators or
      the parentheses around the area code. */
  lemma PhoneMatchShape(s: string)
    requires PhoneMatch(s)
    ensures DigitCount(s) == 7 || DigitCount(s) == 10
    ensures FullNumber(s) || ParenNumber(s) ==> DigitCount(s) == 10
    ensures LocalNumber(s) ==> DigitCount(s) == 7
    ensures OnlyPhoneChars(s)
  {
    if LocalNumber(s) {
      LocalNumberShape(s);
    }
    if FullNumber(s) {
      assert s == s[..3] + s[3..];
      DigitCountAppend(s[..3], s[3..]);
      DigitCountAll(s[..3]);
      SepLocalShape(s[3..]);
      forall i | 0 <= i < |s| && !IsDigit(s[i])
        ensures IsSep(s[i])
      {
        assert i >= 3 && s[i] == s[3..][i - 3];
      }
    }
    if ParenNumber(s) {
      assert s == [s[0]] + s[1..4] + [s[4]] + s[5..];
      DigitCountAppend([s[0]] + s[1..4] + [s[4]], s[5..]);
      DigitCountAppend([s[0]] + s[1..4], [s[4]]);
      DigitCountAppend([s[0]], s[1..4]);
      DigitCountAll(s[1..4]);
      SpacedLocalShape(s[5..]);
      forall i | 0 <= i < |s| && !IsDigit(s[i])
        ensures IsSep(s[i]) || (i == 0 && s[i] == '(') || (i == 4 && s[i] == ')')
      {
        if i >= 5 {
          assert s[i] == s[5..][i - 5];
        }
      }
    }
  }

  /** On a string of bare digits the pattern reduces to its length: exactly
      the 7- and 10-digit runs match. */
  lemma BareDigits(s: string)
    requires AllDigits(s)
    ensures PhoneMatch(s) <==> |s| == 7 || |s| == 10
  {
    DigitCountAll(s);
    if PhoneMatch(s) {
      PhoneMatchShape(s);
    }
    if |s| == 7 {
      assert Digits(s[..3], 3) && Digits(s[3..], 4);
      assert LocalNumber(s);
    }
    if |s| == 10 {
      assert Digits(s[3..][..3], 3) && Digits(s[3..][3..], 4);
      assert LocalNumber(s[3..]);
      assert FullNumber(s);
    }
  }

  /** `[-\.\s]??` read as a string: empty, or one separator. */
  predicate OptSep(x: string) {
    |x| == 0 || (|x| == 1 && IsSep(x[0]))
  }

  lemma LocalForm(exch: string, y: string, line: string)
    requires Digits(exch, 3) && OptSep(y) && Digits(line, 4)
    ensures LocalNumber(exch + y + line)
  {
    var local := exch + y + line;
    assert local[..3] == exch;
    assert local[3..] == y + line;
    if |y| == 1 {
      assert (y + line)[1..] == line;
    } else {
      assert y + line == line;
    }
  }

  /** The separated layouts the pattern is written for are all recognised:
      the local `EEE-LLLL`, `AAA-EEE-LLLL` with one separator or none at each
      join, and `(AAA) EEE-LLLL` with any run of whitespace after the
      parenthesis. */
  lemma SeparatedForms(area: string, exch: string, line: string, x: string, y: string, w: string)
    requires Digits(area, 3) && Digits(exch, 3) && Digits(line, 4)
    requires OptSep(x) && OptSep(y)
    requires forall i :: 0 <= i < |w| ==> IsSpace(w[i])
    ensures PhoneMatch(exch + y + line)
    ensures PhoneMatch(area + x + (exch + y + line))
    ensures PhoneMatch("(" + area + ")" + w + (exch + y + line))
  {
    var local := exch + y + line;
    LocalForm(exch, y, line);
    FullForm(area, x, local);
    ParenForm(area, w, local);
  }

  lemma FullForm(area: string, x: string, local: string)
    requires Digits(area, 3) && OptSep(x) && LocalNumber(local)
    ensures FullNumber(area + x + local)
  {
    var full := area + x + local;
    assert full[..3] == area && full[3..] == x + local;
    if |x| == 1 {
      assert (x + local)[1..] == local;
    } else {
      assert x + local == local;
    }
  }

  lemma ParenForm(area: string, w: string, local: string)
    requires Digits(area, 3) && LocalNumber(local)
    requires forall i :: 0 <= i < |w| ==> IsSpace(w[i])
    ensures ParenNumber("(" + area + ")" + w + local)
  {
    SpacesThenLocal(w, local);
    var paren := "(" + area + ")" + w + local;
    assert paren[1..4] == area && paren[5..] == w + local;
  }

  lemma {:induction false} SpacesThenLocal(w: string, local: string)
    requires forall i :: 0 <= i < |w| ==> IsSpace(w[i])
    requires LocalNumber(local)
    ensures SpacedLocal(w + local)
    decreases |w|
  {
    if w == [] {
      assert w + local == local;
    } else {
      assert (w + local)[1..] == w[1..] + local;
      SpacesThenLocal(w[1..], local);
    }
  }
}
