/** The language of the credit_card pattern, one recogniser per
    alternative of
      4[0-9]{12}(?:[0-9]{3})?  |  5[1-5][0-9]{14}  |  6(?:011|5[0-9]{2})[0-9]{12}
      | 3[47][0-9]{13}  |  3(?:0[0-5]|[68][0-9])[0-9]{11}  |  (?:2131|1800|35\d{3})\d{11}
    and, independently, the issuer table those alternatives encode. */
module CardPattern {
  import opened Wrappers
  import opened Chars

  /** `4[0-9]{12}(?:[0-9]{3})?`. */
  predicate VisaAlt(s: string) {
    |s| >= 1 && s[0] == '4' && (Digits(s[1..], 12) || Digits(s[1..], 15))
  }

  /** `5[1-5][0-9]{14}`. */
  predicate MasterCardAlt(s: string) {
    |s| >= 2 && s[0] == '5' && '1' <= s[1] <= '5' && Digits(s[2..], 14)
  }

  /** `6(?:011|5[0-9]{2})[0-9]{12}`. */
  predicate DiscoverAlt(s: string) {
    |s| >= 4 && s[0] == '6'
    && (s[1..4] == "011" || (s[1] == '5' && Digits(s[2..4], 2)))
    && Digits(s[4..], 12)
  }

  /** `3[47][0-9]{13}`. */
  predicate AmexAlt(s: string) {
    |s| >= 2 && s[0] == '3' && (s[1] == '4' || s[1] == '7') && Digits(s[2..], 13)
  }

  /** `3(?:0[0-5]|[68][0-9])[0-9]{11}`. */
  predicate DinersAlt(s: string) {
    |s| >= 3 && s[0] == '3'
    && ((s[1] == '0' && '0' <= s[2] <= '5') || ((s[1] == '6' || s[1] == '8') && IsDigit(s[2])))
    && Digits(s[3..], 11)
  }

  /** `(?:2131|1800|35\d{3})\d{11}`. */
  predicate JcbAlt(s: string) {
    (|s| >= 4 && (s[..4] == "2131" || s[..4] == "1800") && Digits(s[4..], 11))
    || (|s| >= 5 && s[..2] == "35" && Digits(s[2..5], 3) && Digits(s[5..], 11))
  }

  /** The credit_card language: the union of the six alternatives. */
  predicate CardMatch(s: string) {
    VisaAlt(s) || MasterCardAlt(s) || DiscoverAlt(s) || AmexAlt(s) || DinersAlt(s) || JcbAlt(s)
  }

  /** Card issuers, distinguished by leading digits. The JCB range is split
      because its two prefix families have different lengths. */
  datatype Issuer = Visa | MasterCard | Discover | Amex | DinersClub | JcbLegacy | Jcb

  /** The issuer whose prefix `s` starts with, if any. */
  function IssuerOf(s: string): Option<Issuer> {
    if |s| >= 1 && s[0] == '4' then Some(Visa)
    else if |s| >= 2 && s[0] == '5' && '1' <= s[1] <= '5' then Some(MasterCard)
    else if (|s| >= 4 && s[..4] == "6011") || (|s| >= 2 && s[..2] == "65") then Some(Discover)
    else if |s| >= 2 && (s[..2] == "34" || s[..2] == "37") then Some(Amex)
    else if (|s| >= 3 && s[..2] == "30" && '0' <= s[2] <= '5')
         || (|s| >= 2 && (s[..2] == "36" || s[..2] == "38")) then Some(DinersClub)
    else if |s| >= 4 && (s[..4] == "2131" || s[..4] == "1800") then Some(JcbLegacy)
    else if |s| >= 2 && s[..2] == "35" then Some(Jcb)
    else None
  }

  /** The card-number lengths each issuer's alternative admits. */
  function Lengths(i: Issuer): set<nat> {
    match i
    case Visa => {13, 16}
    case MasterCard => {16}
    case Discover => {16}
    case Amex => {15}
    case DinersClub => {14}
    case JcbLegacy => {15}
    case Jcb => {16}
  }

  /** The issuer table read off the pattern: all digits, a known prefix, and
      a length that prefix's issuer admits. */
  predicate IssuerShaped(s: string) {
    AllDigits(s) && IssuerOf(s).Some? && |s| in Lengths(IssuerOf(s).value)
  }

  lemma DigitsSplit(s: string, k: nat)
    requires k <= |s|
    ensures AllDigits(s) <==> AllDigits(s[..k]) && AllDigits(s[k..])
  {
    if AllDigits(s[..k]) && AllDigits(s[k..]) {
      forall i | 0 <= i < |s|
        ensures IsDigit(s[i])
      {
        if i < k {
          assert s[i] == s[..k][i];
        } else {
          assert s[i] == s[k..][i - k];
        }
      }
    }
  }

  /** The prefix-and-length condition of one issuer. */
  predicate IssuedBy(s: string, i: Issuer) {
    AllDigits(s) && IssuerOf(s) == Some(i) && |s| in Lengths(i)
  }

  lemma VisaRow(s: string)
    ensures VisaAlt(s) <==> IssuedBy(s, Visa)
  {
    if |s| >= 1 {
      DigitsSplit(s, 1);
    }
  }

  lemma MasterCardRow(s: string)
    ensures MasterCardAlt(s) <==> IssuedBy(s, MasterCard)
  {
    if |s| >= 2 {
      DigitsSplit(s, 2);
    }
  }

  lemma DiscoverRow(s: string)
    ensures DiscoverAlt(s) <==> IssuedBy(s, Discover)
  {
    if |s| >= 4 {
      DigitsSplit(s, 4);
      assert s[..4] == [s[0]] + s[1..4];
      assert s[..2] == [s[0], s[1]];
      assert s[2..4] == [s[2], s[3]];
    }
  }

  lemma AmexRow(s: string)
    ensures AmexAlt(s) <==> IssuedBy(s, Amex)
  {
    if |s| >= 2 {
      DigitsSplit(s, 2);
      assert s[..2] == [s[0], s[1]];
    }
  }

  lemma DinersRow(s: string)
    ensures DinersAlt(s) <==> IssuedBy(s, DinersClub)
  {
    if |s| >= 3 {
      DigitsSplit(s, 3);
      assert s[..2] == [s[0], s[1]];
      assert s[..3] == [s[0], s[1], s[2]];
    }
  }

  lemma JcbRows(s: string)
    ensures JcbAlt(s) <==> IssuedBy(s, JcbLegacy) || IssuedBy(s, Jcb)
  {
    if |s| >= 4 {
      DigitsSplit(s, 4);
    }
    if |s| >= 5 {
      DigitsSplit(s, 5);
      assert s[..5] == s[..2] + s[2..5];
      DigitsSplit(s[..5], 2);
    }
  }

  /** A credit_card match is exactly an all-digit string whose prefix and
      length agree with the issuer table. */
  lemma CardMatchIssuer(s: string)
    ensures CardMatch(s) <==> IssuerShaped(s)
  {
    VisaRow(s);
    MasterCardRow(s);
    DiscoverRow(s);
    AmexRow(s);
    DinersRow(s);
    JcbRows(s);
  }

  /** Every credit_card match is all digits, 13 to 16 of them. */
  lemma CardMatchDigits(s: string)
    requires CardMatch(s)
    ensures AllDigits(s) && 13 <= |s| <= 16
  {
    CardMatchIssuer(s);
  }
}
