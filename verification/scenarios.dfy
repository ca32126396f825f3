/** Sample inputs, checked against the pattern languages. */
module Scenarios {
  import opened Patterns
  import opened Matching
  import opened Scrambler
  import PhonePattern
  import CardPattern
  import EmailPattern
  import Ipv4Pattern

  /** A formatted phone number is matched by the phone_number pattern. */
  lemma PhoneSample()
    ensures Matches(PhoneNumber, "555-123-4567")
  {
    PhonePattern.SeparatedForms("555", "123", "4567", "-", "-", "");
    assert "555" + "-" + ("123" + "-" + "4567") == "555-123-4567";
  }

  /** A 16-digit Visa number is matched by the credit_card pattern. */
  lemma CardSample()
    ensures Matches(CreditCard, "4111111111111111")
  {
    var s := "4111111111111111";
    assert CardPattern.VisaAlt(s);
  }

  /** A plain address is matched by the email pattern. */
  lemma EmailSample()
    ensures Matches(Email, "jane@example.com")
  {
    var e := "jane@example.com";
    var host := e[5..];
    assert host[..7] == "example" && host[8..] == "com";
    assert EmailPattern.DomainPart(host[..7]);
    assert EmailPattern.TopLevel(host[8..]);
    assert EmailPattern.HostPart(host);
    assert e[..4] == "jane";
    assert EmailPattern.LocalPart(e[..4]);
  }

  const OutOfRange: string := "999.999.999.999"

  /** Between two consecutive dots of the out-of-range address there is
      only `999`, which is not an octet. */
  lemma NoOctetBetweenDots(p: nat, n: nat)
    requires p + 1 + n < |OutOfRange| && OutOfRange[p] == '.' && OutOfRange[p + 1 + n] == '.'
    ensures !Ipv4Pattern.Octet(OutOfRange[p + 1..p + 1 + n])
  {
    var f := OutOfRange[p + 1..p + 1 + n];
    Ipv4Pattern.OctetNoDot(f);
    Ipv4Pattern.OctetValue(f);
    if n == 3 {
      assert f == "999";
      Ipv4Pattern.Value3(f);
    }
  }

  /** An address-like text whose octets exceed 255 holds no ip_address match
      anywhere, so the ip_address step leaves it unchanged. */
  lemma OutOfRangeNotMatched(engine: Engine, provider: Provider, calls: nat)
    ensures NoMatch(LanguageOf(IpAddress), OutOfRange)
    ensures ReplacePattern(OutOfRange, IpAddress, "ip_address", engine, provider, calls).text == OutOfRange
  {
    var t := OutOfRange;
    forall a, b | 0 <= a < b <= |t|
      ensures !Ipv4Pattern.IpMatch(t[a..b])
    {
      var u := t[a..b];
      forall i1 | 0 < i1 < |u| && u[i1] == '.'
        ensures !Ipv4Pattern.DottedOctets(u[i1 + 1..], 2)
      {
        var u1 := u[i1 + 1..];
        forall i2 | 0 < i2 < |u1| && u1[i2] == '.'
          ensures !Ipv4Pattern.Octet(u1[..i2])
        {
          assert u1[..i2] == t[a + i1 + 1..a + i1 + 1 + i2];
          NoOctetBetweenDots(a + i1, i2);
        }
      }
    }
    assert forall a, b :: 0 <= a < b <= |t| ==> !LanguageOf(IpAddress)(t[a..b]);
  }
}
