/** The language of the ip_address pattern
      ((25[0-5]|2[0-4][0-9]|[01]?[0-9][0-9]?)\.){3}(25[0-5]|2[0-4][0-9]|[01]?[0-9][0-9]?)
    as a whole-string recogniser, with its reading as four dot-separated
    decimal octets of value at most 255. */
module Ipv4Pattern {
  import opened Chars

  /** `25[0-5]|2[0-4][0-9]|[01]?[0-9][0-9]?`. */
  predicate Octet(s: string) {
    (|s| == 3 && s[0] == '2' && s[1] == '5' && '0' <= s[2] <= '5')
    || (|s| == 3 && s[0] == '2' && '0' <= s[1] <= '4' && IsDigit(s[2]))
    || (1 <= |s| <= 2 && AllDigits(s))
    || (2 <= |s| <= 3 && (s[0] == '0' || s[0] == '1') && AllDigits(s[1..]))
  }

  /** `(Octet\.){dots}Octet`. */
  predicate DottedOctets(s: string, dots: nat)
    decreases dots
  {
    if dots == 0 then Octet(s)
    else exists i :: 0 < i < |s| && s[i] == '.' && Octet(s[..i]) && DottedOctets(s[i + 1..], dots - 1)
  }

  /** The ip_address language. */
  predicate IpMatch(s: string) {
    DottedOctets(s, 3)
  }

  /** The fields of `s` between occurrences of `sep`. */
  function Split(s: string, sep: char): (r: seq<string>)
    ensures |r| >= 1
    decreases |s|
  {
    if s == [] then [""]
    else if s[0] == sep then [""] + Split(s[1..], sep)
    else
      var rest := Split(s[1..], sep);
      [[s[0]] + rest[0]] + rest[1..]
  }

  /** A field is a decimal number of one to three digits, at most 255. */
  predicate OctetField(f: string) {
    1 <= |f| <= 3 && AllDigits(f) && Value(f) <= 255
  }

  /** Four dot-separated octet fields. */
  predicate DottedQuad(s: string) {
    var f := Split(s, '.');
    |f| == 4 && forall k :: 0 <= k < 4 ==> OctetField(f[k])
  }

  lemma Value3(s: string)
    requires |s| == 3 && AllDigits(s)
    ensures Value(s) == 100 * DigitValue(s[0]) + 10 * DigitValue(s[1]) + DigitValue(s[2])
  {
    var a, b := s[..1], s[..2];
    assert a[..0] == [] && b[..1] == a && s[..2] == b;
    assert Value(a) == DigitValue(s[0]);
    assert Value(b) == 10 * Value(a) + DigitValue(s[1]);
  }

  lemma Value2(s: string)
    requires |s| == 2 && AllDigits(s)
    ensures Value(s) <= 99
  {
    var a := s[..1];
    assert a[..0] == [];
    assert Value(a) == DigitValue(s[0]);
  }

  /** The three alternatives of an octet together admit exactly the one- to
      three-digit numbers up to 255 (leading zeros allowed); a three-digit
      octet led by 0 or 1 is at most 199. */
  lemma OctetValue(s: string)
    ensures Octet(s) <==> OctetField(s)
    ensures Octet(s) && |s| == 3 && (s[0] == '0' || s[0] == '1') ==> Value(s) <= 199
  {
    if |s| == 3 && AllDigits(s) {
      ThreeDigitOctet(s);
    }
    if |s| == 2 && AllDigits(s) {
      Value2(s);
    }
    if |s| == 1 && AllDigits(s) {
      assert s[..0] == [];
    }
    if 2 <= |s| <= 3 && IsDigit(s[0]) && AllDigits(s[1..]) {
      assert AllDigits(s);
    }
  }

  lemma ThreeDigitOctet(s: string)
    requires |s| == 3 && AllDigits(s)
    ensures Octet(s) <==> Value(s) <= 255
    ensures s[0] == '0' || s[0] == '1' ==> Value(s) <= 199
  {
    Value3(s);
    var d0, d1, d2 := DigitValue(s[0]), DigitValue(s[1]), DigitValue(s[2]);
    assert s[0] == '0' || s[0] == '1' <==> d0 <= 1;
    assert s[0] == '2' <==> d0 == 2;
    assert '0' <= s[1] <= '4' <==> d1 <= 4;
    assert s[1] == '5' <==> d1 == 5;
    assert '0' <= s[2] <= '5' <==> d2 <= 5;
    assert AllDigits(s[1..]);
  }

  lemma {:induction false} SplitNoSep(a: string, sep: char)
    requires sep !in a
    ensures Split(a, sep) == [a]
    decreases |a|
  {
    if a != [] {
      SplitNoSep(a[1..], sep);
      assert [a[0]] + a[1..] == a;
    }
  }

  /** A field free of the separator splits off the front. */
  lemma {:induction false} SplitFront(a: string, b: string, sep: char)
    requires sep !in a
    ensures Split(a + [sep] + b, sep) == [a] + Split(b, sep)
    decreases |a|
  {
    var s := a + [sep] + b;
    if a == [] {
      assert s[1..] == b;
    } else {
      assert s[1..] == a[1..] + [sep] + b;
      SplitFront(a[1..], b, sep);
      assert [a[0]] + a[1..] == a;
    }
  }

  lemma OctetNoDot(s: string)
    ensures Octet(s) ==> '.' !in s && |s| >= 1
  {
    OctetValue(s);
    if Octet(s) {
      assert forall k :: 0 <= k < |s| ==> s[k] != '.';
    }
  }

  /** The fields after the first separator are the fields of what follows it. */
  lemma SplitAtFirst(s: string, sep: char) returns (i: nat)
    requires sep in s
    ensures i < |s| && s[i] == sep && sep !in s[..i]
    ensures Split(s, sep) == [s[..i]] + Split(s[i + 1..], sep)
  {
    i := FindFirst(s, sep).value;
    SplitAt(s, i, sep);
  }

  lemma SplitAt(s: string, i: nat, sep: char)
    requires i < |s| && s[i] == sep && sep !in s[..i]
    ensures Split(s, sep) == [s[..i]] + Split(s[i + 1..], sep)
  {
    assert s == s[..i] + [sep] + s[i + 1..];
    SplitFront(s[..i], s[i + 1..], sep);
  }

  /** Every field of `s` is an octet. */
  ghost predicate AllOctets(f: seq<string>) {
    forall k :: 0 <= k < |f| ==> Octet(f[k])
  }

  lemma SingleOctet(s: string)
    ensures Octet(s) <==> (var f := Split(s, '.'); |f| == 1 && AllOctets(f))
  {
    OctetNoDot(s);
    if '.' in s {
      var i := SplitAtFirst(s, '.');
    } else {
      SplitNoSep(s, '.');
      assert Split(s, '.')[0] == s;
    }
  }

  lemma ConsOctets(a: string, g: seq<string>)
    ensures AllOctets([a] + g) <==> Octet(a) && AllOctets(g)
  {
    var f := [a] + g;
    assert f[0] == a;
    assert forall k :: 0 <= k < |g| ==> f[k + 1] == g[k];
  }

  lemma {:induction false} DottedToFields(s: string, dots: nat)
    requires DottedOctets(s, dots)
    ensures |Split(s, '.')| == dots + 1 && AllOctets(Split(s, '.'))
    decreases dots
  {
    if dots == 0 {
      SingleOctet(s);
    } else {
      var i :| 0 < i < |s| && s[i] == '.' && Octet(s[..i]) && DottedOctets(s[i + 1..], dots - 1);
      OctetNoDot(s[..i]);
      SplitAt(s, i, '.');
      DottedToFields(s[i + 1..], dots - 1);
      ConsOctets(s[..i], Split(s[i + 1..], '.'));
    }
  }

  lemma {:induction false} FieldsToDotted(s: string, dots: nat)
    requires |Split(s, '.')| == dots + 1 && AllOctets(Split(s, '.'))
    ensures DottedOctets(s, dots)
    decreases dots
  {
    if dots == 0 {
      SingleOctet(s);
    } else {
      if '.' !in s {
        SplitNoSep(s, '.');
      }
      var i := SplitAtFirst(s, '.');
      ConsOctets(s[..i], Split(s[i + 1..], '.'));
      OctetNoDot(s[..i]);
      FieldsToDotted(s[i + 1..], dots - 1);
    }
  }

  /** `(Octet\.){dots}Octet` is exactly `dots + 1` dot-separated octets. */
  lemma DottedOctetsFields(s: string, dots: nat)
    ensures DottedOctets(s, dots) <==> |Split(s, '.')| == dots + 1 && AllOctets(Split(s, '.'))
  {
    if DottedOctets(s, dots) {
      DottedToFields(s, dots);
    }
    if |Split(s, '.')| == dots + 1 && AllOctets(Split(s, '.')) {
      FieldsToDotted(s, dots);
    }
  }

  /** An ip_address match is exactly four dot-separated fields, each of one
      to three digits with value at most 255. */
  lemma IpMatchQuad(s: string)
    ensures IpMatch(s) <==> DottedQuad(s)
  {
    DottedOctetsFields(s, 3);
    var f := Split(s, '.');
    forall k | 0 <= k < |f|
      ensures Octet(f[k]) <==> OctetField(f[k])
    {
      OctetValue(f[k]);
    }
  }
}
