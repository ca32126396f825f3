/** The language of the email pattern
      [a-zA-Z0-9._%+-]+@[a-zA-Z0-9.-]+\.[a-zA-Z]{2,}
    as a whole-string recogniser: each concatenation point is a split
    position, found by a bounded existential. */
module EmailPattern {
  import opened Wrappers
  import opened Chars

  /** `[a-zA-Z0-9._%+-]`. */
  predicate IsLocalChar(c: char) {
    IsLetter(c) || IsDigit(c) || c == '.' || c == '_' || c == '%' || c == '+' || c == '-'
  }

  /** `[a-zA-Z0-9.-]`. */
  predicate IsDomainChar(c: char) {
    IsLetter(c) || IsDigit(c) || c == '.' || c == '-'
  }

  /** `[a-zA-Z0-9._%+-]+`. */
  predicate LocalPart(s: string) {
    |s| >= 1 && forall i :: 0 <= i < |s| ==> IsLocalChar(s[i])
  }

  /** `[a-zA-Z0-9.-]+`. */
  predicate DomainPart(s: string) {
    |s| >= 1 && forall i :: 0 <= i < |s| ==> IsDomainChar(s[i])
  }

  /** `[a-zA-Z]{2,}`. */
  predicate TopLevel(s: string) {
    |s| >= 2 && forall i :: 0 <= i < |s| ==> IsLetter(s[i])
  }

  /** `[a-zA-Z0-9.-]+\.[a-zA-Z]{2,}`. */
  predicate HostPart(s: string) {
    exists j :: 0 < j < |s| && s[j] == '.' && DomainPart(s[..j]) && TopLevel(s[j + 1..])
  }

  /** The email language. */
  predicate EmailMatch(s: string) {
    exists i :: 0 < i < |s| && s[i] == '@' && LocalPart(s[..i]) && HostPart(s[i + 1..])
  }

  /** The same shape read deterministically: exactly one `@`, a local part
      before it, and after it a domain, the LAST `.` and a top-level domain
      of two or more letters. */
  predicate EmailShaped(s: string) {
    Count(s, '@') == 1
    && match FindFirst(s, '@')
       case None => false
       case Some(i) =>
         LocalPart(s[..i])
         && match FindLast(s[i + 1..], '.')
            case None => false
            case Some(j) => DomainPart(s[i + 1..][..j]) && TopLevel(s[i + 1..][j + 1..])
  }

  lemma LocalNoAt(s: string)
    requires LocalPart(s)
    ensures '@' !in s
  {
    assert forall k :: 0 <= k < |s| ==> s[k] != '@';
  }

  /** Within a host part the top-level domain holds no `.`, so the split is
      at the last one; and a host part holds no `@`. */
  lemma HostSplitIsLast(t: string, j: nat)
    requires 0 < j < |t| && t[j] == '.' && DomainPart(t[..j]) && TopLevel(t[j + 1..])
    ensures FindLast(t, '.') == Some(j)
    ensures '@' !in t
  {
    forall k | 0 <= k < |t|
      ensures t[k] != '@'
      ensures k > j ==> t[k] != '.'
    {
      if k < j {
        assert t[k] == t[..j][k];
      } else if k > j {
        assert t[k] == t[j + 1..][k - j - 1];
      }
    }
    FindLastAtLeast(t, '.', j);
  }

  lemma AtSplit(s: string, i: nat)
    requires 0 < i < |s| && s[i] == '@' && '@' !in s[..i] && '@' !in s[i + 1..]
    ensures Count(s, '@') == 1
    ensures FindFirst(s, '@') == Some(i)
  {
    assert s == s[..i] + [s[i]] + s[i + 1..];
    CountAppend(s[..i] + [s[i]], s[i + 1..], '@');
    CountAppend(s[..i], [s[i]], '@');
    assert forall k :: 0 <= k < i ==> s[k] == s[..i][k];
    FindFirstAtMost(s, '@', i);
  }

  lemma MatchIsShaped(s: string)
    requires EmailMatch(s)
    ensures EmailShaped(s)
  {
    var i :| 0 < i < |s| && s[i] == '@' && LocalPart(s[..i]) && HostPart(s[i + 1..]);
    SplitIsShaped(s, i);
  }

  lemma SplitIsShaped(s: string, i: nat)
    requires 0 < i < |s| && s[i] == '@' && LocalPart(s[..i]) && HostPart(s[i + 1..])
    ensures EmailShaped(s)
  {
    var t := s[i + 1..];
    var j :| 0 < j < |t| && t[j] == '.' && DomainPart(t[..j]) && TopLevel(t[j + 1..]);
    HostSplitIsLast(t, j);
    LocalNoAt(s[..i]);
    AtSplit(s, i);
  }

  lemma ShapedIsMatch(s: string)
    requires EmailShaped(s)
    ensures EmailMatch(s)
  {
    var i := FindFirst(s, '@').value;
    var t := s[i + 1..];
    var j := FindLast(t, '.').value;
    assert HostPart(t);
  }

  /** An email match is exactly a string of the deterministic shape: in
      particular it holds exactly one `@`. */
  lemma EmailMatchShape(s: string)
    ensures EmailMatch(s) <==> EmailShaped(s)
    ensures EmailMatch(s) ==> Count(s, '@') == 1
  {
    if EmailMatch(s) {
      MatchIsShaped(s);
    }
    if EmailShaped(s) {
      ShapedIsMatch(s);
    }
  }
}
