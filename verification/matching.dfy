/** Leftmost, non-overlapping search for a pattern, and the segmentation of
    a text into the spans left alone and the spans matched. A pattern is
    given by its language, a predicate on whole strings.

    The start of each match is fixed by the language alone: the leftmost
    position at which some non-empty match begins. Which of the matches
    beginning there the regular-expression engine returns depends on its
    backtracking order (lazy `??`, first alternative first); that choice is
    the `Chooser` oracle. No pattern uses anchors or look-behind, so a
    search that resumes after a match only sees the rest of the text. */
module Matching {
  import opened Wrappers

  /** A pattern's language: whether a whole string is matched by it. */
  type Language = string -> bool

  /** The engine's choice among the matches that begin at the start of the
      given text: an index into their end positions in ascending order; an
      index past the last picks the longest. */
  type Chooser = string -> nat

  datatype Span = Span(start: nat, len: nat) {
    function End(): nat {
      start + len
    }
  }

  /** The lengths `n` in `1..upto` for which `t[..n]` matches, ascending. */
  function PrefixLengths(lang: Language, t: string, upto: nat): (r: seq<nat>)
    requires upto <= |t|
    ensures forall k :: 0 <= k < |r| ==> 0 < r[k] <= upto && lang(t[..r[k]])
    ensures forall n :: 0 < n <= upto && lang(t[..n]) ==> n in r
    ensures forall k, l :: 0 <= k < l < |r| ==> r[k] < r[l]
  {
    if upto == 0 then []
    else PrefixLengths(lang, t, upto - 1) + (if lang(t[..upto]) then [upto] else [])
  }

  /** The length of the engine's match at the very start of `t`, if any
      match begins there. */
  function MatchAtStart(lang: Language, t: string, choose: Chooser): (r: Option<nat>)
    ensures r.Some? ==> 0 < r.value <= |t| && lang(t[..r.value])
    ensures r.None? <==> forall n :: 0 < n <= |t| ==> !lang(t[..n])
  {
    var lens := PrefixLengths(lang, t, |t|);
    if lens == [] then None
    else
      var k := choose(t);
      Some(if k < |lens| then lens[k] else lens[|lens| - 1])
  }

  /** No match of `lang` begins at a position in `from..upto`. */
  ghost predicate NoMatchBetween(lang: Language, t: string, from: nat, upto: nat) {
    forall i, j :: from <= i < upto && i < j <= |t| ==> !lang(t[i..j])
  }

  /** No substring of `t` is matched by `lang`. */
  ghost predicate NoMatch(lang: Language, t: string) {
    NoMatchBetween(lang, t, 0, |t|)
  }

  /** The engine's leftmost match starting at or after `from`. */
  function SearchFrom(lang: Language, t: string, choose: Chooser, from: nat): (r: Option<Span>)
    requires from <= |t|
    ensures r.Some? ==> from <= r.value.start && 0 < r.value.len && r.value.End() <= |t|
    ensures r.Some? ==> lang(t[r.value.start..r.value.End()])
    decreases |t| - from
  {
    if from == |t| then None
    else
      match MatchAtStart(lang, t[from..], choose)
      case Some(n) =>
        assert t[from..][..n] == t[from..from + n];
        Some(Span(from, n))
      case None => SearchFrom(lang, t, choose, from + 1)
  }

  /** The search skips only positions where no match begins, and fails only
      when no match begins at or after `from`. */
  lemma {:induction false} SearchFromLeftmost(lang: Language, t: string, choose: Chooser, from: nat)
    requires from <= |t|
    ensures var r := SearchFrom(lang, t, choose, from);
      && (r.Some? ==> NoMatchBetween(lang, t, from, r.value.start))
      && (r.None? <==> NoMatchBetween(lang, t, from, |t|))
    decreases |t| - from
  {
    if from < |t| && MatchAtStart(lang, t[from..], choose).None? {
      SearchFromLeftmost(lang, t, choose, from + 1);
      NoMatchAtStart(lang, t, choose, from);
      var r := SearchFrom(lang, t, choose, from + 1);
      ExtendNoMatch(lang, t, from, if r.Some? then r.value.start else |t|);
    }
  }

  lemma NoMatchAtStart(lang: Language, t: string, choose: Chooser, from: nat)
    requires from < |t| && MatchAtStart(lang, t[from..], choose).None?
    ensures forall j :: from < j <= |t| ==> !lang(t[from..j])
  {
    var u := t[from..];
    forall j | from < j <= |t|
      ensures !lang(t[from..j])
    {
      assert u[..j - from] == t[from..j];
    }
  }

  lemma ExtendNoMatch(lang: Language, t: string, from: nat, upto: nat)
    requires from < upto
    requires forall j :: from < j <= |t| ==> !lang(t[from..j])
    requires NoMatchBetween(lang, t, from + 1, upto)
    ensures NoMatchBetween(lang, t, from, upto)
  {
  }

  /** The first match `re.sub` replaces: non-empty and in the language (see
      `FirstMatchLeftmost` for why it is the leftmost). */
  function FirstMatch(lang: Language, t: string, choose: Chooser): (r: Option<Span>)
    ensures r.Some? ==> 0 < r.value.len && r.value.End() <= |t|
    ensures r.Some? ==> lang(t[r.value.start..r.value.End()])
  {
    SearchFrom(lang, t, choose, 0)
  }

  /** No match begins before the first match, and there is no first match
      exactly when the text holds no match at all. */
  lemma FirstMatchLeftmost(lang: Language, t: string, choose: Chooser)
    ensures var r := FirstMatch(lang, t, choose);
      && (r.Some? ==> NoMatchBetween(lang, t, 0, r.value.start))
      && (r.None? <==> NoMatch(lang, t))
  {
    SearchFromLeftmost(lang, t, choose, 0);
  }

  /** A span of text either left alone or matched by the pattern. */
  datatype Piece = Kept(text: string) | Found(text: string)

  function Join(ps: seq<Piece>): string {
    if ps == [] then "" else ps[0].text + Join(ps[1..])
  }

  /** Kept and found pieces alternate, starting and ending with a kept piece
      (possibly empty); found pieces are non-empty and in the language. */
  ghost predicate Alternating(lang: Language, r: seq<Piece>) {
    && |r| >= 1 && r[0].Kept? && r[|r| - 1].Kept?
    && (forall k :: 0 <= k < |r| - 1 ==> (r[k].Found? <==> r[k + 1].Kept?))
    && (forall k :: 0 <= k < |r| && r[k].Found? ==> r[k].text != "" && lang(r[k].text))
  }

  /** `t` cut at the successive leftmost matches. */
  function Segments(lang: Language, t: string, choose: Chooser): (r: seq<Piece>)
    ensures Join(r) == t
    ensures Alternating(lang, r)
    decreases |t|
  {
    match FirstMatch(lang, t, choose)
    case None => [Kept(t)]
    case Some(sp) =>
      var rest := Segments(lang, t[sp.End()..], choose);
      PrependMatch(lang, t[..sp.start], t[sp.start..sp.End()], rest);
      assert t == t[..sp.start] + (t[sp.start..sp.End()] + t[sp.End()..]);
      [Kept(t[..sp.start]), Found(t[sp.start..sp.End()])] + rest
  }

  /** The segmentation invariant, extended by one kept and one found piece. */
  lemma PrependMatch(lang: Language, g: string, h: string, rest: seq<Piece>)
    requires h != "" && lang(h)
    requires Alternating(lang, rest)
    ensures Join([Kept(g), Found(h)] + rest) == g + (h + Join(rest))
    ensures Alternating(lang, [Kept(g), Found(h)] + rest)
  {
    var r := [Kept(g), Found(h)] + rest;
    assert r[1..] == [Found(h)] + rest;
    assert r[1..][1..] == rest;
    assert forall k :: 2 <= k < |r| ==> r[k] == rest[k - 2];
  }

  /** The text after the last found piece holds no match. */
  lemma {:induction false} SegmentsTail(lang: Language, t: string, choose: Chooser)
    ensures var r := Segments(lang, t, choose); NoMatch(lang, r[|r| - 1].text)
    decreases |t|
  {
    FirstMatchLeftmost(lang, t, choose);
    match FirstMatch(lang, t, choose)
    case None =>
    case Some(sp) =>
      SegmentsTail(lang, t[sp.End()..], choose);
  }

  /** Every kept piece followed by a found piece is a gap in which no match
      begins: the found piece is the leftmost match of the text from there on. */
  lemma {:induction false} SegmentsLeftmost(lang: Language, t: string, choose: Chooser, k: nat)
    requires var r := Segments(lang, t, choose); k + 1 < |r| && r[k].Kept?
    ensures var r := Segments(lang, t, choose); NoMatchBetween(lang, Join(r[k..]), 0, |r[k].text|)
    decreases |t|
  {
    var r := Segments(lang, t, choose);
    FirstMatchLeftmost(lang, t, choose);
    match FirstMatch(lang, t, choose)
    case None =>
    case Some(sp) =>
      var rest := Segments(lang, t[sp.End()..], choose);
      assert r == [Kept(t[..sp.start]), Found(t[sp.start..sp.End()])] + rest;
      if k == 0 {
        assert r[k..] == r;
      } else {
        assert r[k..] == rest[k - 2..];
        SegmentsLeftmost(lang, t[sp.End()..], choose, k - 2);
      }
  }
}
