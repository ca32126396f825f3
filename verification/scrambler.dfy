/** The substitution engine of the data-pattern scrambler: the dispatch from
    a pattern name to a fake-value generator, the global replacement of one
    pattern, and the fold of those replacements over a list of names.

    The fake-data provider is an oracle: the outcome of its `k`-th call in a
    session, made for a given category. */
module Scrambler {
  import opened Wrappers
  import opened Patterns
  import opened Matching

  /** The outcome of the provider's `k`-th call, made for category `c`:
      `Some(value)` for a generated value, `None` when the call raised. */
  type Provider = (Category, nat) -> Option<string>

  /** The regular-expression engine's choice of match end for category `c`
      (see `Matching.Chooser`). */
  type Engine = (Category, string) -> nat

  /** A text together with the number of provider calls made so far. */
  datatype Step = Step(text: string, calls: nat)

  /** The pattern of category `c`, as a language. */
  function LanguageOf(c: Category): Language {
    s => Matches(c, s)
  }

  function ChooserOf(engine: Engine, c: Category): Chooser {
    s => engine(c, s)
  }

  /** The replacement for one match: the provider's value for the name's
      category; the matched text itself when the provider fails or the name
      has no generator. A provider call is made only for a known name. */
  function GenerateFakeValue(name: string, matched: string, provider: Provider, calls: nat): (r: Step)
    ensures Lookup(name).None? ==> r == Step(matched, calls)
    ensures Lookup(name).Some? ==> r.calls == calls + 1
    ensures Lookup(name).Some? && provider(Lookup(name).value, calls).Some? ==>
      r.text == provider(Lookup(name).value, calls).value
    ensures Lookup(name).Some? && provider(Lookup(name).value, calls).None? ==> r.text == matched
  {
    match Lookup(name)
    case None => Step(matched, calls)
    case Some(c) =>
      match provider(c, calls)
      case Some(v) => Step(v, calls + 1)
      case None => Step(matched, calls + 1)
  }

  /** `re.sub(pattern, repl, text)` where `repl` is `GenerateFakeValue` for
      `name`: every leftmost non-overlapping match of `lang`, left to right,
      replaced by the value generated for it. */
  function Sub(lang: Language, choose: Chooser, text: string, name: string, provider: Provider, calls: nat): (r: Step)
    ensures r.calls >= calls
    ensures NoMatch(lang, text) ==> r == Step(text, calls)
    ensures Lookup(name).None? ==> r == Step(text, calls)
    decreases |text|
  {
    match FirstMatch(lang, text, choose)
    case None => Step(text, calls)
    case Some(sp) =>
      var tail := text[sp.End()..];
      assert |tail| < |text|;
      var v := GenerateFakeValue(name, text[sp.start..sp.End()], provider, calls);
      var rest := Sub(lang, choose, tail, name, provider, v.calls);
      Reassemble(text, sp);
      Step(text[..sp.start] + (v.text + rest.text), rest.calls)
  }

  /** `replace_pattern`: the substitution for the table's pattern of `c`,
      with generators chosen by `name`. */
  function ReplacePattern(text: string, c: Category, name: string, engine: Engine, provider: Provider, calls: nat): (r: Step)
    ensures r.calls >= calls
    ensures NoMatch(LanguageOf(c), text) ==> r == Step(text, calls)
    ensures Lookup(name).None? ==> r == Step(text, calls)
  {
    Sub(LanguageOf(c), ChooserOf(engine, c), text, name, provider, calls)
  }

  /** A text is its part before a span, the span and its part after. */
  lemma Reassemble(text: string, sp: Span)
    requires sp.End() <= |text|
    ensures text == text[..sp.start] + (text[sp.start..sp.End()] + text[sp.End()..])
  {
  }

  /** Two-phase reading of a replacement: each kept piece is copied, each
      found piece is handed to the generator, in order. */
  function Render(pieces: seq<Piece>, name: string, provider: Provider, calls: nat): (r: Step)
    decreases |pieces|
  {
    if pieces == [] then Step("", calls)
    else
      var head := match pieces[0]
        case Kept(g) => Step(g, calls)
        case Found(h) => GenerateFakeValue(name, h, provider, calls);
      var rest := Render(pieces[1..], name, provider, head.calls);
      Step(head.text + rest.text, rest.calls)
  }

  /** Number of found pieces. */
  function FoundCount(pieces: seq<Piece>): nat {
    if pieces == [] then 0 else (if pieces[0].Found? then 1 else 0) + FoundCount(pieces[1..])
  }

  /** Substituting is segmenting the text at its leftmost matches and
      rendering the pieces: text between matches is copied verbatim, in order. */
  lemma {:induction false} SubIsRender(lang: Language, choose: Chooser, text: string, name: string, provider: Provider, calls: nat)
    ensures Sub(lang, choose, text, name, provider, calls) == Render(Segments(lang, text, choose), name, provider, calls)
    decreases |text|
  {
    match FirstMatch(lang, text, choose)
    case None =>
    case Some(sp) =>
      var tail := text[sp.End()..];
      assert |tail| < |text|;
      var v := GenerateFakeValue(name, text[sp.start..sp.End()], provider, calls);
      SubIsRender(lang, choose, tail, name, provider, v.calls);
      var pieces := Segments(lang, text, choose);
      assert pieces[1..][1..] == Segments(lang, text[sp.End()..], choose);
  }

  /** With a provider that always fails, rendering restores the joined text. */
  lemma {:induction false} RenderFailing(pieces: seq<Piece>, name: string, provider: Provider, calls: nat)
    requires forall c, k :: provider(c, k).None?
    ensures Render(pieces, name, provider, calls).text == Join(pieces)
    decreases |pieces|
  {
    if pieces != [] {
      var head := match pieces[0]
        case Kept(g) => Step(g, calls)
        case Found(h) => GenerateFakeValue(name, h, provider, calls);
      RenderFailing(pieces[1..], name, provider, head.calls);
    }
  }

  /** One provider call per found piece, when the name has a generator. */
  lemma {:induction false} RenderCalls(pieces: seq<Piece>, name: string, provider: Provider, calls: nat)
    requires Lookup(name).Some?
    ensures Render(pieces, name, provider, calls).calls == calls + FoundCount(pieces)
    decreases |pieces|
  {
    if pieces != [] {
      var head := match pieces[0]
        case Kept(g) => Step(g, calls)
        case Found(h) => GenerateFakeValue(name, h, provider, calls);
      RenderCalls(pieces[1..], name, provider, head.calls);
    }
  }

  /** An always-failing generator makes a replacement the identity, and the
      provider is still called once per match. */
  lemma FailingProviderKeepsText(text: string, c: Category, name: string, engine: Engine, provider: Provider, calls: nat)
    requires forall c', k :: provider(c', k).None?
    ensures ReplacePattern(text, c, name, engine, provider, calls).text == text
  {
    SubIsRender(LanguageOf(c), ChooserOf(engine, c), text, name, provider, calls);
    RenderFailing(Segments(LanguageOf(c), text, ChooserOf(engine, c)), name, provider, calls);
  }

  /** For a known name the provider is called exactly once per match. */
  lemma OneCallPerMatch(text: string, c: Category, name: string, engine: Engine, provider: Provider, calls: nat)
    requires Lookup(name).Some?
    ensures ReplacePattern(text, c, name, engine, provider, calls).calls
         == calls + FoundCount(Segments(LanguageOf(c), text, ChooserOf(engine, c)))
  {
    SubIsRender(LanguageOf(c), ChooserOf(engine, c), text, name, provider, calls);
    RenderCalls(Segments(LanguageOf(c), text, ChooserOf(engine, c)), name, provider, calls);
  }

  /** `scramble_text`'s loop: each name in order, unknown names skipped, each
      known name's replacement applied to the previous output. */
  function ApplyNames(text: string, names: seq<string>, engine: Engine, provider: Provider, calls: nat): (r: Step)
    ensures r.calls >= calls
    ensures (forall k :: 0 <= k < |names| ==> Lookup(names[k]).None?) ==> r == Step(text, calls)
    decreases |names|
  {
    if names == [] then Step(text, calls)
    else
      match Lookup(names[0])
      case None => ApplyNames(text, names[1..], engine, provider, calls)
      case Some(c) =>
        var s := ReplacePattern(text, c, names[0], engine, provider, calls);
        ApplyNames(s.text, names[1..], engine, provider, s.calls)
  }

  /** `scramble_text`: the names given, or every key of the table in order
      when none are given. */
  function ScrambleText(text: string, patternNames: Option<seq<string>>, engine: Engine, provider: Provider): (r: string)
    ensures patternNames.Some? && (forall k :: 0 <= k < |patternNames.value| ==> Lookup(patternNames.value[k]).None?)
      ==> r == text
  {
    var names := match patternNames
      case None => DefaultNames()
      case Some(ns) => ns;
    ApplyNames(text, names, engine, provider, 0).text
  }

  /** Applying `a + b` is applying `a`, then `b` to its output. */
  lemma {:induction false} ApplyNamesAppend(text: string, a: seq<string>, b: seq<string>, engine: Engine, provider: Provider, calls: nat)
    ensures var s := ApplyNames(text, a, engine, provider, calls);
      ApplyNames(text, a + b, engine, provider, calls) == ApplyNames(s.text, b, engine, provider, s.calls)
    decreases |a|
  {
    if a == [] {
      assert a + b == b;
    } else {
      assert (a + b)[0] == a[0] && (a + b)[1..] == a[1..] + b;
      match Lookup(a[0])
      case None =>
        ApplyNamesAppend(text, a[1..], b, engine, provider, calls);
      case Some(c) =>
        var s := ReplacePattern(text, c, a[0], engine, provider, calls);
        ApplyNamesAppend(s.text, a[1..], b, engine, provider, s.calls);
    }
  }

  /** A name missing from the table is skipped: dropping it changes nothing. */
  lemma SkipsUnknownName(text: string, a: seq<string>, name: string, b: seq<string>, engine: Engine, provider: Provider, calls: nat)
    requires Lookup(name).None?
    ensures ApplyNames(text, a + [name] + b, engine, provider, calls) == ApplyNames(text, a + b, engine, provider, calls)
  {
    ApplyNamesAppend(text, a, [name] + b, engine, provider, calls);
    ApplyNamesAppend(text, a, b, engine, provider, calls);
    assert a + [name] + b == a + ([name] + b);
    var s := ApplyNames(text, a, engine, provider, calls);
    assert ([name] + b)[1..] == b;
  }

  /** With no names given, the four categories apply in the table's order
      phone_number, credit_card, email, ip_address, each to the previous output. */
  lemma DefaultOrderApplied(text: string, engine: Engine, provider: Provider)
    ensures var s1 := ReplacePattern(text, PhoneNumber, "phone_number", engine, provider, 0);
      var s2 := ReplacePattern(s1.text, CreditCard, "credit_card", engine, provider, s1.calls);
      var s3 := ReplacePattern(s2.text, Email, "email", engine, provider, s2.calls);
      var s4 := ReplacePattern(s3.text, IpAddress, "ip_address", engine, provider, s3.calls);
      ScrambleText(text, None, engine, provider) == s4.text
  {
    var ns := DefaultNames();
    assert ns[1..][1..][1..][1..] == [];
  }

  /** A text in which no requested category's pattern matches comes back
      unchanged (the empty text in particular). */
  lemma {:induction false} NoMatchUnchanged(text: string, names: seq<string>, engine: Engine, provider: Provider, calls: nat)
    requires forall k :: 0 <= k < |names| && Lookup(names[k]).Some? ==> NoMatch(LanguageOf(Lookup(names[k]).value), text)
    ensures ApplyNames(text, names, engine, provider, calls).text == text
    decreases |names|
  {
    if names != [] {
      assert forall k :: 0 <= k < |names| - 1 ==> names[1..][k] == names[k + 1];
      NoMatchUnchanged(text, names[1..], engine, provider, calls);
    }
  }

  /** A provider that always fails leaves every text unchanged, whatever the names. */
  lemma {:induction false} FailingProviderScramblesNothing(text: string, names: seq<string>, engine: Engine, provider: Provider, calls: nat)
    requires forall c, k :: provider(c, k).None?
    ensures ApplyNames(text, names, engine, provider, calls).text == text
    decreases |names|
  {
    if names != [] {
      match Lookup(names[0])
      case None =>
        FailingProviderScramblesNothing(text, names[1..], engine, provider, calls);
      case Some(c) =>
        var s := ReplacePattern(text, c, names[0], engine, provider, calls);
        FailingProviderKeepsText(text, c, names[0], engine, provider, calls);
        FailingProviderScramblesNothing(text, names[1..], engine, provider, s.calls);
    }
  }
}
