# Data pattern scrambler — a Dafny model

This project models the core of the data-pattern scrambler, the
`DataPatternScrambler` class. The scrambler looks for text that resembles
personal data and replaces each match with a fake value. It handles four
categories: phone numbers, credit-card numbers, email addresses and IPv4
addresses. The model has two parts.

- **The four pattern languages.** Each regular expression in the pattern
  table is written as a whole-string recogniser that follows the shape of
  the regex: alternatives, optional groups, `\s*` as recursion and
  concatenation as a split point. Lemmas then prove what the patterns
  encode:
  - phone numbers have 7 or 10 digits;
  - credit-card numbers follow an issuer prefix/length table;
  - an email address has exactly one `@` and a top-level domain of two or
    more letters;
  - IPv4 addresses are four octets, each at most 255.
- **The substitution engine.**
  - `generate_fake_value` becomes `GenerateFakeValue`.
  - `re.sub` with a callable becomes `Sub`.
  - `replace_pattern` becomes `ReplacePattern`.
  - The loop of `scramble_text` becomes `ApplyNames` and `ScrambleText`.
  - The fake-data provider is an oracle (`Provider`). It gives the outcome
    of its k-th call: `Some(value)`, or `None` when the call raised.
  - The match start is computed exactly: it is the leftmost position where a
    non-empty match of the language begins.
  - The regex engine's backtracking preference decides which match at that
    start it returns. That choice is an oracle (`Engine`) that picks among
    the candidate match ends.
  - No pattern uses anchors, look-behind or `\b`. So a search that resumes
    after a match can be made on the rest of the text alone.

Modules:
- `Wrappers` holds `Option`.
- `Chars` holds character classes, digit values and searching.
- `PhonePattern`, `CardPattern`, `EmailPattern` and `Ipv4Pattern` hold the
  four languages.
- `Patterns` holds the category table.
- `Matching` holds the leftmost search and the segmentation of a text into
  kept and found pieces.
- `Scrambler` holds the engine.
- `Scenarios` holds sample inputs.

How `scramble_text` treats its list of names (main.py:43-49):
- Only `None` falls back to the four table keys. An empty list applies no
  category, so the text is returned unchanged (`ScrambleText`).
- A name that is not a table key is skipped inside `scramble_text` itself,
  and the remaining names still apply (`SkipsUnknownName`).

## Model

| member | source | states |
|---|---|---|
| Patterns.Lookup | main.py:25-30 | a name is found exactly when it is one of the four table keys, and then it names its category |
| Patterns.LookupName | main.py:25-30 | every category is in the table under its own key, and is one of the default four |
| Patterns.NoEmptyMatch | main.py:26-29 | no pattern matches the empty string, so every match consumes text |
| PhonePattern.PhoneMatchShape | main.py:26 | a phone match has exactly 7 digits (local form) or 10 (area-code forms); its other characters are `-`, `.`, whitespace, or `(`/`)` at positions 0 and 4 around the area code |
| PhonePattern.BareDigits | main.py:26 | a run of bare digits matches exactly when it has 7 or 10 digits |
| PhonePattern.SeparatedForms | main.py:26 | `EEE-LLLL`, `AAA-EEE-LLLL` (one separator or none at each join) and `(AAA)` + whitespace run + `EEE-LLLL` all match |
| CardPattern.CardMatchIssuer | main.py:27 | a credit-card match is exactly an all-digit string with an issuer prefix and that issuer's length: 4→13/16, 51–55→16, 6011/65→16, 34/37→15, 300–305/36/38→14, 2131/1800→15, 35→16 |
| CardPattern.CardMatchDigits | main.py:27 | every credit-card match is all digits, 13 to 16 of them |
| EmailPattern.EmailMatchShape | main.py:28 | an email match holds exactly one `@`; it matches exactly when the local part before the `@` is non-empty over `[A-Za-z0-9._%+-]`, and after the `@` comes a non-empty `[A-Za-z0-9.-]` domain, the last `.`, and two or more letters |
| Ipv4Pattern.OctetValue | main.py:29 | an octet is exactly a 1–3 digit number of value at most 255 (leading zeros allowed); a 3-digit octet led by 0 or 1 is at most 199 |
| Ipv4Pattern.DottedOctetsFields | main.py:29 | `(octet\.){n}octet` is exactly a string whose `.`-separated fields are n+1 octets |
| Ipv4Pattern.IpMatchQuad | main.py:29 | an ip_address match is exactly four `.`-separated fields, each 1–3 digits with value at most 255 |
| Matching.FirstMatch | main.py:69 | the match `re.sub` replaces next is non-empty, lies inside the text, and is in the language |
| Matching.FirstMatchLeftmost | main.py:69 | no match begins before that match; there is none exactly when the text holds no match anywhere |
| Matching.Segments | main.py:69 | cutting the text at successive matches gives kept and found pieces that alternate, begin and end with a kept piece, join back to the text, and whose found pieces are non-empty matches |
| Matching.SegmentsTail | main.py:69 | the text after the last match holds no match |
| Matching.SegmentsLeftmost | main.py:69 | no match begins inside a gap before a found piece: each found piece is the leftmost match of the text that remains |
| Scrambler.GenerateFakeValue | main.py:75-100 | a known name calls the provider once and emits exactly the value that call returns, or the matched text when the call fails; a name without a generator emits the matched text and calls nothing |
| Scrambler.Sub | main.py:69 | a text without a match is returned unchanged; a name without a generator changes nothing; provider calls never decrease |
| Scrambler.ReplacePattern | main.py:56-70 | replacing a category's pattern leaves a text without a match of it unchanged, and changes nothing for a name without a generator |
| Scrambler.SubIsRender | main.py:68-70 | the substitution equals the segmentation rendered piece by piece: gaps are copied verbatim and in order, and each match is replaced by its generated value |
| Scrambler.FailingProviderKeepsText | main.py:98-100 | with a provider that always fails, replacing a pattern returns the text unchanged |
| Scrambler.OneCallPerMatch | main.py:86-94 | for a known name, the provider is called exactly once per match |
| Scrambler.ApplyNames | main.py:46-52 | provider calls never decrease; a list of names none of which is in the table leaves the text unchanged |
| Scrambler.ScrambleText | main.py:32-54 | a given list of unknown names, the empty list included, returns the text unchanged |
| Scrambler.ApplyNamesAppend | main.py:46-52 | names apply in order, each on the previous output: applying `a + b` is applying `a`, then `b` to the result |
| Scrambler.SkipsUnknownName | main.py:46-49 | a name not in the table is skipped: removing it from the list does not change the result |
| Scrambler.DefaultOrderApplied | main.py:43-52 | with no names given, the result is phone_number, then credit_card, then email, then ip_address, each applied to the previous output |
| Scrambler.NoMatchUnchanged | main.py:46-54 | a text with no match of any requested category is returned unchanged (the empty text in particular) |
| Scrambler.FailingProviderScramblesNothing | main.py:98-100 | with a provider that always fails, any list of names returns the text unchanged |
| Scenarios.PhoneSample | main.py:26 | `555-123-4567` matches the phone pattern |
| Scenarios.CardSample | main.py:27 | the 16-digit Visa number `4111111111111111` matches the credit-card pattern |
| Scenarios.EmailSample | main.py:28 | `jane@example.com` matches the email pattern |
| Scenarios.OutOfRangeNotMatched | main.py:29 | `999.999.999.999` holds no ip_address match anywhere, so the ip_address step returns it unchanged |

## Left out

- Argument parsing, input/output and the exit codes of `setup_argparse` and `main` (main.py:102-171) are left out. They are plumbing around the core.
- Logging (main.py:10, 48, 72, 96, 99) is left out. It is a side effect only.
- Constructing the fake-data provider and validating its locale (main.py:24) are left out. These are foreign code.
- The random values the provider produces are left out for the same reason. The provider is the `Provider` oracle, and the model claims nothing about the shape of its values.
- Any exception raised by a provider call is the oracle outcome `None`.
- The `re.error` branch of `replace_pattern` (main.py:71-73) is left out. It cannot fire with the four fixed patterns. If it did, that category would return the text unchanged.
- The exact backtracking order of Python's `re` (lazy `??`, first alternative first) is left out. It is the `Engine` oracle. The model fixes the leftmost start, and every candidate it may pick is a non-empty match in the language.
- Unicode breadth of `\d` and `\s` is left out. Digits are ASCII `0-9`. Whitespace is space, tab, line feed, carriage return, vertical tab and form feed.
