# Package selection in the NeuroPsychologist bot

This project models, in Dafny, how the Telegram bot turns a purchase tap into one
of three credit packages and the confirmation text for it. It proves properties
of that model.

- **Reply keyboard** (`bot.py`). `/buy` shows the tariff lines under a reply keyboard with three labels.
  - A tapped label comes back as an ordinary text message.
  - `handle_buy_buttons` strips the message and matches it against `BUY_RE`, which is `^Купить\s+(300|100|30)\b` without case.
  - It turns group 1 into an integer and answers with that package's confirmation. Any other text gets no reply.
- **Inline keyboard** (`handlers/screenshots.py`). The buttons of `BUY_KB` send back `preview:credits_<n>`.
  - `preview_callback` splits that data once, at the first colon, and unpacks the two halves.
  - The half after the colon picks a confirmation, or "Пакет не найден" when it names no package.
  - `buy_text_buttons` decodes the same labels when they arrive as text. It uses `BUY_BUTTON_RE`, `^Купить\s+(30|100|300)\s+кредитов`, which requires whitespace and "кредитов" after the number rather than a word boundary.
- **Catalogue**. Both surfaces share one fixed catalogue: 30 credits for 30 ₽, 100 for 90 ₽, and 300 for 250 ₽.

The modules follow the program's structure:

- `PyStr` (pystr.dfy) holds the Python string operations the handlers rely on: `str.strip()` over Python's whitespace set, `split(":", 1)`, `str(n)` and `int(s)` on decimal numerals, and `text or ""`.
- `Pattern` (pattern.dfy) holds the shape both regexes share, `^LEAD\s+(ALT|…)FOLLOW` with FOLLOW either `\b` or `\s+WORD`. It has three parts:
  - a recogniser that tries the alternatives in order, as Python's engine does;
  - a declarative statement of when the regex matches with a given group;
  - proofs that the two agree.
- `Catalogue` (catalogue.dfy) holds the packages, the tariff lines, the button labels and the confirmation texts.
- `Bot` (bot.dfy) holds `BUY_RE`, `BUY_KEYBOARD` and `handle_buy_buttons`.
- `Screenshots` (screenshots.dfy) holds `BUY_KB`, `preview_callback`, `BUY_BUTTON_RE` and `buy_text_buttons`.
- `Surfaces` (surfaces.dfy) puts the two keyboards and the two text decoders side by side.

The comment above `BUY_RE` (bot.py:39) says that 300 must come first or "300" would be taken for "30". The code does not depend on that order. Because `\b` must follow the number, at most one alternative can match any message, so every order gives the same result. `Bot.BuyReOrderIrrelevant` proves this. For `BUY_BUTTON_RE`, which does list 30 first, `Screenshots.BuyButtonReOrderIrrelevant` proves the same. The model follows the code. The comment is harmless, so it is not listed as a finding.

The tariff text `BUY_TEXT` says that one answer costs 3 credits and that the first 5 answers are free (bot.py:25-26). No code in `bot.py` or `handlers/screenshots.py` keeps a credit balance, debits it or counts free answers, so the model has nothing of that kind: the text is shown, nothing enforces it.

## Model

| member | source | states |
|---|---|---|
| PyStr.OrEmpty | bot.py:57 | `text or ""`: the message text when there is one, the empty string when there is none; no contract of its own, used by `HandleBuyButtons` and `BuyTextButtons` |
| PyStr.Strip | bot.py:57 | the stripped text has no whitespace at either end and is no longer than the input |
| PyStr.StripSplit | bot.py:57 | the input is a whitespace run, then the stripped text, then a whitespace run |
| PyStr.StripPadded | bot.py:57 | stripping whitespace-padded text with no whitespace at its own ends gives back that text |
| PyStr.StripIgnoresPadding | bot.py:57 | whitespace added around any text does not change what `strip()` returns |
| PyStr.StripFixedIffTrimmed | handlers/screenshots.py:50 | `strip()` leaves a text unchanged exactly when it has no whitespace at either end |
| PyStr.StripIdempotent | handlers/screenshots.py:50 | stripping twice is stripping once |
| PyStr.LeadingSpaces | bot.py:40 | the greedy `\s+` run: all whitespace, and followed by a non-whitespace character or the end |
| PyStr.FindFirst | handlers/screenshots.py:32 | the first occurrence of the separator, or none exactly when it does not occur |
| PyStr.SplitOnce | handlers/screenshots.py:32 | `split(":", 1)`: one part exactly when there is no colon; otherwise a colon-free head and a tail that rejoin to the input |
| PyStr.SplitOnceJoin | handlers/screenshots.py:32 | text made of a colon-free head, a colon and any tail splits into exactly that head and tail |
| PyStr.Decimal | bot.py:62 | `str(n)` is a canonical numeral: digits only, no leading zero |
| PyStr.IntValue | bot.py:62 | `int(s)` on a string of decimal digits; no contract of its own, pinned by `IntValueOfDecimal` and `DecimalOfIntValue` as the inverse of `str` |
| PyStr.IntValueOfDecimal | bot.py:62 | `int(str(n)) == n` |
| PyStr.DecimalOfIntValue | bot.py:62 | `str(int(s)) == s` for every canonical numeral `s` |
| PyStr.DecimalInjective | bot.py:62 | different numbers have different numerals |
| PyStr.IntValuePositive | bot.py:62 | a numeral without a leading zero has a positive value |
| Pattern.MatchGroup | bot.py:58-62 | `re.match` and `m.group(1)` for `^LEAD\s+(…)FOLLOW`: any group it yields is one of the alternatives and lies past LEAD; fully pinned by `MatchGroupIff` against the declarative meaning |
| Pattern.FirstAlternative | bot.py:40 | the alternation tries the numerals in order: none exactly when no numeral fits, otherwise the first one that fits |
| Pattern.MatchGroupIff | bot.py:40 | the recogniser yields group `g` exactly when the regex matches with `g` as group 1, by the declarative meaning of `^LEAD\s+(…)FOLLOW` |
| Pattern.MatchGroupNoneIff | bot.py:58-60 | the recogniser yields nothing exactly when no group can make the regex match |
| Pattern.MatchesIffFits | bot.py:40 | a match exists exactly when, after LEAD and the whole whitespace run, the numeral fits; backtracking into `\s+` finds nothing more |
| Pattern.FollowFitsIffFollows | handlers/screenshots.py:47 | the deterministic test after the numeral agrees with `\b`, and with `\s+WORD` for some whitespace run |
| Pattern.AltFitsExclusive | bot.py:39-40 | two canonical numerals that both fit at the same place are equal |
| Pattern.AlternativeOrderIrrelevant | bot.py:39-40 | listing the same numerals in another order gives the same result on every text |
| Pattern.SpacesThenImpliesBoundary | handlers/screenshots.py:47 | whatever the `\s+WORD` form matches, the `\b` form matches with the same group |
| Pattern.MatchGroupOfParts | bot.py:40 | a case variant of LEAD, whitespace, a numeral and anything FOLLOW accepts match with that numeral; the rest of the text is not looked at |
| Pattern.Amount | bot.py:57-62 | strip, match and `int(group)`: any amount produced is one whose numeral is an alternative |
| Pattern.AmountIff | bot.py:57-62 | the amount is `n` exactly when the regex matches the stripped text with `str(n)` as group 1 |
| Pattern.AmountOfTrimmed | bot.py:57-62 | on text with no whitespace at either end, the amount is the value of the matched group |
| Pattern.AmountIgnoresPadding | bot.py:57 | whitespace around the text never changes the amount |
| Catalogue.PackageFor | bot.py:22-24 | a package is found exactly for the credits of a catalogue entry, and it is that entry |
| Catalogue.SelectionQuotesTariff | bot.py:22-24 | for each package, the reply to its amount is its confirmation, and that confirmation quotes the same credits and price as its line in `BUY_TEXT` |
| Catalogue.SelectionConfirmsPackage | bot.py:63-68 | the amount-to-message chain answers each of 30, 100 and 300 with the confirmation of the package of that size |
| Catalogue.SelectionMessage | bot.py:63-68 | the if/elif/else chain on the parsed amount; no contract of its own, pinned by `SelectionConfirmsPackage` (30, 100 and 300 get their package's confirmation) and `SelectionMessagesDistinct` |
| Catalogue.SelectionMessagesDistinct | bot.py:63-68 | the three confirmations differ, so the reply identifies the package |
| Catalogue.NumeralOfPackage | bot.py:62 | a number whose numeral is one of "30", "100" and "300" is 30, 100 or 300 |
| Bot.BuyAmount | bot.py:57-62 | the parsed amount, when there is one, is 30, 100 or 300 |
| Bot.HandleBuyButtons | bot.py:56-70 | a reply is sent exactly when an amount is parsed, and the reply is the confirmation of the catalogue package of that amount |
| Bot.BuyAmountIff | bot.py:57-62 | package `n` is chosen exactly when `BUY_RE` matches the stripped message with `str(n)` as group 1 |
| Bot.BuyNoReplyWithoutPrefix | bot.py:58-60 | a stripped message that does not begin with some letter case of "Купить" gets no reply |
| Bot.BuyIgnoresPadding | bot.py:57 | a padded message gets the same reply as the bare one |
| Bot.BuyReIgnoresRest | bot.py:40 | any case variant of "Купить", whitespace, 30/100/300 and anything that does not continue the number as a word selects that number |
| Bot.BuyIgnoresRest | bot.py:56-62 | the same at the level of the handler, for a message with no surrounding whitespace |
| Bot.ButtonLabelRoundTrip | bot.py:31-33 | the label of each catalogue package selects exactly that package |
| Bot.BuyReWellFormed | bot.py:40 | the constant `BuyRe` writes `BUY_RE` as LEAD "Купить", the alternatives 300, 100, 30 in that order, FOLLOW `\b`; the contract states that every alternative is a numeral as `str()` writes it, which the recogniser's lemmas require |
| Bot.BuyKeyboardLabels | bot.py:31-33 | `BUY_KEYBOARD` holds the catalogue's labels in catalogue order |
| Bot.BuyKeyboardRoundTrip | bot.py:31-33 | each keyboard label selects the amount it names and gets that package's confirmation |
| Bot.BuyReOrderIrrelevant | bot.py:39-40 | `BUY_RE` with 30 listed first would behave identically |
| Bot.BuyAmountOfTrimmed | bot.py:57-60 | on a message with no surrounding whitespace, the handler answers exactly when `BUY_RE` matches |
| Bot.BuyReAcceptsTrailingText | bot.py:39-40 | "Купить 300 кредитов" selects 300, not 30 |
| Bot.BuyReAcceptsLowerCase | bot.py:40 | "купить 30" is accepted |
| Bot.BuyReRejectsLongerNumber | bot.py:40 | "Купить 3000" is rejected |
| Bot.BuyReRejectsGluedWord | bot.py:40 | "Купить 30кредитов" is rejected |
| Bot.BuyReRejectsMissingSpace | bot.py:40 | "Купить300" is rejected: `\s+` needs at least one whitespace character |
| Bot.BuyReRejectsOtherNumber | bot.py:40 | "Купить 50" is rejected |
| Screenshots.PreviewCallback | handlers/screenshots.py:28-42 | missing data raises; data with no colon raises on unpacking; otherwise the reply is a package's confirmation or "Пакет не найден" |
| Screenshots.KeyMessage | handlers/screenshots.py:33-40 | the if/elif/else chain on the callback key; no contract of its own, pinned by `KeyMessageIff` and `KeyMessageNotFoundIff` |
| Screenshots.KeyMessageCases | handlers/screenshots.py:33-40 | every outcome of the key chain is a confirmation or the not-found text |
| Screenshots.NotFoundIsNoConfirmation | handlers/screenshots.py:39-40 | the not-found text is no package's confirmation |
| Screenshots.KeyMessageIff | handlers/screenshots.py:33-38 | the chain confirms package `i` exactly for the key `credits_<n>` of package `i` |
| Screenshots.KeyMessageNotFoundIff | handlers/screenshots.py:39-40 | "Пакет не найден" is the answer exactly for keys other than the three package keys |
| Screenshots.PreviewReplyOfParts | handlers/screenshots.py:32 | the part before the first colon is ignored, and everything after it, later colons included, is the key |
| Screenshots.KeyWithColonNotFound | handlers/screenshots.py:32-40 | a key containing a colon is not found |
| Screenshots.PreviewSelectsIff | handlers/screenshots.py:32-38 | the callback confirms package `i` exactly when the data is a colon-free prefix, a colon and the key of package `i` |
| Screenshots.PreviewIgnoresForeignPrefix | handlers/screenshots.py:32-36 | "x:credits_100" selects 100 |
| Screenshots.PreviewSecondColonNotFound | handlers/screenshots.py:32-40 | "preview:credits_30:" followed by anything gets "Пакет не найден" |
| Screenshots.PreviewBareKeyRaises | handlers/screenshots.py:32 | "credits_30", with no colon, raises on unpacking |
| Screenshots.PackageKeys | handlers/screenshots.py:18-20 | the keys of the three packages are `credits_30`, `credits_100` and `credits_300` |
| Screenshots.BuyButtonReWellFormed | handlers/screenshots.py:47 | the constant `BuyButtonRe` writes `BUY_BUTTON_RE` as LEAD "Купить", the alternatives 30, 100, 300, FOLLOW `\s+кредитов`; the contract states that every alternative is a numeral as `str()` writes it and that the word after `\s+` starts with a non-space |
| Screenshots.BuyKbButtons | handlers/screenshots.py:17-21 | `BUY_KB` holds, in catalogue order, each package's label with `preview:` and its key as callback data |
| Screenshots.BuyKbRoundTrip | handlers/screenshots.py:18-20 | each button's callback data is answered with the confirmation of the package its label names |
| Screenshots.TextButtonAmount | handlers/screenshots.py:50-55 | the parsed amount, when there is one, is 30, 100 or 300 |
| Screenshots.BuyTextButtons | handlers/screenshots.py:49-63 | a reply is sent exactly when an amount is parsed, and the reply is the confirmation of the catalogue package of that amount |
| Screenshots.TextButtonAmountIff | handlers/screenshots.py:50-55 | package `n` is chosen exactly when `BUY_BUTTON_RE` matches the stripped message with `str(n)` as group 1 |
| Screenshots.TextButtonsIgnorePadding | handlers/screenshots.py:50 | a padded message gets the same reply as the bare one |
| Screenshots.BuyButtonReOrderIrrelevant | handlers/screenshots.py:47 | `BUY_BUTTON_RE` with 300 listed first would behave identically |
| Screenshots.ButtonReIgnoresRest | handlers/screenshots.py:47 | any case variant of "Купить", whitespace, 30/100/300, one space and "кредитов" match, whatever follows |
| Screenshots.LabelMatchesButtonRe | handlers/screenshots.py:18-20 | each package's label matches `BUY_BUTTON_RE` with its numeral as group 1 |
| Screenshots.TextLabelAmount | handlers/screenshots.py:50-55 | each package's label, sent as text, selects that package's amount |
| Screenshots.TextLabelRoundTrip | handlers/screenshots.py:49-63 | each package's label, sent as text, gets that package's confirmation |
| Screenshots.BuyKbTextRoundTrip | handlers/screenshots.py:17-21 | each `BUY_KB` label sent as text gets the same reply as a tap on its button |
| Screenshots.BuyButtonReAcceptsExample | handlers/screenshots.py:47 | "Купить 300 кредитов" selects 300 although 30 is tried first |
| Screenshots.BuyButtonReRejectsBareAmount | handlers/screenshots.py:47 | "Купить 30" alone is rejected |
| Surfaces.KeyboardsShowSameLabels | bot.py:31-33 | the reply keyboard and `BUY_KB` show the same labels, row for row |
| Surfaces.ButtonReImpliesBuyRe | handlers/screenshots.py:47 | whatever `BUY_BUTTON_RE` accepts, `BUY_RE` accepts with the same number |
| Surfaces.TextDecodersAgree | handlers/screenshots.py:49-63 | whenever `buy_text_buttons` answers, `handle_buy_buttons` gives the same answer |
| Surfaces.BuyReAcceptsMore | bot.py:40 | the converse fails: "Купить 30" is answered by `handle_buy_buttons` only |

## Left out

- Telegram transport is not modelled: `reply_text`, `q.answer()`, the async handler signatures, handler registration, the webhook set-up in `main`, and the `/start` and `/buy` replies. A reply is modelled as the returned text, and "no reply" as `None`.
- Environment variables and logging set-up are configuration and side effects, so they are not modelled.
- The keyboard markup objects are library UI types. Only their label and `callback_data` strings are kept, as constants.
- `BUY_TEXT` outside the three tariff lines is marketing copy, so it is not modelled.
- The repeated imports at handlers/screenshots.py:43-45 have no behaviour, so they are not modelled.
- A general regex engine is not modelled. Only the shape the two patterns share is.
- `update.message` being absent (an update that carries no message) is not modelled. The handlers would fail on the attribute access, and the model starts from the message text.
- PyStr.IsWordChar: `\w` is approximated by ASCII letters, digits and `_`, the Latin-1 letters and digits, and the Cyrillic block U+0400–U+04FF without the combining marks. Python's full Unicode `\w` is wider.
- PyStr.Lower: `re.IGNORECASE` is approximated by ASCII and basic Cyrillic (U+0400–U+045F) case pairs. Full Unicode case folding is not modelled.
- The ledger, the free-trial allowance, debits and the conversation context have no code in these files, so they are not modelled.
