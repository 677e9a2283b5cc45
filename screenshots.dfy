/**
 * The purchase preview of the screenshots handlers: the tariff text under an
 * inline keyboard whose buttons send `preview:credits_<n>` back as callback
 * data, `preview_callback` that decodes that data, and `buy_text_buttons`,
 * which decodes the same labels when they arrive as ordinary text with
 * `BUY_BUTTON_RE`.
 */
module Screenshots {
  import opened PyStr
  import opened Pattern
  import opened Catalogue

  // ---------------------------------------------------------------------------
  // The inline keyboard and its callback

  /** An inline keyboard button: its caption and the callback data a tap sends back. */
  datatype InlineButton = InlineButton(caption: string, callbackData: string)

  /** The buttons of `BUY_KB`, one per row. */
  const BuyKb: seq<InlineButton> := [
    InlineButton("Купить 30 кредитов · 30 ₽", "preview:credits_30"),
    InlineButton("Купить 100 кредитов · 90 ₽", "preview:credits_100"),
    InlineButton("Купить 300 кредитов · 250 ₽", "preview:credits_300")
  ]

  /** The key that names package `p` after the colon of the callback data. */
  function PackageKey(p: Package): string {
    "credits_" + Decimal(p.credits)
  }

  /** The button the catalogue calls for: `p`'s label, and `preview:` followed by `p`'s key. */
  function PackageButton(p: Package): InlineButton {
    InlineButton(ButtonLabel(p), "preview:" + PackageKey(p))
  }

  /** The exception `preview_callback` ends with instead of a reply. */
  datatype CallbackError =
    | MissingData      // `q.data` is `None`: `split` is looked up on `None`
    | NotEnoughValues  // no colon: `split(":", 1)` gives one part for two names

  /** What one run of `preview_callback` comes to. */
  datatype Outcome = Reply(text: string) | Raised(error: CallbackError)

  /** The reply to a key that names no package. */
  const PackageNotFound: string := "Пакет не найден"

  /** The if/elif/else chain of `preview_callback` on the key after the colon. */
  function KeyMessage(key: string): string {
    if key == "credits_30" then "Вы выбрали пакет 30 кредитов за 30 ₽"
    else if key == "credits_100" then "Вы выбрали пакет 100 кредитов за 90 ₽"
    else if key == "credits_300" then "Вы выбрали пакет 300 кредитов за 250 ₽"
    else PackageNotFound
  }

  /**
   * `preview_callback`: split the callback data once at the first colon, bind
   * the two halves, and answer according to the second one.
   */
  function PreviewCallback(data: Option<string>): (r: Outcome)
    ensures r == Raised(MissingData) <==> data.None?
    ensures r == Raised(NotEnoughValues) <==> data.Some? && ':' !in data.value
    ensures r.Reply? ==> ':' in data.value && r.text in {PackageNotFound} + set i | 0 <= i < |Packages| :: Confirmation(Packages[i])
  {
    if data.None? then Raised(MissingData)
    else
      var parts := SplitOnce(data.value, ':');
      if |parts| != 2 then Raised(NotEnoughValues)
      else
        KeyMessageCases(parts[1]);
        Reply(KeyMessage(parts[1]))
  }

  /** The keys of the three packages, written out. */
  lemma PackageKeys()
    ensures PackageKey(Packages[0]) == "credits_30"
    ensures PackageKey(Packages[1]) == "credits_100"
    ensures PackageKey(Packages[2]) == "credits_300"
  {
    CatalogueNumerals();
  }

  /** Every reply of the chain is a package's confirmation or the not-found text. */
  lemma KeyMessageCases(key: string)
    ensures KeyMessage(key) in {PackageNotFound} + set i | 0 <= i < |Packages| :: Confirmation(Packages[i])
  {
    SelectionQuotesTariff(0);
    SelectionQuotesTariff(1);
    SelectionQuotesTariff(2);
    var c := KeyMessage(key);
    if key == "credits_30" {
      assert c == Confirmation(Packages[0]);
    } else if key == "credits_100" {
      assert c == Confirmation(Packages[1]);
    } else if key == "credits_300" {
      assert c == Confirmation(Packages[2]);
    }
  }

  /** The not-found text is no package's confirmation. */
  lemma NotFoundIsNoConfirmation(i: nat)
    requires i < |Packages|
    ensures PackageNotFound != Confirmation(Packages[i])
  {
    SelectionQuotesTariff(i);
    assert |PackageNotFound| < |SelectionMessage(Packages[i].credits)|;
  }

  /** The chain confirms package `i` exactly for the key of package `i`. */
  lemma KeyMessageIff(key: string, i: nat)
    requires i < |Packages|
    ensures KeyMessage(key) == Confirmation(Packages[i]) <==> key == PackageKey(Packages[i])
  {
    PackageKeys();
    SelectionQuotesTariff(0);
    SelectionQuotesTariff(1);
    SelectionQuotesTariff(2);
    NotFoundIsNoConfirmation(i);
    if i != 0 { SelectionMessagesDistinct(i, 0); }
    if i != 1 { SelectionMessagesDistinct(i, 1); }
    if i != 2 { SelectionMessagesDistinct(i, 2); }
  }

  /** Any key other than the three package keys gets "Пакет не найден". */
  lemma KeyMessageNotFoundIff(key: string)
    ensures KeyMessage(key) == PackageNotFound <==> forall i :: 0 <= i < |Packages| ==> key != PackageKey(Packages[i])
  {
    PackageKeys();
    SelectionQuotesTariff(0);
    SelectionQuotesTariff(1);
    SelectionQuotesTariff(2);
    NotFoundIsNoConfirmation(0);
    NotFoundIsNoConfirmation(1);
    NotFoundIsNoConfirmation(2);
  }

  /**
   * Only the first colon splits: whatever stands before it is bound to `_` and
   * never looked at, and everything after it, further colons included, is the key.
   */
  lemma PreviewReplyOfParts(prefix: string, key: string)
    requires ':' !in prefix
    ensures PreviewCallback(Some(prefix + [':'] + key)) == Reply(KeyMessage(key))
  {
    SplitOnceJoin(prefix, ':', key);
  }

  /** A key with a colon in it names no package, so data such as `preview:credits_30:x` is not found. */
  lemma KeyWithColonNotFound(key: string)
    requires ':' in key
    ensures KeyMessage(key) == PackageNotFound
  {
    assert ':' !in "credits_30" && ':' !in "credits_100" && ':' !in "credits_300";
  }

  /**
   * The callback confirms package `i` exactly when the data is some colon-free
   * prefix, a colon, and the key of package `i`.
   */
  lemma PreviewSelectsIff(data: string, i: nat)
    requires i < |Packages|
    ensures PreviewCallback(Some(data)) == Reply(Confirmation(Packages[i])) <==>
      exists prefix :: ':' !in prefix && data == prefix + [':'] + PackageKey(Packages[i])
  {
    KeyMessageIff(PackageKey(Packages[i]), i);
    if PreviewCallback(Some(data)) == Reply(Confirmation(Packages[i])) {
      var parts := SplitOnce(data, ':');
      KeyMessageIff(parts[1], i);
      assert ':' !in parts[0] && data == parts[0] + [':'] + PackageKey(Packages[i]);
    }
    if prefix :| ':' !in prefix && data == prefix + [':'] + PackageKey(Packages[i]) {
      PreviewReplyOfParts(prefix, PackageKey(Packages[i]));
    }
  }

  lemma Button30()
    ensures BuyKb[0] == PackageButton(Packages[0])
  {
    Label30();
    var p := Package(30, 30);
    CatalogueNumerals();
    assert PackageKey(p) == "credits_30";
    assert "preview:" + PackageKey(p) == "preview:credits_30";
  }

  lemma Button100()
    ensures BuyKb[1] == PackageButton(Packages[1])
  {
    Label100();
    var p := Package(100, 90);
    CatalogueNumerals();
    assert PackageKey(p) == "credits_100";
    assert "preview:" + PackageKey(p) == "preview:credits_100";
  }

  lemma Button300()
    ensures BuyKb[2] == PackageButton(Packages[2])
  {
    Label300();
    var p := Package(300, 250);
    CatalogueNumerals();
    assert PackageKey(p) == "credits_300";
    assert "preview:" + PackageKey(p) == "preview:credits_300";
  }

  /** The part before the colon is never checked: `x:credits_100` selects 100 like `preview:credits_100`. */
  lemma PreviewIgnoresForeignPrefix()
    ensures PreviewCallback(Some("x:credits_100")) == Reply(Confirmation(Packages[1]))
  {
    PackageKeys();
    assert "x:credits_100" == "x" + [':'] + PackageKey(Packages[1]);
    PreviewReplyOfParts("x", PackageKey(Packages[1]));
    KeyMessageIff(PackageKey(Packages[1]), 1);
  }

  /** A second colon stays in the key: `preview:credits_30:` followed by anything is not found. */
  lemma PreviewSecondColonNotFound(rest: string)
    ensures PreviewCallback(Some("preview:credits_30:" + rest)) == Reply(PackageNotFound)
  {
    var key := "credits_30:" + rest;
    assert "preview:credits_30:" + rest == "preview" + [':'] + key;
    PreviewReplyOfParts("preview", key);
    assert key[10] == ':';
    KeyWithColonNotFound(key);
  }

  /** Data with no colon at all cannot be unpacked into two names. */
  lemma PreviewBareKeyRaises()
    ensures PreviewCallback(Some("credits_30")) == Raised(NotEnoughValues)
  {
    assert forall i :: 0 <= i < |"credits_30"| ==> "credits_30"[i] != ':';
  }

  /** `BUY_KB` holds the catalogue's buttons, in catalogue order. */
  lemma BuyKbButtons(i: nat)
    requires i < |BuyKb|
    ensures i < |Packages| && BuyKb[i] == PackageButton(Packages[i])
  {
    if i == 0 {
      Button30();
    } else if i == 1 {
      Button100();
    } else {
      Button300();
    }
  }

  /** A tap on any button of `BUY_KB` is answered with the confirmation of the package its label names. */
  lemma BuyKbRoundTrip(i: nat)
    requires i < |BuyKb|
    ensures i < |Packages| && PreviewCallback(Some(BuyKb[i].callbackData)) == Reply(Confirmation(Packages[i]))
  {
    BuyKbButtons(i);
    var key := PackageKey(Packages[i]);
    assert BuyKb[i].callbackData == "preview" + [':'] + key;
    PreviewReplyOfParts("preview", key);
    KeyMessageIff(key, i);
  }

  // ---------------------------------------------------------------------------
  // The same labels sent as text

  /** `BUY_BUTTON_RE`: `^Купить\s+(30|100|300)\s+кредитов`, case-insensitive. */
  const BuyButtonRe: Regex := Regex("Купить", ["30", "100", "300"], SpacesThen("кредитов"))

  lemma BuyButtonReWellFormed()
    ensures WellFormed(BuyButtonRe)
  {
    assert Canonical("300") && Canonical("100") && Canonical("30");
    assert Lower("кредитов"[0]) == 'к';
  }

  /** Strip the message, match `BUY_BUTTON_RE`, and read group 1 as an integer. */
  function TextButtonAmount(text: string): (r: Option<nat>)
    ensures r.Some? ==> r.value == 30 || r.value == 100 || r.value == 300
  {
    BuyButtonReWellFormed();
    var r := Amount(BuyButtonRe, text);
    if r.Some? then
      ButtonReNumeral(r.value);
      r
    else r
  }

  /** A number written as one of the alternatives of `BUY_BUTTON_RE` is one of the packages. */
  lemma ButtonReNumeral(n: nat)
    requires Decimal(n) in BuyButtonRe.alts
    ensures n == 30 || n == 100 || n == 300
  {
    NumeralOfPackage(n);
  }

  /**
   * `buy_text_buttons`: the confirmation of the package the message picks, or
   * `None` when the handler returns without answering.
   */
  function BuyTextButtons(text: Option<string>): (reply: Option<string>)
    ensures reply.Some? <==> TextButtonAmount(OrEmpty(text)).Some?
    ensures reply.Some? ==>
      var p := PackageFor(TextButtonAmount(OrEmpty(text)).value);
      p.Some? && reply.value == Confirmation(p.value)
  {
    var n := TextButtonAmount(OrEmpty(text));
    if n.None? then None
    else
      SelectionConfirmsPackage(n.value);
      Some(SelectionMessage(n.value))
  }

  /**
   * The handler picks package `n` exactly when `BUY_BUTTON_RE` matches the
   * stripped message with `str(n)` as group 1; otherwise it stays silent.
   */
  lemma TextButtonAmountIff(text: string, n: nat)
    ensures TextButtonAmount(text) == Some(n) <==> Matches(BuyButtonRe, Strip(text), Decimal(n))
  {
    BuyButtonReWellFormed();
    AmountIff(BuyButtonRe, text, n);
  }

  /** Whitespace around the message never changes the reply. */
  lemma TextButtonsIgnorePadding(a: string, text: string, b: string)
    requires AllSpace(a) && AllSpace(b)
    ensures BuyTextButtons(Some(a + text + b)) == BuyTextButtons(Some(text))
  {
    BuyButtonReWellFormed();
    AmountIgnoresPadding(BuyButtonRe, a, text, b);
  }

  /**
   * Trying 30 before 300 is harmless: "30" in "300 кредитов" is not followed
   * by whitespace, so the engine goes on to "300", and the regex with the
   * alternatives in any other order gives the same result on every message.
   */
  lemma BuyButtonReOrderIrrelevant(t: string)
    ensures MatchGroup(BuyButtonRe, t) == MatchGroup(Regex("Купить", ["300", "100", "30"], SpacesThen("кредитов")), t)
  {
    BuyButtonReWellFormed();
    var q := Regex("Купить", ["300", "100", "30"], SpacesThen("кредитов"));
    assert WellFormed(q);
    AlternativeOrderIrrelevant(BuyButtonRe, q, t);
  }

  /** One space and then "кредитов" satisfy the `\s+кредитов` after the numeral, whatever follows. */
  lemma CreditsWordFollows(rest: string)
    ensures FollowFits(" кредитов" + rest, SpacesThen("кредитов"))
  {
    var u := " кредитов" + rest;
    assert u[..1] == " " && u[1] == 'к';
    LeadingSpacesUnique(u, 1);
    assert u[1..9] == "кредитов";
  }

  /**
   * Any case variant of "Купить", a whitespace run, one of the three numbers,
   * one space and "кредитов" match, whatever comes after them.
   */
  lemma ButtonReIgnoresRest(lead: string, ws: string, n: nat, rest: string)
    requires EqualIgnoringCase(lead, "Купить")
    requires |ws| >= 1 && AllSpace(ws)
    requires n == 30 || n == 100 || n == 300
    ensures MatchGroup(BuyButtonRe, lead + ws + Decimal(n) + (" кредитов" + rest)) == Some(Decimal(n))
  {
    BuyButtonReWellFormed();
    CatalogueNumerals();
    CreditsWordFollows(rest);
    MatchGroupOfParts(BuyButtonRe, lead, ws, Decimal(n), " кредитов" + rest);
  }

  /** The label for `p`, taken apart after the number. */
  lemma ButtonLabelSplit(p: Package)
    ensures ButtonLabel(p) == "Купить" + " " + Decimal(p.credits) + (" кредитов" + (" · " + Decimal(p.price) + " ₽"))
  {
  }

  /** A package's label matches `BUY_BUTTON_RE` with the package's numeral as group 1. */
  lemma LabelMatchesButtonRe(p: Package)
    requires p in Packages
    ensures MatchGroup(BuyButtonRe, ButtonLabel(p)) == Some(Decimal(p.credits))
  {
    ButtonLabelSplit(p);
    ButtonReIgnoresRest("Купить", " ", p.credits, " · " + Decimal(p.price) + " ₽");
  }

  /** A label has no whitespace at either end, so `strip()` leaves it alone. */
  lemma ButtonLabelTrimmed(p: Package)
    ensures Trimmed(ButtonLabel(p))
  {
    var t := ButtonLabel(p);
    assert t[0] == 'К' && t[|t| - 1] == '₽';
  }

  /** Every button label, sent as text, selects the package it names. */
  lemma TextLabelAmount(p: Package)
    requires p in Packages
    ensures TextButtonAmount(ButtonLabel(p)) == Some(p.credits)
  {
    LabelMatchesButtonRe(p);
    ButtonLabelTrimmed(p);
    BuyButtonReWellFormed();
    AmountOfTrimmed(BuyButtonRe, ButtonLabel(p), Decimal(p.credits));
    IntValueOfDecimal(p.credits);
  }

  /** Every button label, sent as text, is answered with the confirmation of the package it names. */
  lemma TextLabelRoundTrip(i: nat)
    requires i < |Packages|
    ensures BuyTextButtons(Some(ButtonLabel(Packages[i]))) == Some(Confirmation(Packages[i]))
  {
    TextLabelAmount(Packages[i]);
    SelectionQuotesTariff(i);
  }

  /** Every label of `BUY_KB`, sent as text, gets the same reply as a tap on its button. */
  lemma BuyKbTextRoundTrip(i: nat)
    requires i < |BuyKb|
    ensures i < |Packages| && BuyTextButtons(Some(BuyKb[i].caption)) == Some(Confirmation(Packages[i]))
    ensures PreviewCallback(Some(BuyKb[i].callbackData)) == Reply(BuyTextButtons(Some(BuyKb[i].caption)).value)
  {
    BuyKbButtons(i);
    BuyKbRoundTrip(i);
    TextLabelRoundTrip(i);
  }

  /** `BUY_BUTTON_RE` finds 300 in "Купить 300 кредитов" although it tries 30 first. */
  lemma BuyButtonReAcceptsExample()
    ensures MatchGroup(BuyButtonRe, "Купить 300 кредитов") == Some("300")
  {
    BuyButtonReWellFormed();
    CatalogueNumerals();
    CreditsWordFollows("");
    assert "Купить 300 кредитов" == "Купить" + " " + "300" + (" кредитов" + "");
    MatchGroupOfParts(BuyButtonRe, "Купить", " ", "300", " кредитов" + "");
  }

  /** `BUY_BUTTON_RE` needs the word "кредитов": a bare amount is not a button label. */
  lemma BuyButtonReRejectsBareAmount()
    ensures MatchGroup(BuyButtonRe, "Купить 30") == None
  {
    assert "Купить 30"[6..] == " 30" && " 30"[1..] == "30";
    assert LeadingSpaces(" 30") == 1;
    assert "30"[2..] == [];
  }
}
