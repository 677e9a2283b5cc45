/**
 * The reply-keyboard purchase flow of the bot's entry module. `/buy` shows the
 * tariffs under a keyboard of three labels; a tap on a label comes back as an
 * ordinary text message, which `handle_buy_buttons` decodes with `BUY_RE` into
 * one of the three packages and answers with that package's confirmation.
 * Any other text gets no reply at all.
 */
module Bot {
  import opened PyStr
  import opened Pattern
  import opened Catalogue

  /** `BUY_RE`: `^Купить\s+(300|100|30)\b`, case-insensitive. */
  const BuyRe: Regex := Regex("Купить", ["300", "100", "30"], WordBoundary)

  /** The labels of `BUY_KEYBOARD`, one per row. */
  const BuyKeyboard: seq<string> := [
    "Купить 30 кредитов · 30 ₽",
    "Купить 100 кредитов · 90 ₽",
    "Купить 300 кредитов · 250 ₽"
  ]

  lemma BuyReWellFormed()
    ensures WellFormed(BuyRe)
  {
    assert Canonical("300") && Canonical("100") && Canonical("30");
  }

  /** Strip the message, match `BUY_RE`, and read group 1 as an integer. */
  function BuyAmount(text: string): (r: Option<nat>)
    ensures r.Some? ==> r.value == 30 || r.value == 100 || r.value == 300
  {
    BuyReWellFormed();
    var r := Amount(BuyRe, text);
    if r.Some? then
      NumeralOfPackage(r.value);
      r
    else r
  }

  /**
   * `handle_buy_buttons`: the confirmation of the package the message picks,
   * or `None` when the bot does not answer.
   */
  function HandleBuyButtons(text: Option<string>): (reply: Option<string>)
    ensures reply.Some? <==> BuyAmount(OrEmpty(text)).Some?
    ensures reply.Some? ==>
      var p := PackageFor(BuyAmount(OrEmpty(text)).value);
      p.Some? && reply.value == Confirmation(p.value)
  {
    var amount := BuyAmount(OrEmpty(text));
    if amount.None? then None
    else
      SelectionConfirmsPackage(amount.value);
      Some(SelectionMessage(amount.value))
  }

  /**
   * The handler picks package `n` exactly when `BUY_RE` matches the stripped
   * message with `str(n)` as group 1; otherwise it stays silent.
   */
  lemma BuyAmountIff(text: string, n: nat)
    ensures BuyAmount(text) == Some(n) <==> Matches(BuyRe, Strip(text), Decimal(n))
  {
    BuyReWellFormed();
    AmountIff(BuyRe, text, n);
  }

  /** A message that does not begin with some letter case of "Купить" once stripped gets no reply. */
  lemma BuyNoReplyWithoutPrefix(text: string)
    requires |Strip(text)| < 6 || !EqualIgnoringCase(Strip(text)[..6], "Купить")
    ensures HandleBuyButtons(Some(text)) == None
  {
  }

  /** Whitespace around the message never changes the reply. */
  lemma BuyIgnoresPadding(a: string, text: string, b: string)
    requires AllSpace(a) && AllSpace(b)
    ensures HandleBuyButtons(Some(a + text + b)) == HandleBuyButtons(Some(text))
  {
    BuyReWellFormed();
    AmountIgnoresPadding(BuyRe, a, text, b);
  }

  /**
   * The match is anchored at the start only: any case variant of "Купить",
   * any whitespace run, one of the three numbers, and then anything that does
   * not continue the number as a word selects that number.
   */
  lemma BuyReIgnoresRest(lead: string, ws: string, n: nat, tail: string)
    requires EqualIgnoringCase(lead, "Купить")
    requires |ws| >= 1 && AllSpace(ws)
    requires n == 30 || n == 100 || n == 300
    requires tail == [] || !IsWordChar(tail[0])
    ensures MatchGroup(BuyRe, lead + ws + Decimal(n) + tail) == Some(Decimal(n))
  {
    BuyReWellFormed();
    CatalogueNumerals();
    MatchGroupOfParts(BuyRe, lead, ws, Decimal(n), tail);
  }

  lemma PartsTrimmed(lead: string, ws: string, n: nat, tail: string)
    requires |lead| > 0 && !IsSpace(lead[0])
    requires tail == [] || !IsSpace(tail[|tail| - 1])
    ensures Trimmed(lead + ws + Decimal(n) + tail)
  {
    var t := lead + ws + Decimal(n) + tail;
    assert t[0] == lead[0];
    assert tail == [] ==> t[|t| - 1] == Decimal(n)[|Decimal(n)| - 1];
    assert tail != [] ==> t[|t| - 1] == tail[|tail| - 1];
  }

  /** The same at the level of the handler, for a message with no surrounding whitespace. */
  lemma BuyIgnoresRest(lead: string, ws: string, n: nat, tail: string)
    requires EqualIgnoringCase(lead, "Купить")
    requires |ws| >= 1 && AllSpace(ws)
    requires n == 30 || n == 100 || n == 300
    requires tail == [] || (!IsWordChar(tail[0]) && !IsSpace(tail[|tail| - 1]))
    ensures BuyAmount(lead + ws + Decimal(n) + tail) == Some(n)
  {
    assert Lower(lead[0]) == Lower("Купить"[0]);
    PartsTrimmed(lead, ws, n, tail);
    BuyReIgnoresRest(lead, ws, n, tail);
    BuyReWellFormed();
    AmountOfTrimmed(BuyRe, lead + ws + Decimal(n) + tail, Decimal(n));
    IntValueOfDecimal(n);
  }

  /** The label for `p`, taken apart at the number: what `BuyIgnoresRest` needs to know of it. */
  lemma ButtonLabelParts(p: Package)
    ensures ButtonLabel(p) == "Купить" + " " + Decimal(p.credits) + (" кредитов · " + Decimal(p.price) + " ₽")
    ensures !IsWordChar((" кредитов · " + Decimal(p.price) + " ₽")[0])
    ensures !IsSpace((" кредитов · " + Decimal(p.price) + " ₽")[|" кредитов · " + Decimal(p.price) + " ₽"| - 1])
  {
  }

  /** The label of every catalogue package selects exactly that package. */
  lemma ButtonLabelRoundTrip(p: Package)
    requires p in Packages
    ensures BuyAmount(ButtonLabel(p)) == Some(p.credits)
  {
    ButtonLabelParts(p);
    BuyIgnoresRest("Купить", " ", p.credits, " кредитов · " + Decimal(p.price) + " ₽");
  }

  /** The keyboard shows the catalogue's labels, in catalogue order. */
  lemma BuyKeyboardLabels(i: nat)
    requires i < |BuyKeyboard|
    ensures i < |Packages| && BuyKeyboard[i] == ButtonLabel(Packages[i])
  {
    if i == 0 {
      Label30();
    } else if i == 1 {
      Label100();
    } else {
      Label300();
    }
  }

  /** Every keyboard label selects the package it names and gets that package's confirmation. */
  lemma BuyKeyboardRoundTrip(i: nat)
    requires i < |BuyKeyboard|
    ensures i < |Packages| && BuyAmount(BuyKeyboard[i]) == Some(Packages[i].credits)
    ensures HandleBuyButtons(Some(BuyKeyboard[i])) == Some(Confirmation(Packages[i]))
  {
    BuyKeyboardLabels(i);
    ButtonLabelRoundTrip(Packages[i]);
    SelectionQuotesTariff(i);
  }

  /**
   * The order of the alternatives in `BUY_RE` does not matter: because `\b`
   * must follow the number, "300" can never be taken for "30", so writing 30
   * first would give the same result on every message.
   */
  lemma BuyReOrderIrrelevant(t: string)
    ensures MatchGroup(BuyRe, t) == MatchGroup(Regex("Купить", ["30", "100", "300"], WordBoundary), t)
  {
    BuyReWellFormed();
    var q := Regex("Купить", ["30", "100", "300"], WordBoundary);
    assert WellFormed(q);
    AlternativeOrderIrrelevant(BuyRe, q, t);
  }

  /** On a message with no surrounding whitespace, the handler answers exactly when `BUY_RE` matches it. */
  lemma BuyAmountOfTrimmed(t: string)
    requires Trimmed(t)
    ensures BuyAmount(t).None? <==> MatchGroup(BuyRe, t).None?
  {
    StripFixedIffTrimmed(t);
  }

  /** `BUY_RE` accepts text after the number. */
  lemma BuyReAcceptsTrailingText()
    ensures MatchGroup(BuyRe, "Купить 300 кредитов") == Some("300")
  {
    CatalogueNumerals();
    assert "Купить 300 кредитов" == "Купить" + " " + Decimal(300) + " кредитов";
    BuyReIgnoresRest("Купить", " ", 300, " кредитов");
  }

  /** `BUY_RE` ignores the letter case of "Купить". */
  lemma BuyReAcceptsLowerCase()
    ensures MatchGroup(BuyRe, "купить 30") == Some("30")
  {
    var t := "купить 30";
    assert EqualIgnoringCase(t[..6], "Купить");
    assert t[6..] == " 30" && " 30"[1..] == "30";
    assert LeadingSpaces(" 30") == 1;
    assert AltFits("30", "30", WordBoundary);
  }

  /** `BUY_RE` rejects a longer number: "3000" does not end at a word boundary after "300". */
  lemma BuyReRejectsLongerNumber()
    ensures MatchGroup(BuyRe, "Купить 3000") == None
  {
    var s := "3000";
    assert FirstAlternative(s, BuyRe.alts, BuyRe.follow) == None by {
      assert s[3] == '0' && s[2] == '0' && s[0] == '3';
    }
    assert "Купить 3000" == BuyRe.lead + " " + s;
    MatchGroupAfterLead(BuyRe, " ", s);
  }

  /** `BUY_RE` rejects a number glued to the following word. */
  lemma BuyReRejectsGluedWord()
    ensures MatchGroup(BuyRe, "Купить 30кредитов") == None
  {
    var s := "30кредитов";
    assert FirstAlternative(s, BuyRe.alts, BuyRe.follow) == None by {
      assert s[0] == '3' && s[1] == '0' && s[2] == 'к' && IsWordChar('к');
    }
    assert "Купить 30кредитов" == BuyRe.lead + " " + s;
    MatchGroupAfterLead(BuyRe, " ", s);
  }

  /** `BUY_RE` needs at least one whitespace character after "Купить". */
  lemma BuyReRejectsMissingSpace()
    ensures MatchGroup(BuyRe, "Купить300") == None
  {
    assert "Купить300"[6..] == "300";
  }

  /** `BUY_RE` rejects a number that is not one of the three packages. */
  lemma BuyReRejectsOtherNumber()
    ensures MatchGroup(BuyRe, "Купить 50") == None
  {
    var s := "50";
    assert FirstAlternative(s, BuyRe.alts, BuyRe.follow) == None by {
      assert s[0] == '5';
    }
    assert "Купить 50" == BuyRe.lead + " " + s;
    MatchGroupAfterLead(BuyRe, " ", s);
  }
}
