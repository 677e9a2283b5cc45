/**
 * The two purchase surfaces side by side: the reply keyboard of the bot's
 * entry module and the inline keyboard of the screenshots handlers show the
 * same labels, and the two text decoders agree wherever the stricter one answers.
 */
module Surfaces {
  import opened PyStr
  import opened Pattern
  import opened Catalogue
  import Bot
  import Screenshots

  /** Both keyboards show the same labels, row for row. */
  lemma KeyboardsShowSameLabels(i: nat)
    requires i < |Bot.BuyKeyboard|
    ensures i < |Screenshots.BuyKb| && Bot.BuyKeyboard[i] == Screenshots.BuyKb[i].caption
  {
    Bot.BuyKeyboardLabels(i);
    Screenshots.BuyKbButtons(i);
  }

  /**
   * Whatever `BUY_BUTTON_RE` accepts, `BUY_RE` accepts with the same number:
   * the whitespace before "кредитов" is a word boundary after the number.
   */
  lemma ButtonReImpliesBuyRe(t: string, g: string)
    requires MatchGroup(Screenshots.BuyButtonRe, t) == Some(g)
    ensures MatchGroup(Bot.BuyRe, t) == Some(g)
  {
    Screenshots.BuyButtonReWellFormed();
    Bot.BuyReWellFormed();
    assert g in Screenshots.BuyButtonRe.alts;
    assert g in Bot.BuyRe.alts;
    SpacesThenImpliesBoundary(Screenshots.BuyButtonRe, Bot.BuyRe, t, g);
  }

  /** Whenever `buy_text_buttons` answers a message, `handle_buy_buttons` gives the same answer. */
  lemma TextDecodersAgree(text: Option<string>)
    requires Screenshots.BuyTextButtons(text).Some?
    ensures Bot.HandleBuyButtons(text) == Screenshots.BuyTextButtons(text)
  {
    Screenshots.BuyButtonReWellFormed();
    Bot.BuyReWellFormed();
    var t := Strip(OrEmpty(text));
    var g := MatchGroup(Screenshots.BuyButtonRe, t).value;
    ButtonReImpliesBuyRe(t, g);
    assert Screenshots.TextButtonAmount(OrEmpty(text)) == Bot.BuyAmount(OrEmpty(text));
  }

  /** The converse fails: `handle_buy_buttons` answers "Купить 30", `buy_text_buttons` does not. */
  lemma BuyReAcceptsMore()
    ensures MatchGroup(Bot.BuyRe, "Купить 30") == Some("30")
    ensures MatchGroup(Screenshots.BuyButtonRe, "Купить 30") == None
  {
    CatalogueNumerals();
    assert "Купить 30" == "Купить" + " " + Decimal(30) + "";
    Bot.BuyReIgnoresRest("Купить", " ", 30, "");
    Screenshots.BuyButtonReRejectsBareAmount();
  }
}
