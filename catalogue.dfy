/**
 * The static package catalogue that both purchase surfaces show: three credit
 * packages with their prices in roubles, the tariff lines of the purchase
 * text, the button labels, and the confirmation sent once a package is chosen.
 */
module Catalogue {
  import opened PyStr

  /** A purchasable package: a number of credits for a price in roubles. */
  datatype Package = Package(credits: nat, price: nat)

  /** 30 credits for 30 ₽, 100 for 90 ₽, 300 for 250 ₽. */
  const Packages: seq<Package> := [Package(30, 30), Package(100, 90), Package(300, 250)]

  /** The tariff lines of the purchase text, as the source writes them. */
  const TariffLines: seq<string> := [
    "• 30 кредитов — 30 ₽",
    "• 100 кредитов — 90 ₽",
    "• 300 кредитов — 250 ₽"
  ]

  /** The tariff line that describes package `p`. */
  function TariffLine(p: Package): string {
    "• " + Decimal(p.credits) + " кредитов — " + Decimal(p.price) + " ₽"
  }

  /** The label of the purchase button for package `p`. */
  function ButtonLabel(p: Package): string {
    "Купить " + Decimal(p.credits) + " кредитов · " + Decimal(p.price) + " ₽"
  }

  /** The confirmation that names package `p` and its price. */
  function Confirmation(p: Package): string {
    "Вы выбрали пакет " + Decimal(p.credits) + " кредитов за " + Decimal(p.price) + " ₽"
  }

  /** The catalogue entry with `credits` credits, if there is one. */
  function PackageFor(credits: nat): (r: Option<Package>)
    ensures r.Some? <==> exists i :: 0 <= i < |Packages| && Packages[i].credits == credits
    ensures r.Some? ==> r.value in Packages && r.value.credits == credits
  {
    if credits == 30 then Some(Packages[0])
    else if credits == 100 then Some(Packages[1])
    else if credits == 300 then Some(Packages[2])
    else None
  }

  /**
   * The reply to a parsed amount: the if/elif/else chain that both text
   * handlers run on `int(m.group(1))`. Any amount other than 30 or 100 falls
   * to the 300-credit text.
   */
  function SelectionMessage(amount: nat): string {
    if amount == 30 then "Вы выбрали пакет 30 кредитов за 30 ₽"
    else if amount == 100 then "Вы выбрали пакет 100 кредитов за 90 ₽"
    else "Вы выбрали пакет 300 кредитов за 250 ₽"
  }

  /** The numerals the catalogue is written with. */
  lemma CatalogueNumerals()
    ensures Decimal(30) == "30" && Decimal(100) == "100" && Decimal(300) == "300"
    ensures Decimal(90) == "90" && Decimal(250) == "250"
  {
    assert Decimal(3) == "3" && Decimal(1) == "1" && Decimal(10) == "10";
    assert Decimal(9) == "9" && Decimal(2) == "2" && Decimal(25) == "25";
  }

  /** A number written with one of the three package numerals is that package's number. */
  lemma NumeralOfPackage(n: nat)
    requires Decimal(n) == "300" || Decimal(n) == "100" || Decimal(n) == "30"
    ensures n == 30 || n == 100 || n == 300
  {
    CatalogueNumerals();
    if Decimal(n) == "30" {
      DecimalInjective(n, 30);
    } else if Decimal(n) == "100" {
      DecimalInjective(n, 100);
    } else {
      DecimalInjective(n, 300);
    }
  }

  lemma Label30()
    ensures Packages[0] == Package(30, 30)
    ensures ButtonLabel(Package(30, 30)) == "Купить 30 кредитов · 30 ₽"
  {
    CatalogueNumerals();
    assert ButtonLabel(Package(30, 30)) == "Купить " + "30" + " кредитов · " + "30" + " ₽";
  }

  lemma Label100()
    ensures Packages[1] == Package(100, 90)
    ensures ButtonLabel(Package(100, 90)) == "Купить 100 кредитов · 90 ₽"
  {
    CatalogueNumerals();
    assert ButtonLabel(Package(100, 90)) == "Купить " + "100" + " кредитов · " + "90" + " ₽";
  }

  lemma Label300()
    ensures Packages[2] == Package(300, 250)
    ensures ButtonLabel(Package(300, 250)) == "Купить 300 кредитов · 250 ₽"
  {
    CatalogueNumerals();
    assert ButtonLabel(Package(300, 250)) == "Купить " + "300" + " кредитов · " + "250" + " ₽";
  }

  lemma Tariff30()
    ensures TariffLine(Package(30, 30)) == TariffLines[0]
  {
    CatalogueNumerals();
    var m := "• " + "30" + " кредитов — " + "30" + " ₽";
    assert TariffLine(Package(30, 30)) == m;
    assert m == "• 30 кредитов — 30 ₽";
  }

  lemma Confirmation30()
    ensures Confirmation(Package(30, 30)) == SelectionMessage(30)
  {
    CatalogueNumerals();
    var m := "Вы выбрали пакет " + "30" + " кредитов за " + "30" + " ₽";
    assert Confirmation(Package(30, 30)) == m;
    assert m == "Вы выбрали пакет 30 кредитов за 30 ₽";
  }

  lemma Package30Texts()
    ensures SelectionMessage(30) == Confirmation(Packages[0]) && TariffLines[0] == TariffLine(Packages[0])
  {
    assert Packages[0] == Package(30, 30);
    Tariff30();
    Confirmation30();
  }

  lemma Tariff100()
    ensures TariffLine(Package(100, 90)) == TariffLines[1]
  {
    CatalogueNumerals();
    var m := "• " + "100" + " кредитов — " + "90" + " ₽";
    assert TariffLine(Package(100, 90)) == m;
    assert m == "• 100 кредитов — 90 ₽";
  }

  lemma Confirmation100()
    ensures Confirmation(Package(100, 90)) == SelectionMessage(100)
  {
    CatalogueNumerals();
    var m := "Вы выбрали пакет " + "100" + " кредитов за " + "90" + " ₽";
    assert Confirmation(Package(100, 90)) == m;
    assert m == "Вы выбрали пакет 100 кредитов за 90 ₽";
  }

  lemma Package100Texts()
    ensures SelectionMessage(100) == Confirmation(Packages[1]) && TariffLines[1] == TariffLine(Packages[1])
  {
    assert Packages[1] == Package(100, 90);
    Tariff100();
    Confirmation100();
  }

  lemma Tariff300()
    ensures TariffLine(Package(300, 250)) == TariffLines[2]
  {
    CatalogueNumerals();
    var m := "• " + "300" + " кредитов — " + "250" + " ₽";
    assert TariffLine(Package(300, 250)) == m;
    assert m == "• 300 кредитов — 250 ₽";
  }

  lemma Confirmation300()
    ensures Confirmation(Package(300, 250)) == SelectionMessage(300)
  {
    CatalogueNumerals();
    var m := "Вы выбрали пакет " + "300" + " кредитов за " + "250" + " ₽";
    assert Confirmation(Package(300, 250)) == m;
    assert m == "Вы выбрали пакет 300 кредитов за 250 ₽";
  }

  lemma Package300Texts()
    ensures SelectionMessage(300) == Confirmation(Packages[2]) && TariffLines[2] == TariffLine(Packages[2])
  {
    assert Packages[2] == Package(300, 250);
    Tariff300();
    Confirmation300();
  }

  /**
   * For every package in the catalogue, the reply to its amount is its
   * confirmation, and that confirmation quotes the same price as the
   * package's tariff line in the purchase text.
   */
  lemma SelectionQuotesTariff(i: nat)
    requires i < |Packages|
    ensures SelectionMessage(Packages[i].credits) == Confirmation(Packages[i])
    ensures TariffLines[i] == TariffLine(Packages[i])
  {
    if i == 0 {
      Package30Texts();
    } else if i == 1 {
      Package100Texts();
    } else {
      Package300Texts();
    }
  }

  /** The reply to each of the three amounts is the confirmation of the catalogue package with that many credits. */
  lemma SelectionConfirmsPackage(n: nat)
    requires n == 30 || n == 100 || n == 300
    ensures PackageFor(n).Some? && SelectionMessage(n) == Confirmation(PackageFor(n).value)
  {
    SelectionQuotesTariff(if n == 30 then 0 else if n == 100 then 1 else 2);
  }

  /** Different packages get different confirmations, so the reply identifies the package. */
  lemma SelectionMessagesDistinct(i: nat, j: nat)
    requires i < |Packages| && j < |Packages| && i != j
    ensures SelectionMessage(Packages[i].credits) != SelectionMessage(Packages[j].credits)
  {
    var m, n := SelectionMessage(Packages[i].credits), SelectionMessage(Packages[j].credits);
    assert m[17] != n[17] || m[19] != n[19];
  }
}
