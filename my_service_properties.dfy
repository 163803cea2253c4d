/** Properties of the two stock tools: the answers for fixed arguments, and
    facts that hold for every argument. */
module MyServiceProperties {

  import opened Wrappers
  import opened MyService

  /** The fixed answers of howsStocks for the three known codes. */
  lemma HowsStocksKnown()
    ensures HowsStocks(Str("IBM")) == "stocks are up 10%"
    ensures HowsStocks(Str("MSFT")) == "MSFT stocks are up 20%"
    ensures HowsStocks(Str("SAP")) == "SAP stocks are up 50%"
  {
  }

  /** The fixed answers of getStockPrice for the three known codes. */
  lemma GetStockPriceKnown()
    ensures GetStockPrice(Str("IBM")) == "135.67 USD"
    ensures GetStockPrice(Str("MSFT")) == "256.78 USD"
    ensures GetStockPrice(Str("SAP")) == "123.45 EUR"
  {
  }

  /** Matching is exact and case-sensitive: near misses are unknown. */
  lemma MatchingIsExact()
    ensures Parse(Str("sap")) == None
    ensures Parse(Str(" SAP")) == None
    ensures Parse(Str("SAP ")) == None
    ensures Parse(Str("Ibm")) == None
    ensures Parse(Str("")) == None
    ensures Parse(Null) == None
  {
  }

  /** Any argument that is not exactly a known code is echoed verbatim
      after the unknown-company prefix, by both tools, which then agree. */
  lemma UnknownEchoed(company: JavaString)
    requires Parse(company) == None
    ensures HowsStocks(company) == UnknownPrefix + Render(company)
    ensures GetStockPrice(company) == UnknownPrefix + Render(company)
    ensures HowsStocks(company) == GetStockPrice(company)
  {
  }

  /** A null argument takes the unknown branch and is rendered as "null";
      it is then indistinguishable from the four-character string "null". */
  lemma NullIsUnknown()
    ensures HowsStocks(Null) == "Unknown company: null"
    ensures GetStockPrice(Null) == "Unknown company: null"
    ensures HowsStocks(Null) == HowsStocks(Str("null"))
    ensures GetStockPrice(Null) == GetStockPrice(Str("null"))
  {
  }

  /** No known answer begins with the unknown-company prefix. */
  lemma KnownAnswersLackPrefix(c: Company)
    ensures !(UnknownPrefix <= Table(c).trend)
    ensures !(UnknownPrefix <= Table(c).price)
  {
    assert Table(c).trend[0] != UnknownPrefix[0];
    assert Table(c).price[0] != UnknownPrefix[0];
  }

  /** howsStocks answers with the unknown-company prefix exactly when its
      argument is not one of the known codes. */
  lemma HowsStocksPrefixIffUnknown(company: JavaString)
    ensures UnknownPrefix <= HowsStocks(company) <==> Parse(company).None?
  {
    if Parse(company).Some? {
      KnownAnswersLackPrefix(Parse(company).value);
    }
  }

  /** getStockPrice answers with the unknown-company prefix exactly when its
      argument is not one of the known codes. */
  lemma GetStockPricePrefixIffUnknown(company: JavaString)
    ensures UnknownPrefix <= GetStockPrice(company) <==> Parse(company).None?
  {
    if Parse(company).Some? {
      KnownAnswersLackPrefix(Parse(company).value);
    }
  }

  /** Two arguments render alike exactly when they are equal, or when one is
      null and the other is the string "null". */
  lemma RenderCollisions(a: JavaString, b: JavaString)
    ensures Render(a) == Render(b) <==> a == b || {a, b} == {Null, Str("null")}
  {
  }

  /** The fallback message determines the rendered argument. */
  lemma UnknownCompanyInjective(a: JavaString, b: JavaString)
    requires UnknownCompany(a) == UnknownCompany(b)
    ensures Render(a) == Render(b)
    ensures a == b || {a, b} == {Null, Str("null")}
  {
    RenderCollisions(a, b);
  }

  /** Two arguments that get the same howsStocks answer are the same
      argument, except that null and "null" cannot be told apart. */
  lemma HowsStocksInjective(a: JavaString, b: JavaString)
    requires HowsStocks(a) == HowsStocks(b)
    ensures a == b || {a, b} == {Null, Str("null")}
  {
    HowsStocksPrefixIffUnknown(a);
    HowsStocksPrefixIffUnknown(b);
    if Parse(a).None? {
      UnknownCompanyInjective(a, b);
    }
  }

  /** Two arguments that get the same getStockPrice answer are the same
      argument, except that null and "null" cannot be told apart. */
  lemma GetStockPriceInjective(a: JavaString, b: JavaString)
    requires GetStockPrice(a) == GetStockPrice(b)
    ensures a == b || {a, b} == {Null, Str("null")}
  {
    GetStockPricePrefixIffUnknown(a);
    GetStockPricePrefixIffUnknown(b);
    if Parse(a).None? {
      UnknownCompanyInjective(a, b);
    }
  }
}
