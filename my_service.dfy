/** The stock "tool" provider of the server process (class MyService).

    Both tools take one company argument, a Java `String` that may be null,
    and answer with a string: a fixed literal for the three known company
    codes and, for anything else, the text "Unknown company: " followed by
    the argument as Java's string concatenation renders it. */
module MyService {

  import opened Wrappers

  /** Java's `String` reference: either null or a sequence of characters. */
  datatype JavaString = Null | Str(chars: string)

  /** The closed set of companies the service knows about. */
  datatype Company = IBM | MSFT | SAP

  /** What the service says about one known company (the lookup-table form
      of the two if/else chains). */
  datatype Quote = Quote(trend: string, price: string)

  const UnknownPrefix: string := "Unknown company: "

  /** The code a caller must pass, exactly, to select company `c`. */
  function Code(c: Company): string
  {
    match c
    case IBM => "IBM"
    case MSFT => "MSFT"
    case SAP => "SAP"
  }

  /** The table of known companies. */
  function Table(c: Company): Quote
  {
    match c
    case IBM => Quote("stocks are up 10%", "135.67 USD")
    case MSFT => Quote("MSFT stocks are up 20%", "256.78 USD")
    case SAP => Quote("SAP stocks are up 50%", "123.45 EUR")
  }

  /** `"X".equals(company)`: false for null, otherwise exact, case-sensitive
      character-by-character equality. */
  predicate LiteralEquals(literal: string, company: JavaString)
  {
    company.Str? && company.chars == literal
  }

  /** The company selected by an argument: the first of the three
      `"X".equals(company)` tests that succeeds, or None. */
  function Parse(company: JavaString): (r: Option<Company>)
    ensures forall c :: r == Some(c) <==> company == Str(Code(c))
    ensures r.None? <==> (company.Null? || company.chars !in {"IBM", "MSFT", "SAP"})
  {
    if LiteralEquals("IBM", company) then Some(IBM)
    else if LiteralEquals("MSFT", company) then Some(MSFT)
    else if LiteralEquals("SAP", company) then Some(SAP)
    else None
  }

  /** How Java's `+` renders a String operand: a null reference becomes "null". */
  function Render(company: JavaString): string
  {
    match company
    case Null => "null"
    case Str(s) => s
  }

  /** `"Unknown company: " + company`, the shared fallback of both tools. */
  function UnknownCompany(company: JavaString): (r: string)
    ensures |r| == |UnknownPrefix| + |Render(company)|
    ensures UnknownPrefix <= r
    ensures r[|UnknownPrefix|..] == Render(company)
  {
    UnknownPrefix + Render(company)
  }

  /** MyService.howsStocks, as the if/else chain of the Java method. Its
      contract ties it to the table lookup keyed on `Company`. */
  function HowsStocks(company: JavaString): (r: string)
    ensures r == match Parse(company)
                 case Some(c) => Table(c).trend
                 case None => UnknownCompany(company)
  {
    if LiteralEquals("IBM", company) then "stocks are up 10%"
    else if LiteralEquals("MSFT", company) then "MSFT stocks are up 20%"
    else if LiteralEquals("SAP", company) then "SAP stocks are up 50%"
    else "Unknown company: " + Render(company)
  }

  /** MyService.getStockPrice, as the if/else chain of the Java method. Its
      contract ties it to the table lookup keyed on `Company`. */
  function GetStockPrice(company: JavaString): (r: string)
    ensures r == match Parse(company)
                 case Some(c) => Table(c).price
                 case None => UnknownCompany(company)
  {
    if LiteralEquals("IBM", company) then "135.67 USD"
    else if LiteralEquals("MSFT", company) then "256.78 USD"
    else if LiteralEquals("SAP", company) then "123.45 EUR"
    else "Unknown company: " + Render(company)
  }
}
