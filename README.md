# Stock tools of the MCP demo server, in Dafny

This project models `MyService`, the tool provider of the demo's server
process. It exposes two tools to a chat-completion client: `howsStocks` and
`getStockPrice`. Each takes one company argument, a Java `String` that may be
null, and returns a string. The three known codes `"IBM"`, `"MSFT"` and
`"SAP"` give fixed literals. Any other argument gives `"Unknown company: "`
followed by the argument as Java's `+` renders it, so null becomes `"null"`.

Layout:

- `wrappers.dfy`: module `Wrappers`, the `Option` datatype.
- `my_service.dfy`: module `MyService`. `JavaString` is the nullable Java
  string. `Company` and `Table` are the lookup-table form of the two
  if/else chains. `Parse` picks the company by the Java method's exact,
  case-sensitive `"X".equals(company)` tests. `HowsStocks` and
  `GetStockPrice` are written as the Java methods' if/else chains, and their
  contracts equate each one with the table lookup.
- `my_service_properties.dfy`: module `MyServiceProperties`. Some lemmas give
  the answers for fixed arguments; the others hold for every argument. They cover the fixed answers, exact matching, the verbatim echo,
  how the two tools agree on unknown codes, null handling, the prefix
  if-and-only-if, and injectivity.

## Model

| member | source | states |
|---|---|---|
| MyService.Parse | server/src/main/java/com/sap/server/MyService.java:12-16 | an argument selects company `c` exactly when it is the non-null string equal to `c`'s code; it selects none when it is null or not one of "IBM", "MSFT", "SAP" |
| MyServiceProperties.RenderCollisions | server/src/main/java/com/sap/server/MyService.java:19 | string concatenation renders null as "null" and a string as itself, so two arguments render alike if and only if they are equal or are null and "null" |
| MyService.UnknownCompany | server/src/main/java/com/sap/server/MyService.java:19 | the fallback message starts with "Unknown company: ", and the rest of it is exactly the rendered argument |
| MyService.HowsStocks | server/src/main/java/com/sap/server/MyService.java:11-21 | the if/else chain equals the table lookup: the known company's trend phrase, or the fallback message when no company is selected |
| MyService.GetStockPrice | server/src/main/java/com/sap/server/MyService.java:24-34 | the if/else chain equals the table lookup: the known company's price string, or the fallback message when no company is selected |
| MyServiceProperties.HowsStocksKnown | server/src/main/java/com/sap/server/MyService.java:12-17 | "IBM", "MSFT" and "SAP" give "stocks are up 10%", "MSFT stocks are up 20%" and "SAP stocks are up 50%" |
| MyServiceProperties.GetStockPriceKnown | server/src/main/java/com/sap/server/MyService.java:25-30 | "IBM", "MSFT" and "SAP" give "135.67 USD", "256.78 USD" and "123.45 EUR" |
| MyServiceProperties.MatchingIsExact | server/src/main/java/com/sap/server/MyService.java:12-16 | "sap", " SAP", "SAP ", "Ibm", the empty string and null select no company |
| MyServiceProperties.UnknownEchoed | server/src/main/java/com/sap/server/MyService.java:18-33 | for every argument that selects no company, both tools return "Unknown company: " followed by the rendered argument, so they return the same string |
| MyServiceProperties.NullIsUnknown | server/src/main/java/com/sap/server/MyService.java:12-19 | null yields "Unknown company: null" from both tools, the same answer as the string "null" |
| MyServiceProperties.KnownAnswersLackPrefix | server/src/main/java/com/sap/server/MyService.java:13-30 | no trend phrase and no price string of a known company begins with "Unknown company: " |
| MyServiceProperties.HowsStocksPrefixIffUnknown | server/src/main/java/com/sap/server/MyService.java:11-21 | a howsStocks answer begins with "Unknown company: " if and only if the argument is not a known code |
| MyServiceProperties.GetStockPricePrefixIffUnknown | server/src/main/java/com/sap/server/MyService.java:24-34 | a getStockPrice answer begins with "Unknown company: " if and only if the argument is not a known code |
| MyServiceProperties.UnknownCompanyInjective | server/src/main/java/com/sap/server/MyService.java:19 | equal fallback messages come from equal rendered arguments, so from the same argument or from null and "null" |
| MyServiceProperties.HowsStocksInjective | server/src/main/java/com/sap/server/MyService.java:11-21 | two arguments with the same howsStocks answer are equal, or they are null and "null" |
| MyServiceProperties.GetStockPriceInjective | server/src/main/java/com/sap/server/MyService.java:24-34 | two arguments with the same getStockPrice answer are equal, or they are null and "null" |

Both tools have no `requires`, which models that they are total over every
argument the model can represent (see "## Left out" for the limits). Being functions, they return the same answer for the same argument
on every call.

## Left out

- The `@Tool` descriptions on the two methods (MyService.java lines 10 and 23) are hints for the language model's tool choice. They compute nothing.
- Tool registration in `ServerApplication.java` (`MethodToolCallbackProvider`, line 18) and the Spring Boot start-up (line 13) are framework wiring over a library that is not part of this model.
- The client controller `SimpleQuestion1.java` forwards prompts to a remote chat-completion service. Its answers come from a nondeterministic network service, so it is not modelled.
- Concurrent request handling by the hosting framework is not modelled. The tools hold no state, so concurrency cannot change their answers.
- JavaString, UnknownCompany, HowsStocks, GetStockPrice: strings are modelled as sequences of Unicode scalar values, not UTF-16 code units. So a Java string holding an unpaired surrogate cannot be represented, and `|r|` counts scalar values. Lengths are unbounded, so the error Java raises when `"Unknown company: " + company` would exceed the maximum String length is not modelled.
