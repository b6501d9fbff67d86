# Jurisdiction rule registry of a mortgage-comparison tool

This project models `Engines`, the rule table of a browser-based mortgage
comparison tool. The table maps a country code (`BE`, `FR`) to that country's
rules:

- how a quoted annual interest rate (a percentage) becomes a monthly rate;
- the loan-to-value ceiling `maxLTV`;
- the ordered list of default transfer-tax options.

A tax option's rate is either a fixed fraction or `null`, which means the user
supplies the percentage.

Belgium treats the quoted rate as an effective annual rate and converts it with
`(1 + r/100)^(1/12) - 1`. France treats it as nominal and converts it with
`(r/100)/12`. Both return 0 for any rate that is not positive.

Files:

- `wrappers.dfy`: `Option`, for JavaScript's `null` and `undefined`.
- `power.dfy`: natural powers of reals. It proves non-negativity, strict
  monotonicity, injectivity and Bernoulli's inequality.
- `engines.dfy`: the registry itself.

How `engines.dfy` represents the source:

- The two per-country closures become one `RateConvention` tag
  (`EffectiveAnnual` or `Nominal`), dispatched by `CalculateMonthlyRate`.
- `rate: null` becomes `rate: None`.
- The table is a constant `map<string, Rule>`.
- Looking up an unknown key gives `None`, just as indexing the JavaScript
  object gives `undefined`; no error is raised.
- Each tax list has exactly one custom entry, and it is the last one.

The host's `Math.pow(x, 1/12)` is a library call outside the model. It is a
parameter `root12: real -> real`. Every property that depends on it assumes
only `IsTwelfthRootAt(root12, x)`, meaning `root12(x)` is non-negative and its
twelfth power is `x`. `CalculateMonthlyRateDeterministic` shows that any two
functions meeting this assumption give the same monthly rate. So the model
does not depend on which twelfth root is used.

## Model

| member | source | states |
|---|---|---|
| `Engines.EffectiveAnnualMonthly` | src/logic/engines.js:7 | Belgium's conversion is total, and every annual rate <= 0 gives exactly 0 |
| `Engines.NominalMonthly` | src/logic/engines.js:26 | France's conversion gives 0 for a rate <= 0; a positive rate gives a positive monthly rate whose twelvefold is the annual fraction r/100 |
| `Engines.CalculateMonthlyRate` | src/logic/engines.js:7-26 | every rule's `calculateMonthlyRate` is total, and a non-positive annual rate gives exactly 0 |
| `Engines.EffectiveAnnualRoundTrip` | src/logic/engines.js:7 | for r > 0, Belgium's monthly rate m is positive and (1 + m)^12 = 1 + r/100 |
| `Engines.ConvertsUnique` | src/logic/engines.js:7-26 | the reference relation `Converts` admits at most one monthly rate for a given convention and annual rate; for effective-annual rates this means at most one rate above -1 |
| `Engines.CalculateMonthlyRateConverts` | src/logic/engines.js:7-26 | every rule's conversion satisfies `Converts` for its convention; the result is never negative, and it is positive for a positive rate |
| `Engines.CalculateMonthlyRateDeterministic` | src/logic/engines.js:7-26 | the monthly rate depends only on the rule and the rate: any two correct twelfth-root functions give the same result |
| `Engines.EffectiveBelowNominal` | src/logic/engines.js:7-26 | for r > 0, effective-annual compounding gives a strictly smaller monthly rate than the nominal r/100/12 |
| `Engines.BelgiumAtThreePercent` | src/logic/engines.js:7 | Belgium at 3% gives a monthly rate strictly between 0.002466 and 0.002467 |
| `Engines.FranceAtThreePercent` | src/logic/engines.js:26 | France at 3% gives exactly 0.0025 |
| `Engines.CustomCountZero` | src/logic/engines.js:14-19 | a tax list has no user-supplied entry exactly when every entry has a fixed rate (both directions) |
| `Engines.OnlyLastIsCustom` | src/logic/engines.js:33-37 | in a valid tax list, every entry before the last has a fixed rate in (0, 1) |
| `Engines.RegistryIsValid` | src/logic/engines.js:1-39 | the keys are exactly BE and FR, and each key equals its entry's `code`. Each entry has a code of two upper-case letters, a `maxLTV` in (0, 1], and a non-empty tax list with unique ids. Exactly one of its entries is custom, and it is the last one. Every fixed rate lies in (0, 1). BE is effective-annual with 0.90 and FR nominal with 1.00 |
| `Engines.Lookup` | src/logic/engines.js:1-4 | indexing the table finds a rule exactly when the code is a key; the rule found carries that code and is well formed |
| `Engines.LookupUnknown` | src/logic/engines.js:1-39 | an unregistered code ("ZZ") finds nothing |

## Left out

- `Math.pow(x, 1/12)` is a parameter and is not computed. The exact
  IEEE-754 behaviour of `Math.pow` is not modelled. Neither is the rounding
  of `1/12` or of the other JavaScript number operations.
- `CalculateMonthlyRateConverts` ("positive for a positive rate"),
  `EffectiveAnnualRoundTrip` (`0 < m`) and `EffectiveBelowNominal` are facts
  about exact reals. In floating point, `1 + r/100` rounds to 1.0 for rates
  below about 1e-14, and Belgium's rule then returns 0.
- All numbers are exact reals. The binary floating-point values of `0.90`,
  `0.125` and the rest are not modelled.
- `NaN`, infinities and non-numeric arguments are not modelled. For `NaN`,
  the source's `annualRate > 0` guard also yields 0.
- `Engines.Lookup` does not model JavaScript's inherited object properties.
  Indexing with a name such as `"toString"` yields a function, not
  `undefined`.
- `name`, `flag`, `currency`, `labels` and each tax option's `label` are kept
  as uninterpreted strings with no computational role. The field `label` is
  called `caption`, because `label` is a reserved word.
- LTV enforcement, resolving a custom tax rate and amortization are done by
  callers that are not part of this model.
- src/main.js is not part of this model. It only mounts the Vue application
  and registers the chart component.
