/** The jurisdiction rule registry `Engines`: an immutable table from a
    country code to the rules a mortgage comparison needs for that country,
    namely how an annual interest rate becomes a monthly one, the
    loan-to-value ceiling, and the transfer-tax options offered by default.

    The per-country `calculateMonthlyRate` closures of the original table
    are represented by a `RateConvention` tag dispatched by
    `CalculateMonthlyRate`. The host's `Math.pow(x, 1 / 12)` is a library
    call outside this model; it is passed in as `root12`, and every property
    that depends on it assumes only `IsTwelfthRootAt`, the defining property
    of a principal twelfth root. */
module Engines {
  import opened Wrappers
  import opened Power

  /** How a jurisdiction's quoted annual rate converts to a monthly rate. */
  datatype RateConvention =
    | EffectiveAnnual  // the quoted rate already includes monthly compounding
    | Nominal          // the quoted rate is divided evenly over twelve months

  /** Display strings, opaque to every computation. */
  datatype Labels = Labels(misc: string, tax: string, regTitle: string)

  /** A transfer-tax option (`caption` is the source's display `label`,
      a reserved word here); `rate == None` is the original `rate: null`,
      an entry whose percentage the user supplies. */
  datatype TaxOption = TaxOption(id: string, caption: string, rate: Option<real>)

  /** One jurisdiction's rule record. `name`, `flag`, `currency` and `labels`
      are display-only. */
  datatype Rule = Rule(
    name: string,
    code: string,
    flag: string,
    currency: string,
    convention: RateConvention,
    maxLTV: real,
    labels: Labels,
    defaultTaxes: seq<TaxOption>)

  const BE: Rule := Rule(
    "Belgium", "BE", "https://flagcdn.com/w80/be.png", "€",
    EffectiveAnnual,
    0.90,
    Labels("Aktekosten", "BTW (VAT)", "Registration Tax"),
    [ TaxOption("be_fl_first", "Flanders (First Home) - 2%", Some(0.02)),
      TaxOption("be_fl_std", "Flanders (Standard) - 12%", Some(0.12)),
      TaxOption("be_bru", "Brussels (Abattement) - 12.5%", Some(0.125)),
      TaxOption("be_custom", "Custom %", None) ])

  const FR: Rule := Rule(
    "France", "FR", "https://flagcdn.com/w80/fr.png", "€",
    Nominal,
    1.00,
    Labels("Frais de dossier", "TVA", "Droits d'enregistrement"),
    [ TaxOption("fr_old", "Ancien - 8%", Some(0.08)),
      TaxOption("fr_new", "Neuf - 2%", Some(0.02)),
      TaxOption("fr_custom", "Custom %", None) ])

  /** The `Engines` table itself. */
  const Registry: map<string, Rule> := map["BE" := BE, "FR" := FR]

  // ---------------------------------------------------------------------
  // Monthly-rate conversion
  // ---------------------------------------------------------------------

  /** `root12` behaves as `Math.pow(·, 1 / 12)` at `x`: it yields the
      non-negative real whose twelfth power is `x`. */
  predicate IsTwelfthRootAt(root12: real -> real, x: real)
  {
    0.0 <= root12(x) && Pow(root12(x), 12) == x
  }

  /** Belgium's conversion: `(1 + r/100)^(1/12) - 1` for a positive rate,
      and 0 otherwise. */
  function EffectiveAnnualMonthly(annualRate: real, root12: real -> real): (m: real)
    ensures annualRate <= 0.0 ==> m == 0.0
  {
    if annualRate > 0.0 then root12(1.0 + annualRate / 100.0) - 1.0 else 0.0
  }

  /** France's conversion: `(r/100)/12` for a positive rate, and 0 otherwise.
      Twelve monthly rates add back up to the annual fraction. */
  function NominalMonthly(annualRate: real): (m: real)
    ensures annualRate <= 0.0 ==> m == 0.0
    ensures annualRate > 0.0 ==> 0.0 < m && 12.0 * m == annualRate / 100.0
  {
    if annualRate > 0.0 then (annualRate / 100.0) / 12.0 else 0.0
  }

  /** A rule's `calculateMonthlyRate`. It is total: every rate, including
      zero and negative ones, gives a value, and a non-positive rate gives 0. */
  function CalculateMonthlyRate(rule: Rule, annualRate: real, root12: real -> real): (m: real)
    ensures annualRate <= 0.0 ==> m == 0.0
  {
    match rule.convention
    case EffectiveAnnual => EffectiveAnnualMonthly(annualRate, root12)
    case Nominal => NominalMonthly(annualRate)
  }

  /** What a monthly rate `m` must be, independently of how it is computed:
      0 for a non-positive annual rate; otherwise, under effective-annual
      compounding, twelve months compound to the annual factor, and under the
      nominal convention twelve months add up to the annual fraction. */
  predicate Converts(convention: RateConvention, annualRate: real, m: real)
  {
    if annualRate <= 0.0 then m == 0.0
    else match convention
      case EffectiveAnnual => -1.0 <= m && Pow(1.0 + m, 12) == 1.0 + annualRate / 100.0
      case Nominal => 12.0 * m == annualRate / 100.0
  }

  /** The reference relation pins the monthly rate down uniquely. */
  lemma ConvertsUnique(convention: RateConvention, annualRate: real, m1: real, m2: real)
    requires Converts(convention, annualRate, m1)
    requires Converts(convention, annualRate, m2)
    ensures m1 == m2
  {
    if annualRate > 0.0 && convention == EffectiveAnnual {
      PowInjective(1.0 + m1, 1.0 + m2, 12);
    }
  }

  /** Round trip for Belgium: for a positive rate, the monthly rate is
      positive and compounds over twelve months back to `1 + r/100`. */
  lemma EffectiveAnnualRoundTrip(annualRate: real, root12: real -> real)
    requires 0.0 < annualRate
    requires IsTwelfthRootAt(root12, 1.0 + annualRate / 100.0)
    ensures 0.0 < EffectiveAnnualMonthly(annualRate, root12)
    ensures Pow(1.0 + EffectiveAnnualMonthly(annualRate, root12), 12) == 1.0 + annualRate / 100.0
  {
    var y := root12(1.0 + annualRate / 100.0);
    if y <= 1.0 {
      PowAtMostOne(y, 12);
      assert false;
    }
  }

  /** Every rule's conversion meets the reference relation for its
      convention, and never yields a negative monthly rate. */
  lemma CalculateMonthlyRateConverts(rule: Rule, annualRate: real, root12: real -> real)
    requires rule.convention == EffectiveAnnual && 0.0 < annualRate ==>
               IsTwelfthRootAt(root12, 1.0 + annualRate / 100.0)
    ensures Converts(rule.convention, annualRate, CalculateMonthlyRate(rule, annualRate, root12))
    ensures 0.0 <= CalculateMonthlyRate(rule, annualRate, root12)
    ensures 0.0 < annualRate ==> 0.0 < CalculateMonthlyRate(rule, annualRate, root12)
  {
    if rule.convention == EffectiveAnnual && 0.0 < annualRate {
      EffectiveAnnualRoundTrip(annualRate, root12);
    }
  }

  /** The result depends only on the rule and the rate: any two correct
      twelfth-root implementations give the same monthly rate. */
  lemma CalculateMonthlyRateDeterministic(rule: Rule, annualRate: real, f: real -> real, g: real -> real)
    requires rule.convention == EffectiveAnnual && 0.0 < annualRate ==>
               IsTwelfthRootAt(f, 1.0 + annualRate / 100.0) && IsTwelfthRootAt(g, 1.0 + annualRate / 100.0)
    ensures CalculateMonthlyRate(rule, annualRate, f) == CalculateMonthlyRate(rule, annualRate, g)
  {
    CalculateMonthlyRateConverts(rule, annualRate, f);
    CalculateMonthlyRateConverts(rule, annualRate, g);
    ConvertsUnique(rule.convention, annualRate,
                   CalculateMonthlyRate(rule, annualRate, f), CalculateMonthlyRate(rule, annualRate, g));
  }

  /** For a positive rate, effective-annual compounding yields a strictly
      smaller monthly rate than the nominal division by twelve. */
  lemma EffectiveBelowNominal(annualRate: real, root12: real -> real)
    requires 0.0 < annualRate
    requires IsTwelfthRootAt(root12, 1.0 + annualRate / 100.0)
    ensures EffectiveAnnualMonthly(annualRate, root12) < NominalMonthly(annualRate)
  {
    var m := EffectiveAnnualMonthly(annualRate, root12);
    var n := NominalMonthly(annualRate);
    EffectiveAnnualRoundTrip(annualRate, root12);
    Bernoulli(n, 12);
    assert Pow(1.0 + n, 12) > 1.0 + annualRate / 100.0;
    if n <= m {
      if n < m {
        PowStrictlyIncreasing(1.0 + n, 1.0 + m, 12);
      }
      assert false;
    }
  }

  /** Belgium at 3%: the monthly rate lies between 0.2466% and 0.2467%. */
  lemma BelgiumAtThreePercent(root12: real -> real)
    requires IsTwelfthRootAt(root12, 1.03)
    ensures 0.002466 < CalculateMonthlyRate(Registry["BE"], 3.0, root12) < 0.002467
  {
    var y := root12(1.03);
    assert Pow(1.002466, 12) < 1.03 < Pow(1.002467, 12);
    if y <= 1.002466 {
      if y < 1.002466 {
        PowStrictlyIncreasing(y, 1.002466, 12);
      }
      assert false;
    }
    if 1.002467 <= y {
      if 1.002467 < y {
        PowStrictlyIncreasing(1.002467, y, 12);
      }
      assert false;
    }
  }

  /** France at 3%: the monthly rate is exactly 0.25%. */
  lemma FranceAtThreePercent(root12: real -> real)
    ensures CalculateMonthlyRate(Registry["FR"], 3.0, root12) == 0.0025
  {
  }

  // ---------------------------------------------------------------------
  // Default transfer-tax options
  // ---------------------------------------------------------------------

  /** No two options share an `id`. */
  predicate UniqueIds(taxes: seq<TaxOption>)
  {
    forall i, j :: 0 <= i < j < |taxes| ==> taxes[i].id != taxes[j].id
  }

  /** The number of options whose rate the user supplies. */
  function CustomCount(taxes: seq<TaxOption>): (n: nat)
  {
    if taxes == [] then 0
    else CustomCount(taxes[..|taxes| - 1]) + (if taxes[|taxes| - 1].rate.None? then 1 else 0)
  }

  /** A list with no user-supplied option is one whose every rate is fixed,
      and conversely. */
  lemma {:induction false} CustomCountZero(taxes: seq<TaxOption>)
    ensures CustomCount(taxes) == 0 <==> forall i :: 0 <= i < |taxes| ==> taxes[i].rate.Some?
  {
    if taxes != [] {
      var prefix := taxes[..|taxes| - 1];
      CustomCountZero(prefix);
      assert forall i :: 0 <= i < |prefix| ==> prefix[i] == taxes[i];
    }
  }

  /** A well-formed default tax list: non-empty, unique ids, exactly one
      user-supplied entry and it is the last one, and every fixed rate a
      fraction strictly between 0 and 1. */
  predicate ValidTaxList(taxes: seq<TaxOption>)
  {
    && |taxes| >= 1
    && UniqueIds(taxes)
    && CustomCount(taxes) == 1
    && taxes[|taxes| - 1].rate.None?
    && forall i :: 0 <= i < |taxes| && taxes[i].rate.Some? ==> 0.0 < taxes[i].rate.value < 1.0
  }

  /** In a valid list, every option before the last has a fixed rate, so it
      can enter arithmetic without user input. */
  lemma OnlyLastIsCustom(taxes: seq<TaxOption>, i: int)
    requires ValidTaxList(taxes)
    requires 0 <= i < |taxes| - 1
    ensures taxes[i].rate.Some?
    ensures 0.0 < taxes[i].rate.value < 1.0
  {
    var prefix := taxes[..|taxes| - 1];
    CustomCountZero(prefix);
    assert prefix[i] == taxes[i];
  }

  // ---------------------------------------------------------------------
  // The registry
  // ---------------------------------------------------------------------

  /** A well-formed rule: a code of two upper-case letters, a loan-to-value
      ceiling in (0, 1], and a valid default tax list. */
  predicate ValidRule(rule: Rule)
  {
    && |rule.code| == 2
    && (forall c :: c in rule.code ==> 'A' <= c <= 'Z')
    && 0.0 < rule.maxLTV <= 1.0
    && ValidTaxList(rule.defaultTaxes)
  }

  /** Every key names its own entry, and every entry is well formed. */
  predicate ValidRegistry(registry: map<string, Rule>)
  {
    forall code :: code in registry ==> registry[code].code == code && ValidRule(registry[code])
  }

  /** The shipped table: Belgium compounds effectively with a 90% ceiling,
      France divides nominally with a 100% ceiling, and both are well formed. */
  lemma RegistryIsValid()
    ensures ValidRegistry(Registry)
    ensures Registry.Keys == {"BE", "FR"}
    ensures Registry["BE"].convention == EffectiveAnnual && Registry["BE"].maxLTV == 0.90
    ensures Registry["FR"].convention == Nominal && Registry["FR"].maxLTV == 1.00
  {
    CustomCountZero(BE.defaultTaxes[..3]);
    CustomCountZero(FR.defaultTaxes[..2]);
  }

  /** `Engines[code]`: the rule for a known code, `None` (JavaScript's
      `undefined`) for any other; no error is raised. */
  function Lookup(code: string): (r: Option<Rule>)
    ensures r.Some? <==> code in Registry
    ensures r.Some? ==> r.value.code == code && ValidRule(r.value)
  {
    RegistryIsValid();
    if code in Registry then Some(Registry[code]) else None
  }

  /** An unregistered code such as "ZZ" finds nothing. */
  lemma LookupUnknown()
    ensures Lookup("ZZ") == None
  {
  }
}
