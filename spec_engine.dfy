/**
 * The extraction engine, `extract_specs_from_text` (script5.py:35-69): lower-case the
 * text once, then fill the four fields of the technical specification, each from its
 * own matcher over that same lowered text.
 */
module SpecEngine {
  import opened Wrappers
  import opened Text
  import opened PowerValue
  import opened FieldExtractor

  /** The two values of the `inverter` key: 'Inverter' and 'Non-Inverter'. */
  datatype InverterFlag = Inverter | NonInverter

  /** The dictionary the engine returns. `inverter` always has a value; the other three are
      `None` when not found. */
  datatype Spec = Spec(consumption: Option<real>, cooling: Option<real>, inverter: InverterFlag, energyClass: Option<string>)

  /** `extract_specs_from_text`. */
  function ExtractSpecs(text: string): (spec: Spec)
    ensures spec.consumption.Some? ==> spec.consumption.value >= 0.0
    ensures spec.cooling.Some? ==> spec.cooling.value >= 0.0
    ensures spec.energyClass.Some? ==> IsGradeText(spec.energyClass.value) && 'a' <= spec.energyClass.value[0] <= 'g'
  {
    var s := LowerText(text);
    Spec(
      PowerField(s, ConsumptionLabels),
      PowerField(s, CoolingLabels),
      if Contains(s, InverterKeyword) then Inverter else NonInverter,
      FindEnergyClass(s))
  }

  /** The engine sees the text only through its lower case: a text and its lowered form give
      the same specification. */
  lemma ExtractSpecsIgnoresCase(text: string)
    ensures ExtractSpecs(LowerText(text)) == ExtractSpecs(text)
  {
    LowerTextIdempotent(text);
  }

  /** The inverter flag is 'Inverter' exactly when "inverter" occurs in the text in any mix of
      cases, even inside "Non-Inverter"; it is never absent. */
  lemma ExtractSpecsInverter(text: string)
    ensures ExtractSpecs(text).inverter == Inverter <==> exists i: nat :: WordAt(text, i, InverterKeyword)
  {
    ContainsLower(text, InverterKeyword);
  }

  /** `consumption_w` comes from the leftmost match of its labelled pattern in the lowered text
      alone: that match's group goes through `parse_power_value`, and a malformed number there
      leaves the field `None` even when a later match would parse. */
  lemma ExtractSpecsConsumption(text: string, i: nat, n: nat, k: nat, l: nat, m: nat, u: Unit)
    requires PowerFieldMatch(LowerText(text), ConsumptionLabels, i, n, k, l, m, u)
    requires forall q: nat, n': nat, k': nat, l': nat, m': nat, u': Unit ::
      q < i ==> !PowerFieldMatch(LowerText(text), ConsumptionLabels, q, n', k', l', m', u')
    ensures ExtractSpecs(text).consumption == ParsePowerValue(LowerText(text)[k..m + |Token(u)|])
  {
    TablesUnambiguous();
    PowerFieldLeftmost(LowerText(text), ConsumptionLabels, i, n, k, l, m, u);
  }

  /** `cooling_w` follows the same rule with the cooling labels. */
  lemma ExtractSpecsCooling(text: string, i: nat, n: nat, k: nat, l: nat, m: nat, u: Unit)
    requires PowerFieldMatch(LowerText(text), CoolingLabels, i, n, k, l, m, u)
    requires forall q: nat, n': nat, k': nat, l': nat, m': nat, u': Unit ::
      q < i ==> !PowerFieldMatch(LowerText(text), CoolingLabels, q, n', k', l', m', u')
    ensures ExtractSpecs(text).cooling == ParsePowerValue(LowerText(text)[k..m + |Token(u)|])
  {
    TablesUnambiguous();
    PowerFieldLeftmost(LowerText(text), CoolingLabels, i, n, k, l, m, u);
  }

  /** `energy_class` is the grade of the leftmost energy-class match in the lowered text, so
      it comes out in lower case, with all its `+` signs. */
  lemma ExtractSpecsEnergyClass(text: string, i: nat, n: nat, k: nat, m: nat)
    requires ClassFieldMatch(LowerText(text), i, n, k, m)
    requires forall q: nat, n': nat, k': nat, m': nat :: q < i ==> !ClassFieldMatch(LowerText(text), q, n', k', m')
    ensures ExtractSpecs(text).energyClass == Some(LowerText(text)[k..m])
  {
    EnergyClassLeftmost(LowerText(text), i, n, k, m);
  }

  /** "Non-Inverter" contains "inverter", so a non-inverter unit is reported as 'Inverter'. */
  lemma NonInverterExample()
    ensures ExtractSpecs("Non-Inverter").inverter == Inverter
  {
    ContainsLower("Non-Inverter", InverterKeyword);
    assert WordAt("Non-Inverter", 4, InverterKeyword);
  }

  /** "Energy class: A+++" is reported as "a+++": lower case, every `+` kept. */
  lemma EnergyClassExample(text: string)
    requires text == "Energy class: A+++"
    ensures ExtractSpecs(text).energyClass == Some("a+++")
  {
    assert LowersTo("Energy class: A+++", "energy class: a+++", 9);
    LowersToText(text, "energy class: a+++", 0);
    EnergyClassPlusExample();
  }

  /** A text with nothing in it gives a specification with no field found, flagged
      'Non-Inverter'. */
  lemma EmptyTextExample()
    ensures ExtractSpecs("") == Spec(None, None, NonInverter, None)
  {
    assert LowerText("") == "";
    PowerFieldAbsent("", ConsumptionLabels);
    PowerFieldAbsent("", CoolingLabels);
    EnergyClassAbsent("");
  }
}
