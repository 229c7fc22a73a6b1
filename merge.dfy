/**
 * The choice between the specification found automatically and the values typed by hand
 * (script5.py:134-158), taken out of the page script as a function.
 */
module SpecMerger {
  import opened Wrappers
  import opened SpecEngine

  /** The manual input widgets: two numbers, the inverter choice and the energy class. */
  datatype ManualInput = ManualInput(consumption: real, cooling: real, inverter: bool, energyClass: string)

  /** The three values the simulation shows and computes with. */
  datatype Merged = Merged(consumption: real, cooling: real, energyClass: Option<string>)

  /** The automatic result is kept when it has a consumption and a cooling power and neither is
      zero (script5.py:140-144); otherwise it is dropped as a whole. */
  predicate KeepAuto(auto: Option<Spec>) {
    && auto.Some?
    && auto.value.consumption.Some? && auto.value.consumption.value != 0.0
    && auto.value.cooling.Some? && auto.value.cooling.value != 0.0
  }

  /** The values used for the simulation, or `None` when the page asks for input instead
      (script5.py:147-158). `auto` is what the search returned, `None` when no search was run. */
  function MergeSpecs(auto: Option<Spec>, manual: ManualInput): (r: Option<Merged>)
    ensures r.Some? <==> KeepAuto(auto) || manual.consumption != 0.0 || manual.cooling != 0.0
    ensures r.Some? ==> r.value.consumption != 0.0 || r.value.cooling != 0.0
  {
    if KeepAuto(auto) then
      Some(Merged(auto.value.consumption.value, auto.value.cooling.value, auto.value.energyClass))
    else if manual.consumption != 0.0 || manual.cooling != 0.0 then
      Some(Merged(manual.consumption, manual.cooling, Some(manual.energyClass)))
    else None
  }

  /** A kept automatic result supplies all three values, the energy class included even when
      it was not found; the manual input is then irrelevant. */
  lemma MergeKeepsAuto(auto: Option<Spec>, manual: ManualInput, other: ManualInput)
    requires KeepAuto(auto)
    ensures MergeSpecs(auto, manual) == MergeSpecs(auto, other)
    ensures var r := MergeSpecs(auto, manual);
      && r.Some?
      && Some(r.value.consumption) == auto.value.consumption
      && Some(r.value.cooling) == auto.value.cooling
      && r.value.energyClass == auto.value.energyClass
  {
  }

  /** A dropped automatic result contributes nothing, not even the fields it did find: every
      value comes from the manual input. */
  lemma MergeDropsAuto(auto: Option<Spec>, manual: ManualInput)
    requires !KeepAuto(auto)
    ensures MergeSpecs(auto, manual) == MergeSpecs(None, manual)
    ensures var r := MergeSpecs(auto, manual);
      r.Some? ==> r.value == Merged(manual.consumption, manual.cooling, Some(manual.energyClass))
  {
  }

  /** The merge is whole-record: the result never mixes automatic and manual values. */
  lemma MergeWholeRecord(auto: Option<Spec>, manual: ManualInput)
    ensures var r := MergeSpecs(auto, manual);
      r.Some? ==>
        || (&& auto.Some?
            && Some(r.value.consumption) == auto.value.consumption
            && Some(r.value.cooling) == auto.value.cooling
            && r.value.energyClass == auto.value.energyClass)
        || r.value == Merged(manual.consumption, manual.cooling, Some(manual.energyClass))
  {
  }

  /** The inverter choice typed by hand is never used. */
  lemma MergeIgnoresInverter(auto: Option<Spec>, manual: ManualInput, inverter: bool)
    ensures MergeSpecs(auto, manual.(inverter := inverter)) == MergeSpecs(auto, manual)
  {
  }

  /** A result from an extraction, or typed into the widgets (which refuse negative numbers),
      gives non-negative values. */
  lemma MergeNonNegative(text: string, manual: ManualInput)
    requires manual.consumption >= 0.0 && manual.cooling >= 0.0
    ensures var r := MergeSpecs(Some(ExtractSpecs(text)), manual);
      r.Some? ==> r.value.consumption >= 0.0 && r.value.cooling >= 0.0
  {
  }

  /** Found: 850 W and 2500 W but no energy class; typed: 900 W, 2600 W, A++. The found values
      are used, with no energy class. */
  lemma KeptWithoutClassExample()
    ensures MergeSpecs(Some(Spec(Some(850.0), Some(2500.0), Inverter, None)), ManualInput(900.0, 2600.0, true, "A++"))
      == Some(Merged(850.0, 2500.0, None))
  {
  }

  /** Found: 850 W but no cooling power. The found consumption is dropped with the rest and the
      typed 900 W is used. */
  lemma PartialDroppedExample()
    ensures MergeSpecs(Some(Spec(Some(850.0), None, Inverter, Some("a"))), ManualInput(900.0, 2600.0, true, "A++"))
      == Some(Merged(900.0, 2600.0, Some("A++")))
  {
  }
}
