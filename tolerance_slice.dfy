/** The tolerance settings: a global tolerance, one per style category, overrides
    per component and property, and the outcome of the last check of each
    component property. */
module ToleranceSlice {
  import opened Wrappers
  import opened Values

  /** What `validateTolerance` records for one component property. The deviation
      is `None` when the expected value is 0, where the division gives `Infinity`
      or `NaN`. */
  datatype ToleranceCheck = ToleranceCheck(
    isValid: bool,
    deviation: Option<real>,
    tolerance: real,
    extractedValue: real,
    expectedValue: real)

  /** The numeric top-level tolerances of the initial state. */
  const InitialLevels: Dict<real> :=
    [("global", 10.0), ("colors", 15.0), ("spacing", 20.0), ("typography", 10.0), ("borderRadius", 25.0)]

  /** A tolerance that counts as set: `x || fallback` skips 0 and missing values. */
  predicate IsSet(t: Option<real>)
  {
    t.Some? && t.value != 0.0
  }

  /** `components[id]?.[property] || state[property] || state.global`. */
  function EffectiveTolerance(components: Dict<Dict<real>>, levels: Dict<real>, id: string, property: string): real
    requires "global" in Keys(levels)
  {
    var own := Lookup(EntryOf(components, id), property);
    var level := Lookup(levels, property);
    if IsSet(own) then own.value
    else if IsSet(level) then level.value
    else Lookup(levels, "global").value
  }

  /** A nonzero component-specific tolerance takes precedence over everything else. */
  lemma ComponentToleranceWins(components: Dict<Dict<real>>, levels: Dict<real>, id: string, property: string, v: real)
    requires "global" in Keys(levels) && v != 0.0
    ensures EffectiveTolerance(StoreIn(components, id, property, v), levels, id, property) == v
  {
    LookupStoreIn(components, id, property, v, id, property);
  }

  /** Setting one component property's tolerance leaves the tolerance of every other
      component property as it was. */
  lemma ComponentToleranceIsolated(components: Dict<Dict<real>>, levels: Dict<real>, id: string, property: string,
                                   v: real, id': string, property': string)
    requires "global" in Keys(levels) && (id' != id || property' != property)
    ensures EffectiveTolerance(StoreIn(components, id, property, v), levels, id', property') ==
            EffectiveTolerance(components, levels, id', property')
  {
    LookupStoreIn(components, id, property, v, id', property');
  }

  /** Without a component-specific value, a nonzero tolerance stored under the
      property's own name applies. */
  lemma CategoryToleranceApplies(components: Dict<Dict<real>>, levels: Dict<real>, id: string, property: string, v: real)
    requires "global" in Keys(levels) && v != 0.0
    requires !IsSet(Lookup(EntryOf(components, id), property))
    ensures "global" in Keys(Store(levels, property, v))
    ensures EffectiveTolerance(components, Store(levels, property, v), id, property) == v
  {
    StoreShape(levels, property, v);
    LookupStore(levels, property, v, property);
  }

  /** Where neither the component nor the property's own name sets a tolerance, a
      new global tolerance applies, whatever it is (0 included). */
  lemma GlobalToleranceApplies(components: Dict<Dict<real>>, levels: Dict<real>, id: string, property: string, v: real)
    requires "global" in Keys(levels) && property != "global"
    requires !IsSet(Lookup(EntryOf(components, id), property)) && !IsSet(Lookup(levels, property))
    ensures "global" in Keys(Store(levels, "global", v))
    ensures EffectiveTolerance(components, Store(levels, "global", v), id, property) == v
  {
    StoreShape(levels, "global", v);
    LookupStore(levels, "global", v, property);
    LookupStore(levels, "global", v, "global");
  }

  /** In the initial state, the category tolerances apply to properties named after
      the categories, and 10 to everything else. */
  lemma InitialTolerances(id: string, property: string)
    ensures "global" in Keys(InitialLevels)
    ensures EffectiveTolerance([], InitialLevels, id, property) ==
      if property == "colors" then 15.0
      else if property == "spacing" then 20.0
      else if property == "borderRadius" then 25.0
      else 10.0
  {
    assert InitialLevels[0].0 == "global";
  }

  /** `Math.abs(x - e)`. */
  function AbsDiff(x: real, e: real): real
  {
    if x >= e then x - e else e - x
  }

  /** The check `validateTolerance` records: the percentage deviation of the
      extracted value from the expected one, valid when within the tolerance. */
  function CheckTolerance(extractedValue: real, expectedValue: real, tolerance: real): (c: ToleranceCheck)
    ensures c.tolerance == tolerance && c.extractedValue == extractedValue && c.expectedValue == expectedValue
    ensures c.deviation.None? <==> expectedValue == 0.0
    ensures c.deviation.Some? ==> c.deviation.value * expectedValue == AbsDiff(extractedValue, expectedValue) * 100.0
    ensures c.isValid <==> c.deviation.Some? && c.deviation.value <= tolerance
  {
    if expectedValue == 0.0 then ToleranceCheck(false, None, tolerance, extractedValue, expectedValue)
    else
      var deviation := AbsDiff(extractedValue, expectedValue) / expectedValue * 100.0;
      ToleranceCheck(deviation <= tolerance, Some(deviation), tolerance, extractedValue, expectedValue)
  }

  /** For a positive expected value the check needs no division: it passes exactly
      when `100 * |x - e| <= tolerance * e`. */
  lemma CheckToleranceCrossMultiplied(extractedValue: real, expectedValue: real, tolerance: real)
    requires expectedValue > 0.0
    ensures CheckTolerance(extractedValue, expectedValue, tolerance).isValid <==>
      AbsDiff(extractedValue, expectedValue) * 100.0 <= tolerance * expectedValue
  {
    var c := CheckTolerance(extractedValue, expectedValue, tolerance);
    var d := c.deviation.value;
    if d <= tolerance {
      assert d * expectedValue <= tolerance * expectedValue;
    } else {
      assert d * expectedValue > tolerance * expectedValue;
    }
  }

  /** The tolerance slice's state. The five numeric top-level entries (`global`
      and the four categories) live in `levels`, since `setCategoryTolerance`
      writes `state[category]` for any category name. */
  class ToleranceState {
    var levels: Dict<real>
    var components: Dict<Dict<real>>
    var validationResults: Dict<Dict<ToleranceCheck>>

    predicate Valid()
      reads this
    {
      "global" in Keys(levels)
    }

    constructor ()
      ensures Valid()
      ensures levels == InitialLevels && components == [] && validationResults == []
    {
      levels := InitialLevels;
      components := [];
      validationResults := [];
      assert InitialLevels[0].0 == "global";
    }

    /** `setGlobalTolerance`: only `global` changes. */
    method SetGlobalTolerance(value: real)
      modifies this
      requires Valid()
      ensures Valid()
      ensures levels == Store(old(levels), "global", value)
      ensures components == old(components) && validationResults == old(validationResults)
    {
      StoreShape(levels, "global", value);
      levels := Store(levels, "global", value);
    }

    /** `setCategoryTolerance`: only `state[category]` changes. */
    method SetCategoryTolerance(category: string, value: real)
      modifies this
      requires Valid()
      requires category != "components" && category != "validationResults"
      ensures Valid()
      ensures levels == Store(old(levels), category, value)
      ensures components == old(components) && validationResults == old(validationResults)
    {
      StoreShape(levels, category, value);
      levels := Store(levels, category, value);
    }

    /** `setComponentTolerance`: the component's overrides are created when missing,
        and only the one property is set. */
    method SetComponentTolerance(componentId: string, property: string, value: real)
      modifies this
      requires Valid()
      ensures Valid()
      ensures components == StoreIn(old(components), componentId, property, value)
      ensures levels == old(levels) && validationResults == old(validationResults)
    {
      components := StoreIn(components, componentId, property, value);
    }

    /** `validateTolerance`: the check against the effective tolerance is recorded
        under the component and property; nothing else changes. */
    method ValidateTolerance(componentId: string, property: string, extractedValue: real, expectedValue: real)
      modifies this
      requires Valid()
      ensures Valid()
      ensures validationResults == StoreIn(old(validationResults), componentId, property,
        CheckTolerance(extractedValue, expectedValue, EffectiveTolerance(components, levels, componentId, property)))
      ensures levels == old(levels) && components == old(components)
    {
      var tolerance := EffectiveTolerance(components, levels, componentId, property);
      var check := CheckTolerance(extractedValue, expectedValue, tolerance);
      validationResults := StoreIn(validationResults, componentId, property, check);
    }
  }
}
