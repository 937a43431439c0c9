/** The flatteners of psets.py: one property container in, one flat map out.
    Each is a loop of dictionary updates (a method), specified by the fold of
    `Dicts.MergeAll` over one small map per record (a function). */
module Flatteners {
  import opened Wrappers
  import opened IfcModel
  import opened Dicts

  // ---------------------------------------------------------------------------
  // Property sets: get_property_single_value
  // ---------------------------------------------------------------------------

  /** What one single value writes under set name `setName`: nothing when its
      `NominalValue` is unset. */
  function SingleEntry<V>(setName: Name, z: SingleValue<V>): map<PairKey, V>
  {
    match z.nominalValue
    case None => map[]
    case Some(v) => map[(setName, z.name) := v]
  }

  function SingleEntryOf<V>(setName: Name): SingleValue<V> -> map<PairKey, V>
  {
    z => SingleEntry(setName, z)
  }

  /** What one entry of `HasProperties` writes: a single value as above, a
      complex property each of its nested single values under the set's name
      (its own name is not used), any other property nothing. */
  function PropertyEntry<V>(setName: Name, y: Property<V>): map<PairKey, V>
  {
    match y
    case PropertySingleValue(z) => SingleEntry(setName, z)
    case ComplexProperty(_, nested) => MergeAll(SingleEntryOf(setName), nested)
    case OtherProperty(_) => map[]
  }

  function PropertyEntryOf<V>(setName: Name): Property<V> -> map<PairKey, V>
  {
    y => PropertyEntry(setName, y)
  }

  /** The map `get_property_single_value` returns for a property set. */
  function PropertyMap<V>(x: PropertySetDef<V>): map<PairKey, V>
  {
    MergeAll(PropertyEntryOf(x.name), x.hasProperties)
  }

  /** `get_property_single_value`. */
  method GetPropertySingleValue<V>(x: PropertySetDef<V>) returns (attributesDicts: map<PairKey, V>)
    ensures attributesDicts == PropertyMap(x)
  {
    attributesDicts := map[];
    var props := x.hasProperties;
    for i := 0 to |props|
      invariant attributesDicts == MergeAll(PropertyEntryOf(x.name), props[..i])
    {
      var y := props[i];
      assert MergeAll(PropertyEntryOf(x.name), props[..i + 1]) == attributesDicts + PropertyEntry(x.name, y) by {
        assert props[..i + 1] == props[..i] + [y];
        MergeAllSnoc(PropertyEntryOf(x.name), props[..i], y);
      }
      ghost var before := attributesDicts;
      match y {
        case PropertySingleValue(z) =>
          if z.nominalValue.Some? {
            attributesDicts := attributesDicts[(x.name, z.name) := z.nominalValue.value];
            UpdateIsMerge(before, (x.name, z.name), z.nominalValue.value);
          }
          assert attributesDicts == before + SingleEntry(x.name, z);
        case ComplexProperty(_, nested) =>
          attributesDicts := UpdateFromNested(attributesDicts, x.name, nested);
        case OtherProperty(_) =>
      }
    }
    assert props[..|props|] == props;
  }

  /** The inner loop of `get_property_single_value` over the `HasProperties`
      of a complex property: every nested value that is set is written under
      (set name, nested name). */
  method UpdateFromNested<V>(acc: map<PairKey, V>, setName: Name, nested: seq<SingleValue<V>>)
    returns (attributesDicts: map<PairKey, V>)
    ensures attributesDicts == acc + MergeAll(SingleEntryOf(setName), nested)
  {
    attributesDicts := acc;
    for j := 0 to |nested|
      invariant attributesDicts == acc + MergeAll(SingleEntryOf(setName), nested[..j])
    {
      var z := nested[j];
      assert MergeAll(SingleEntryOf(setName), nested[..j + 1])
          == MergeAll(SingleEntryOf(setName), nested[..j]) + SingleEntry(setName, z) by {
        assert nested[..j + 1] == nested[..j] + [z];
        MergeAllSnoc(SingleEntryOf(setName), nested[..j], z);
      }
      ghost var before := attributesDicts;
      if z.nominalValue.Some? {
        attributesDicts := attributesDicts[(setName, z.name) := z.nominalValue.value];
        UpdateIsMerge(before, (setName, z.name), z.nominalValue.value);
      }
      assert attributesDicts == before + SingleEntry(setName, z);
      UpdateAssociative(acc, MergeAll(SingleEntryOf(setName), nested[..j]), SingleEntry(setName, z));
    }
    assert nested[..|nested|] == nested;
  }

  /** Record `y` writes a value under record name `n`: it is a single value
      named `n` with a value, or a complex property with such a nested value. */
  ghost predicate Supplies<V>(y: Property<V>, n: Name)
  {
    match y
    case PropertySingleValue(z) => z.name == n && z.nominalValue.Some?
    case ComplexProperty(_, nested) =>
      exists j :: 0 <= j < |nested| && nested[j].name == n && nested[j].nominalValue.Some?
    case OtherProperty(_) => false
  }

  /** The keys one record writes. */
  lemma PropertyEntryKeys<V>(setName: Name, y: Property<V>, k: PairKey)
    ensures k in PropertyEntry(setName, y) <==> k.0 == setName && Supplies(y, k.1)
  {
    if y.ComplexProperty? {
      MergeAllKeys(SingleEntryOf(setName), y.hasProperties, k);
    }
  }

  /** The keys of a flattened property set: the set's own name paired with the
      name of each single value that has a value, at the top level or nested in
      a complex property. Absent values and other kinds of property add none. */
  lemma PropertyMapKeys<V>(x: PropertySetDef<V>, k: PairKey)
    ensures k in PropertyMap(x) <==>
              k.0 == x.name && exists i :: 0 <= i < |x.hasProperties| && Supplies(x.hasProperties[i], k.1)
  {
    MergeAllKeys(PropertyEntryOf(x.name), x.hasProperties, k);
    forall i | 0 <= i < |x.hasProperties| {
      PropertyEntryKeys(x.name, x.hasProperties[i], k);
    }
  }

  /** A single value with a present value lands under (set name, its name)
      unless a later record writes the same key. */
  lemma PropertyMapSingleValue<V>(x: PropertySetDef<V>, i: int, n: Name, v: V)
    requires 0 <= i < |x.hasProperties|
    requires x.hasProperties[i] == PropertySingleValue(SingleValue(n, Some(v)))
    requires forall j :: i < j < |x.hasProperties| ==> !Supplies(x.hasProperties[j], n)
    ensures (x.name, n) in PropertyMap(x) && PropertyMap(x)[(x.name, n)] == v
  {
    var k := (x.name, n);
    forall j | i < j < |x.hasProperties| ensures k !in PropertyEntryOf(x.name)(x.hasProperties[j]) {
      PropertyEntryKeys(x.name, x.hasProperties[j], k);
    }
    MergeAllLast(PropertyEntryOf(x.name), x.hasProperties, i, k);
  }

  /** A nested single value with a present value lands under (set name, its
      name) unless a later nested value or a later record writes the same key. */
  lemma PropertyMapNestedValue<V>(x: PropertySetDef<V>, i: int, j: int, n: Name, v: V)
    requires 0 <= i < |x.hasProperties| && x.hasProperties[i].ComplexProperty?
    requires 0 <= j < |x.hasProperties[i].hasProperties|
    requires x.hasProperties[i].hasProperties[j] == SingleValue(n, Some(v))
    requires forall j' :: j < j' < |x.hasProperties[i].hasProperties| ==>
               x.hasProperties[i].hasProperties[j'].name != n
               || x.hasProperties[i].hasProperties[j'].nominalValue.None?
    requires forall i' :: i < i' < |x.hasProperties| ==> !Supplies(x.hasProperties[i'], n)
    ensures (x.name, n) in PropertyMap(x) && PropertyMap(x)[(x.name, n)] == v
  {
    var k, nested := (x.name, n), x.hasProperties[i].hasProperties;
    MergeAllLast(SingleEntryOf(x.name), nested, j, k);
    forall i' | i < i' < |x.hasProperties| ensures k !in PropertyEntryOf(x.name)(x.hasProperties[i']) {
      PropertyEntryKeys(x.name, x.hasProperties[i'], k);
    }
    MergeAllLast(PropertyEntryOf(x.name), x.hasProperties, i, k);
  }

  /** The name of a complex property never matters: renaming one leaves the
      flattened map unchanged. */
  lemma ComplexNameUnused<V>(x: PropertySetDef<V>, i: int, newName: Name)
    requires 0 <= i < |x.hasProperties| && x.hasProperties[i].ComplexProperty?
    ensures var renamed := x.(hasProperties := x.hasProperties[i := x.hasProperties[i].(name := newName)]);
      PropertyMap(renamed) == PropertyMap(x)
  {
    var renamed := x.(hasProperties := x.hasProperties[i := x.hasProperties[i].(name := newName)]);
    MergeAllPointwise(PropertyEntryOf(x.name), renamed.hasProperties, x.hasProperties);
  }

  // ---------------------------------------------------------------------------
  // Element quantities: get_quantity_single_value
  // ---------------------------------------------------------------------------

  /** One of the five quantity classes the extractor reads. */
  predicate IsMeasure<V>(q: Quantity<V>) { !q.OtherQuantity? }

  /** The value attribute that belongs to the class of `q`. */
  function MeasureValue<V>(q: Quantity<V>): Option<V>
    requires IsMeasure(q)
  {
    match q
    case QuantityArea(_, v) => v
    case QuantityLength(_, v) => v
    case QuantityVolume(_, v) => v
    case QuantityCount(_, v) => v
    case QuantityWeight(_, v) => v
  }

  /** What one quantity writes under set name `setName`: its value attribute,
      present or not, unless it is of another class. */
  function QuantityEntry<V>(setName: Name, q: Quantity<V>): map<PairKey, Option<V>>
  {
    if IsMeasure(q) then map[(setName, q.name) := MeasureValue(q)] else map[]
  }

  function QuantityEntryOf<V>(setName: Name): Quantity<V> -> map<PairKey, Option<V>>
  {
    q => QuantityEntry(setName, q)
  }

  /** The map `get_quantity_single_value` returns for an element quantity. */
  function QuantityMap<V>(x: QuantitySetDef<V>): map<PairKey, Option<V>>
  {
    MergeAll(QuantityEntryOf(x.name), x.quantities)
  }

  /** `get_quantity_single_value`. */
  method GetQuantitySingleValue<V>(x: QuantitySetDef<V>) returns (quantitiesDicts: map<PairKey, Option<V>>)
    ensures quantitiesDicts == QuantityMap(x)
  {
    quantitiesDicts := map[];
    var qs := x.quantities;
    for i := 0 to |qs|
      invariant quantitiesDicts == MergeAll(QuantityEntryOf(x.name), qs[..i])
    {
      var y := qs[i];
      assert MergeAll(QuantityEntryOf(x.name), qs[..i + 1]) == quantitiesDicts + QuantityEntry(x.name, y) by {
        assert qs[..i + 1] == qs[..i] + [y];
        MergeAllSnoc(QuantityEntryOf(x.name), qs[..i], y);
      }
      ghost var before := quantitiesDicts;
      match y {
        case QuantityArea(n, v) => quantitiesDicts := quantitiesDicts[(x.name, n) := v];
        case QuantityLength(n, v) => quantitiesDicts := quantitiesDicts[(x.name, n) := v];
        case QuantityVolume(n, v) => quantitiesDicts := quantitiesDicts[(x.name, n) := v];
        case QuantityCount(n, v) => quantitiesDicts := quantitiesDicts[(x.name, n) := v];
        case QuantityWeight(n, v) => quantitiesDicts := quantitiesDicts[(x.name, n) := v];
        case OtherQuantity(_) =>
      }
      assert quantitiesDicts == before + QuantityEntry(x.name, y) by {
        if IsMeasure(y) {
          UpdateIsMerge(before, (x.name, y.name), MeasureValue(y));
        }
      }
    }
    assert qs[..|qs|] == qs;
  }

  /** The keys of a flattened element quantity: the set's name paired with the
      name of each area, length, volume, count or weight quantity, whether or
      not its value is set. Other quantities add none. */
  lemma QuantityMapKeys<V>(x: QuantitySetDef<V>, k: PairKey)
    ensures k in QuantityMap(x) <==>
              k.0 == x.name && exists i :: 0 <= i < |x.quantities| && IsMeasure(x.quantities[i]) && x.quantities[i].name == k.1
  {
    MergeAllKeys(QuantityEntryOf(x.name), x.quantities, k);
  }

  /** The value under (set name, record name) is the class's own value
      attribute of the last quantity of one of the five classes with that name. */
  lemma QuantityMapValue<V>(x: QuantitySetDef<V>, i: int)
    requires 0 <= i < |x.quantities| && IsMeasure(x.quantities[i])
    requires forall j :: i < j < |x.quantities| ==> !IsMeasure(x.quantities[j]) || x.quantities[j].name != x.quantities[i].name
    ensures (x.name, x.quantities[i].name) in QuantityMap(x)
    ensures QuantityMap(x)[(x.name, x.quantities[i].name)] == MeasureValue(x.quantities[i])
  {
    var k := (x.name, x.quantities[i].name);
    MergeAllLast(QuantityEntryOf(x.name), x.quantities, i, k);
  }

  // ---------------------------------------------------------------------------
  // Element types: get_type_single_value
  // ---------------------------------------------------------------------------

  const TypeKeyPrefix := "TypeDefinition_"

  /** The name of the last definition in `sets` whose name is set. */
  function LastSetName<V>(sets: seq<PropertyDefinition<V>>): Name
    decreases |sets|
  {
    if |sets| == 0 then None
    else if sets[|sets| - 1].name.Some? then sets[|sets| - 1].name
    else LastSetName(sets[..|sets| - 1])
  }

  /** The map `get_type_single_value` returns: one key built from the type's
      name, holding the last set name, or nothing. The empty result when the
      type's name is unset is what the `except` leaves behind: the first
      string concatenation with `None` raises before any update. */
  function TypeMap<V>(x: ElementType<V>): map<string, string>
  {
    match (x.name, LastSetName(x.hasPropertySets))
    case (Some(n), Some(s)) => map[TypeKeyPrefix + n := s]
    case _ => map[]
  }

  /** `get_type_single_value`. The `raised` flag is the `TypeError` that
      `"TypeDefinition_" + x.Name` raises when the name is unset; the
      `except` swallows it and returns the dictionary as it stands. */
  method GetTypeSingleValue<V>(x: ElementType<V>) returns (typeAttrDicts: map<string, string>)
    ensures typeAttrDicts == TypeMap(x)
  {
    typeAttrDicts := map[];
    var sets := x.hasPropertySets;
    if |sets| > 0 {
      var raised := false;
      var i := 0;
      while i < |sets| && !raised
        invariant 0 <= i <= |sets|
        invariant raised ==> x.name.None? && typeAttrDicts == map[]
        invariant !raised ==> typeAttrDicts == TypeMap(x.(hasPropertySets := sets[..i]))
        decreases |sets| - i
      {
        var y := sets[i];
        assert sets[..i + 1][..i] == sets[..i];
        if y.name.Some? {
          match x.name {
            case None => raised := true;
            case Some(n) => typeAttrDicts := typeAttrDicts[TypeKeyPrefix + n := y.name.value];
          }
        }
        i := i + 1;
      }
      assert sets[..|sets|] == sets;
    }
  }

  /** `LastSetName` is the name of the last named set, and there is none
      exactly when no set is named. */
  lemma {:induction false} LastSetNameIsLast<V>(sets: seq<PropertyDefinition<V>>)
    ensures LastSetName(sets).None? <==> forall i :: 0 <= i < |sets| ==> sets[i].name.None?
    ensures forall i :: 0 <= i < |sets| && sets[i].name.Some? && (forall j :: i < j < |sets| ==> sets[j].name.None?)
              ==> LastSetName(sets) == sets[i].name
    decreases |sets|
  {
    if |sets| > 0 {
      var n := |sets| - 1;
      var init := sets[..n];
      LastSetNameIsLast(init);
      assert forall i :: 0 <= i < n ==> init[i] == sets[i];
      if sets[n].name.None? {
        assert LastSetName(sets) == LastSetName(init);
      }
    }
  }

  /** A flattened type is empty when its name is unset or none of its sets is
      named; otherwise it maps `"TypeDefinition_" + type name` to the name of
      its last named set, and holds nothing else. */
  lemma TypeMapShape<V>(x: ElementType<V>)
    ensures TypeMap(x) == map[] <==>
              x.name.None? || forall i :: 0 <= i < |x.hasPropertySets| ==> x.hasPropertySets[i].name.None?
    ensures forall i :: 0 <= i < |x.hasPropertySets| && x.name.Some? && x.hasPropertySets[i].name.Some?
              && (forall j :: i < j < |x.hasPropertySets| ==> x.hasPropertySets[j].name.None?)
              ==> TypeMap(x) == map[TypeKeyPrefix + x.name.value := x.hasPropertySets[i].name.value]
  {
    LastSetNameIsLast(x.hasPropertySets);
    if x.name.Some? && LastSetName(x.hasPropertySets).Some? {
      assert TypeKeyPrefix + x.name.value in TypeMap(x);
    }
  }
}
