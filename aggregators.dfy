/** The aggregators of psets.py: for one element, `update` an accumulator
    dictionary with the flattened map of every related container, in the order
    the relation filters return them. */
module Aggregators {
  import opened Wrappers
  import opened IfcModel
  import opened Dicts
  import opened RelationFilter
  import opened Flatteners

  /** What `get_all_pset_data` returns. */
  function PsetData<V>(e: Element<V>): map<PairKey, V>
  {
    MergeAll(PropertyMap, PropertySetsOf(e))
  }

  /** What `get_all_quantity_data` returns. */
  function QuantityData<V>(e: Element<V>): map<PairKey, Option<V>>
  {
    MergeAll(QuantityMap, QuantitySetsOf(e))
  }

  /** What `get_all_type_data` returns. */
  function TypeData<V>(e: Element<V>): map<string, string>
  {
    MergeAll(TypeMap, RelatedTypeDefinition(e))
  }

  /** `get_all_pset_data`. */
  method GetAllPsetData<V>(e: Element<V>) returns (psetDict: map<PairKey, V>)
    ensures psetDict == PsetData(e)
  {
    psetDict := map[];
    var sets := GetRelatedPropertySets(e);
    for i := 0 to |sets|
      invariant psetDict == MergeAll(PropertyMap, sets[..i])
    {
      var m := GetPropertySingleValue(sets[i]);
      assert MergeAll(PropertyMap, sets[..i + 1]) == psetDict + m by {
        assert sets[..i + 1] == sets[..i] + [sets[i]];
        MergeAllSnoc(PropertyMap, sets[..i], sets[i]);
      }
      psetDict := psetDict + m;
    }
    assert sets[..|sets|] == sets;
  }

  /** `get_all_quantity_data`. */
  method GetAllQuantityData<V>(e: Element<V>) returns (psetDict: map<PairKey, Option<V>>)
    ensures psetDict == QuantityData(e)
  {
    psetDict := map[];
    var sets := GetRelatedQuantities(e);
    for i := 0 to |sets|
      invariant psetDict == MergeAll(QuantityMap, sets[..i])
    {
      var m := GetQuantitySingleValue(sets[i]);
      assert MergeAll(QuantityMap, sets[..i + 1]) == psetDict + m by {
        assert sets[..i + 1] == sets[..i] + [sets[i]];
        MergeAllSnoc(QuantityMap, sets[..i], sets[i]);
      }
      psetDict := psetDict + m;
    }
    assert sets[..|sets|] == sets;
  }

  /** `get_all_type_data`. */
  method GetAllTypeData<V>(e: Element<V>) returns (psetDict: map<string, string>)
    ensures psetDict == TypeData(e)
  {
    psetDict := map[];
    var types := RelatedTypeDefinition(e);
    for i := 0 to |types|
      invariant psetDict == MergeAll(TypeMap, types[..i])
    {
      var m := GetTypeSingleValue(types[i]);
      assert MergeAll(TypeMap, types[..i + 1]) == psetDict + m by {
        assert types[..i + 1] == types[..i] + [types[i]];
        MergeAllSnoc(TypeMap, types[..i], types[i]);
      }
      psetDict := psetDict + m;
    }
    assert types[..|types|] == types;
  }

  /** A key of an element's property data is a key of one of its related
      property sets, so its first component is that set's name. */
  lemma PsetDataKeys<V>(e: Element<V>, k: PairKey)
    ensures k in PsetData(e) <==>
              exists i :: 0 <= i < |PropertySetsOf(e)| && k in PropertyMap(PropertySetsOf(e)[i])
    ensures k in PsetData(e) ==>
              exists i :: 0 <= i < |PropertySetsOf(e)| && PropertySetsOf(e)[i].name == k.0
  {
    var sets := PropertySetsOf(e);
    MergeAllKeys(PropertyMap, sets, k);
    if k in PsetData(e) {
      var i :| 0 <= i < |sets| && k in PropertyMap(sets[i]);
      PropertyMapKeys(sets[i], k);
    }
  }

  /** Last write wins across property sets: the value of a key is the one of
      the last related property set that has it. */
  lemma PsetDataLast<V>(e: Element<V>, i: int, k: PairKey)
    requires 0 <= i < |PropertySetsOf(e)| && k in PropertyMap(PropertySetsOf(e)[i])
    requires forall j :: i < j < |PropertySetsOf(e)| ==> k !in PropertyMap(PropertySetsOf(e)[j])
    ensures k in PsetData(e) && PsetData(e)[k] == PropertyMap(PropertySetsOf(e)[i])[k]
  {
    MergeAllLast(PropertyMap, PropertySetsOf(e), i, k);
  }

  /** A key of an element's quantity data is a key of one of its related
      quantity sets, so its first component is that set's name. */
  lemma QuantityDataKeys<V>(e: Element<V>, k: PairKey)
    ensures k in QuantityData(e) <==>
              exists i :: 0 <= i < |QuantitySetsOf(e)| && k in QuantityMap(QuantitySetsOf(e)[i])
    ensures k in QuantityData(e) ==>
              exists i :: 0 <= i < |QuantitySetsOf(e)| && QuantitySetsOf(e)[i].name == k.0
  {
    var sets := QuantitySetsOf(e);
    MergeAllKeys(QuantityMap, sets, k);
    if k in QuantityData(e) {
      var i :| 0 <= i < |sets| && k in QuantityMap(sets[i]);
      QuantityMapKeys(sets[i], k);
    }
  }

  /** Last write wins across quantity sets. */
  lemma QuantityDataLast<V>(e: Element<V>, i: int, k: PairKey)
    requires 0 <= i < |QuantitySetsOf(e)| && k in QuantityMap(QuantitySetsOf(e)[i])
    requires forall j :: i < j < |QuantitySetsOf(e)| ==> k !in QuantityMap(QuantitySetsOf(e)[j])
    ensures k in QuantityData(e) && QuantityData(e)[k] == QuantityMap(QuantitySetsOf(e)[i])[k]
  {
    MergeAllLast(QuantityMap, QuantitySetsOf(e), i, k);
  }

  /** A string is a key of an element's type data exactly when it is
      `"TypeDefinition_"` followed by the name of a related type that has a
      named property set. */
  lemma TypeDataKeys<V>(e: Element<V>, s: string)
    ensures s in TypeData(e) <==>
              exists i :: 0 <= i < |RelatedTypeDefinition(e)| && RelatedTypeDefinition(e)[i].name.Some?
                && LastSetName(RelatedTypeDefinition(e)[i].hasPropertySets).Some?
                && s == TypeKeyPrefix + RelatedTypeDefinition(e)[i].name.value
  {
    var types := RelatedTypeDefinition(e);
    MergeAllKeys(TypeMap, types, s);
    forall i | 0 <= i < |types|
      ensures s in TypeMap(types[i]) <==>
                types[i].name.Some? && LastSetName(types[i].hasPropertySets).Some?
                && s == TypeKeyPrefix + types[i].name.value
    {
      TypeMapShape(types[i]);
      LastSetNameIsLast(types[i].hasPropertySets);
    }
  }

  /** Two related types with the same name share one key: the last one wins. */
  lemma TypeDataLast<V>(e: Element<V>, i: int, s: string)
    requires 0 <= i < |RelatedTypeDefinition(e)| && s in TypeMap(RelatedTypeDefinition(e)[i])
    requires forall j :: i < j < |RelatedTypeDefinition(e)| ==> s !in TypeMap(RelatedTypeDefinition(e)[j])
    ensures s in TypeData(e) && TypeData(e)[s] == TypeMap(RelatedTypeDefinition(e)[i])[s]
  {
    MergeAllLast(TypeMap, RelatedTypeDefinition(e), i, s);
  }

  // ---------------------------------------------------------------------------
  // get_all_instance_data: one dictionary for all three categories
  // ---------------------------------------------------------------------------

  /** The keys of the combined dictionary: Python tuples from property and
      quantity sets, strings from types. */
  datatype InstanceKey = SetKey(pair: PairKey) | TypeDefKey(text: string)

  /** The values of the combined dictionary. */
  datatype InstanceValue<V> =
    | Nominal(value: V)
    | Measure(measure: Option<V>)
    | SetName(setName: string)

  /** A property map with its entries seen as entries of the combined dictionary. */
  function PsetCells<V>(m: map<PairKey, V>): (r: map<InstanceKey, InstanceValue<V>>)
    ensures forall k :: SetKey(k) in r <==> k in m
    ensures forall k :: k in m ==> r[SetKey(k)] == Nominal(m[k])
    ensures forall k2 :: k2 in r ==> k2.SetKey?
  {
    map k | k in m :: SetKey(k) := Nominal(m[k])
  }

  /** A quantity map seen in the combined dictionary. */
  function QuantityCells<V>(m: map<PairKey, Option<V>>): (r: map<InstanceKey, InstanceValue<V>>)
    ensures forall k :: SetKey(k) in r <==> k in m
    ensures forall k :: k in m ==> r[SetKey(k)] == Measure(m[k])
    ensures forall k2 :: k2 in r ==> k2.SetKey?
  {
    map k | k in m :: SetKey(k) := Measure(m[k])
  }

  /** A type map seen in the combined dictionary. */
  function TypeCells<V>(m: map<string, string>): (r: map<InstanceKey, InstanceValue<V>>)
    ensures forall s :: TypeDefKey(s) in r <==> s in m
    ensures forall s :: s in m ==> r[TypeDefKey(s)] == SetName(m[s])
    ensures forall k2 :: k2 in r ==> k2.TypeDefKey?
  {
    map s | s in m :: TypeDefKey(s) := SetName(m[s])
  }

  /** What `get_all_instance_data` returns: property data, then quantity data,
      then type data, each later category overriding on a shared key. */
  function InstanceData<V>(e: Element<V>): map<InstanceKey, InstanceValue<V>>
  {
    PsetCells(PsetData(e)) + QuantityCells(QuantityData(e)) + TypeCells<V>(TypeData(e))
  }

  /** Seeing maps in the combined dictionary commutes with `update`. */
  lemma PsetCellsUpdate<V>(a: map<PairKey, V>, b: map<PairKey, V>)
    ensures PsetCells(a + b) == PsetCells(a) + PsetCells(b)
  {
    var lhs, rhs := PsetCells(a + b), PsetCells(a) + PsetCells(b);
    forall k2 | k2 in lhs ensures k2 in rhs && lhs[k2] == rhs[k2] {
      var k := k2.pair;
      assert k2 == SetKey(k) && k in a + b;
      if k in b { assert rhs[k2] == Nominal(b[k]); } else { assert rhs[k2] == Nominal(a[k]); }
    }
    forall k2 | k2 in rhs ensures k2 in lhs {
      assert k2 == SetKey(k2.pair) && k2.pair in a + b;
    }
  }

  lemma QuantityCellsUpdate<V>(a: map<PairKey, Option<V>>, b: map<PairKey, Option<V>>)
    ensures QuantityCells(a + b) == QuantityCells(a) + QuantityCells(b)
  {
    var lhs, rhs := QuantityCells(a + b), QuantityCells(a) + QuantityCells(b);
    forall k2 | k2 in lhs ensures k2 in rhs && lhs[k2] == rhs[k2] {
      var k := k2.pair;
      assert k2 == SetKey(k) && k in a + b;
      if k in b { assert rhs[k2] == Measure(b[k]); } else { assert rhs[k2] == Measure(a[k]); }
    }
    forall k2 | k2 in rhs ensures k2 in lhs {
      assert k2 == SetKey(k2.pair) && k2.pair in a + b;
    }
  }

  lemma TypeCellsUpdate<V>(a: map<string, string>, b: map<string, string>)
    ensures TypeCells<V>(a + b) == TypeCells<V>(a) + TypeCells<V>(b)
  {
    var lhs, rhs := TypeCells<V>(a + b), TypeCells<V>(a) + TypeCells<V>(b);
    forall k2 | k2 in lhs ensures k2 in rhs && lhs[k2] == rhs[k2] {
      var s := k2.text;
      assert k2 == TypeDefKey(s) && s in a + b;
      if s in b { assert rhs[k2] == SetName(b[s]); } else { assert rhs[k2] == SetName(a[s]); }
    }
    forall k2 | k2 in rhs ensures k2 in lhs {
      assert k2 == TypeDefKey(k2.text) && k2.text in a + b;
    }
  }

  /** One more property set folded into the combined dictionary. */
  lemma PsetCellsStep<V>(sets: seq<PropertySetDef<V>>, i: int)
    requires 0 <= i < |sets|
    ensures PsetCells(MergeAll(PropertyMap, sets[..i + 1]))
         == PsetCells(MergeAll(PropertyMap, sets[..i])) + PsetCells(PropertyMap(sets[i]))
  {
    assert sets[..i + 1] == sets[..i] + [sets[i]];
    MergeAllSnoc(PropertyMap, sets[..i], sets[i]);
    var a, b := MergeAll(PropertyMap, sets[..i]), PropertyMap(sets[i]);
    PsetCellsUpdate(a, b);
  }

  /** One more quantity set folded into the combined dictionary. */
  lemma QuantityCellsStep<V>(sets: seq<QuantitySetDef<V>>, i: int)
    requires 0 <= i < |sets|
    ensures QuantityCells(MergeAll(QuantityMap, sets[..i + 1]))
         == QuantityCells(MergeAll(QuantityMap, sets[..i])) + QuantityCells(QuantityMap(sets[i]))
  {
    assert sets[..i + 1] == sets[..i] + [sets[i]];
    MergeAllSnoc(QuantityMap, sets[..i], sets[i]);
    var a, b := MergeAll(QuantityMap, sets[..i]), QuantityMap(sets[i]);
    QuantityCellsUpdate(a, b);
  }

  /** One more type folded into the combined dictionary. */
  lemma TypeCellsStep<V>(types: seq<ElementType<V>>, i: int)
    requires 0 <= i < |types|
    ensures TypeCells<V>(MergeAll(TypeMap, types[..i + 1]))
         == TypeCells<V>(MergeAll(TypeMap, types[..i])) + TypeCells<V>(TypeMap(types[i]))
  {
    assert types[..i + 1] == types[..i] + [types[i]];
    MergeAllSnoc(TypeMap, types[..i], types[i]);
    var a, b := MergeAll(TypeMap, types[..i]), TypeMap(types[i]);
    TypeCellsUpdate<V>(a, b);
  }

  /** The first comprehension of `get_all_instance_data`: `update` the shared
      dictionary with every related property set's map. */
  method UpdateWithPropertySets<V>(acc: map<InstanceKey, InstanceValue<V>>, e: Element<V>)
    returns (psetDict: map<InstanceKey, InstanceValue<V>>)
    ensures psetDict == acc + PsetCells(PsetData(e))
  {
    psetDict := acc;
    var sets := GetRelatedPropertySets(e);
    for i := 0 to |sets|
      invariant psetDict == acc + PsetCells(MergeAll(PropertyMap, sets[..i]))
    {
      var m := GetPropertySingleValue(sets[i]);
      PsetCellsStep(sets, i);
      UpdateAssociative(acc, PsetCells(MergeAll(PropertyMap, sets[..i])), PsetCells(m));
      psetDict := psetDict + PsetCells(m);
    }
    assert sets[..|sets|] == sets;
  }

  /** The second comprehension: every related quantity set's map. */
  method UpdateWithQuantities<V>(acc: map<InstanceKey, InstanceValue<V>>, e: Element<V>)
    returns (psetDict: map<InstanceKey, InstanceValue<V>>)
    ensures psetDict == acc + QuantityCells(QuantityData(e))
  {
    psetDict := acc;
    var quantities := GetRelatedQuantities(e);
    for i := 0 to |quantities|
      invariant psetDict == acc + QuantityCells(MergeAll(QuantityMap, quantities[..i]))
    {
      var m := GetQuantitySingleValue(quantities[i]);
      QuantityCellsStep(quantities, i);
      UpdateAssociative(acc, QuantityCells(MergeAll(QuantityMap, quantities[..i])), QuantityCells(m));
      psetDict := psetDict + QuantityCells(m);
    }
    assert quantities[..|quantities|] == quantities;
  }

  /** The third comprehension: every related type's map. */
  method UpdateWithTypes<V>(acc: map<InstanceKey, InstanceValue<V>>, e: Element<V>)
    returns (psetDict: map<InstanceKey, InstanceValue<V>>)
    ensures psetDict == acc + TypeCells<V>(TypeData(e))
  {
    psetDict := acc;
    var types := RelatedTypeDefinition(e);
    for i := 0 to |types|
      invariant psetDict == acc + TypeCells<V>(MergeAll(TypeMap, types[..i]))
    {
      var m := GetTypeSingleValue(types[i]);
      TypeCellsStep(types, i);
      UpdateAssociative(acc, TypeCells<V>(MergeAll(TypeMap, types[..i])), TypeCells<V>(m));
      psetDict := psetDict + TypeCells<V>(m);
    }
    assert types[..|types|] == types;
  }

  /** `get_all_instance_data`: the three comprehensions, one after the other,
      on one dictionary. */
  method GetAllInstanceData<V>(e: Element<V>) returns (psetDict: map<InstanceKey, InstanceValue<V>>)
    ensures psetDict == InstanceData(e)
  {
    psetDict := map[];
    psetDict := UpdateWithPropertySets(psetDict, e);
    psetDict := UpdateWithQuantities(psetDict, e);
    psetDict := UpdateWithTypes(psetDict, e);
    UpdateEmpty(PsetCells(PsetData(e)));
  }

  /** The combined dictionary is the key-wise union of the three categories:
      on a (set, record) key a quantity overrides a property, and the string
      keys of types never meet the tuple keys, so type entries are never
      overridden and never override. */
  lemma InstanceDataEntries<V>(e: Element<V>)
    ensures forall k :: SetKey(k) in InstanceData(e) <==> k in PsetData(e) || k in QuantityData(e)
    ensures forall k :: k in QuantityData(e) ==> InstanceData(e)[SetKey(k)] == Measure(QuantityData(e)[k])
    ensures forall k :: k in PsetData(e) && k !in QuantityData(e) ==>
              InstanceData(e)[SetKey(k)] == Nominal(PsetData(e)[k])
    ensures forall s :: TypeDefKey(s) in InstanceData(e) <==> s in TypeData(e)
    ensures forall s :: s in TypeData(e) ==> InstanceData(e)[TypeDefKey(s)] == SetName(TypeData(e)[s])
  {
  }

  /** An element without relationships yields four empty dictionaries. */
  lemma NoRelationsNoData<V>(e: Element<V>)
    requires |e.isDefinedBy| == 0
    ensures PsetData(e) == map[] && QuantityData(e) == map[] && TypeData(e) == map[]
    ensures InstanceData(e) == map[]
  {
    PropertySetsExactly(e);
    QuantitySetsExactly(e);
    var p, q, t := PsetCells(PsetData(e)), QuantityCells(QuantityData(e)), TypeCells<V>(TypeData(e));
    assert p == map[] && q == map[] && t == map[];
  }
}
