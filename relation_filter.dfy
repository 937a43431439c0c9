/** The relation filters of psets.py: which property definitions and types
    an element's `IsDefinedBy` relationships lead to, in relationship order. */
module RelationFilter {
  import opened IfcModel
  import opened Seqs

  /** `get_related_properties`: the `RelatingPropertyDefinition` of every
      `IfcRelDefinesByProperties` relationship, whatever its kind. */
  function RelatedProperties<V>(e: Element<V>): (r: seq<PropertyDefinition<V>>)
    ensures |r| <= |e.isDefinedBy|
    decreases |e.isDefinedBy|
  {
    var rels := e.isDefinedBy;
    if |rels| == 0 then []
    else
      var last := rels[|rels| - 1];
      assert rels == rels[..|rels| - 1] + [last];
      RelatedProperties(Prefix(e, |rels| - 1))
        + (if last.RelDefinesByProperties? then [last.relatingPropertyDefinition] else [])
  }

  /** `get_related_type_definition`: the `RelatingType` of every
      `IfcRelDefinesByType` relationship. */
  function RelatedTypeDefinition<V>(e: Element<V>): (r: seq<ElementType<V>>)
    ensures |r| <= |e.isDefinedBy|
    decreases |e.isDefinedBy|
  {
    var rels := e.isDefinedBy;
    if |rels| == 0 then []
    else
      var last := rels[|rels| - 1];
      assert rels == rels[..|rels| - 1] + [last];
      RelatedTypeDefinition(Prefix(e, |rels| - 1))
        + (if last.RelDefinesByType? then [last.relatingType] else [])
  }

  /** The `k`-th related definition belongs to the `k`-th
      `IfcRelDefinesByProperties` relationship, so the result follows
      relationship order and has one entry per such relationship. */
  lemma {:induction false} RelatedPropertiesInOrder<V>(e: Element<V>)
    ensures var byProps := Filter(e.isDefinedBy, IsDefinesByProperties);
      && |RelatedProperties(e)| == |byProps| == |Positions(e.isDefinedBy, IsDefinesByProperties)|
      && forall k :: 0 <= k < |byProps| ==> byProps[k] == RelDefinesByProperties(RelatedProperties(e)[k])
    decreases |e.isDefinedBy|
  {
    FilterLength(e.isDefinedBy, IsDefinesByProperties);
    var rels := e.isDefinedBy;
    if |rels| > 0 {
      var n := |rels| - 1;
      RelatedPropertiesInOrder(Prefix(e, n));
      assert rels == rels[..n] + [rels[n]];
      FilterSnoc(rels[..n], rels[n], IsDefinesByProperties);
    }
  }

  /** The `k`-th related type is the `RelatingType` of the `k`-th
      `IfcRelDefinesByType` relationship; there are as many as such
      relationships. */
  lemma {:induction false} RelatedTypeDefinitionInOrder<V>(e: Element<V>)
    ensures var byType := Filter(e.isDefinedBy, IsDefinesByType);
      && |RelatedTypeDefinition(e)| == |byType| == |Positions(e.isDefinedBy, IsDefinesByType)|
      && forall k :: 0 <= k < |byType| ==> byType[k] == RelDefinesByType(RelatedTypeDefinition(e)[k])
    decreases |e.isDefinedBy|
  {
    FilterLength(e.isDefinedBy, IsDefinesByType);
    var rels := e.isDefinedBy;
    if |rels| > 0 {
      var n := |rels| - 1;
      RelatedTypeDefinitionInOrder(Prefix(e, n));
      assert rels == rels[..n] + [rels[n]];
      FilterSnoc(rels[..n], rels[n], IsDefinesByType);
    }
  }

  /** Every related definition comes from one of the element's
      `IfcRelDefinesByProperties` relationships. */
  lemma RelatedPropertiesSound<V>(e: Element<V>)
    ensures forall k :: 0 <= k < |RelatedProperties(e)| ==>
              RelDefinesByProperties(RelatedProperties(e)[k]) in e.isDefinedBy
  {
    RelatedPropertiesInOrder(e);
    FilterMembers(e.isDefinedBy, IsDefinesByProperties);
  }

  /** Every related type comes from one of the element's
      `IfcRelDefinesByType` relationships. */
  lemma RelatedTypeDefinitionSound<V>(e: Element<V>)
    ensures forall k :: 0 <= k < |RelatedTypeDefinition(e)| ==>
              RelDefinesByType(RelatedTypeDefinition(e)[k]) in e.isDefinedBy
  {
    RelatedTypeDefinitionInOrder(e);
    FilterMembers(e.isDefinedBy, IsDefinesByType);
  }

  /** One more relationship at the end. */
  lemma RelatedPropertiesSnoc<V>(e: Element<V>, n: nat)
    requires n < |e.isDefinedBy|
    ensures RelatedProperties(Prefix(e, n + 1)) == RelatedProperties(Prefix(e, n))
      + (if e.isDefinedBy[n].RelDefinesByProperties? then [e.isDefinedBy[n].relatingPropertyDefinition] else [])
  {
    assert e.isDefinedBy[..n + 1][..n] == e.isDefinedBy[..n];
  }

  /** One more relationship at the end, seen through a target test `p`. */
  lemma RelatedFilterSnoc<V>(e: Element<V>, n: nat, p: PropertyDefinition<V> -> bool)
    requires n < |e.isDefinedBy|
    ensures var x := e.isDefinedBy[n];
      Filter(RelatedProperties(Prefix(e, n + 1)), p) == Filter(RelatedProperties(Prefix(e, n)), p)
        + (if x.RelDefinesByProperties? && p(x.relatingPropertyDefinition) then [x.relatingPropertyDefinition] else [])
  {
    var x := e.isDefinedBy[n];
    var before, after := RelatedProperties(Prefix(e, n)), RelatedProperties(Prefix(e, n + 1));
    RelatedPropertiesSnoc(e, n);
    if x.RelDefinesByProperties? {
      assert after == before + [x.relatingPropertyDefinition];
      FilterSnoc(before, x.relatingPropertyDefinition, p);
    } else {
      assert after == before;
    }
  }

  /** What `get_related_property_sets` returns: the related definitions that
      are property sets, in order. */
  function PropertySetsOf<V>(e: Element<V>): seq<PropertySetDef<V>>
  {
    Filter(RelatedProperties(e), IsPropertySet)
  }

  /** What `get_related_quantities` returns: the related definitions that
      are element quantities, in order. */
  function QuantitySetsOf<V>(e: Element<V>): seq<QuantitySetDef<V>>
  {
    Filter(RelatedProperties(e), IsElementQuantity)
  }

  /** One more relationship at the end adds its target if that is a property set. */
  lemma PropertySetsOfSnoc<V>(e: Element<V>, n: nat)
    requires n < |e.isDefinedBy|
    ensures var x := e.isDefinedBy[n];
      PropertySetsOf(Prefix(e, n + 1)) == PropertySetsOf(Prefix(e, n))
        + (if x.RelDefinesByProperties? && x.relatingPropertyDefinition.PropertySet? then [x.relatingPropertyDefinition] else [])
  {
    RelatedFilterSnoc(e, n, IsPropertySet);
  }

  /** One more relationship at the end adds its target if that is an element quantity. */
  lemma QuantitySetsOfSnoc<V>(e: Element<V>, n: nat)
    requires n < |e.isDefinedBy|
    ensures var x := e.isDefinedBy[n];
      QuantitySetsOf(Prefix(e, n + 1)) == QuantitySetsOf(Prefix(e, n))
        + (if x.RelDefinesByProperties? && x.relatingPropertyDefinition.ElementQuantity? then [x.relatingPropertyDefinition] else [])
  {
    RelatedFilterSnoc(e, n, IsElementQuantity);
  }

  /** `get_related_property_sets`. */
  method GetRelatedPropertySets<V>(e: Element<V>) returns (propertiesList: seq<PropertySetDef<V>>)
    ensures propertiesList == PropertySetsOf(e)
  {
    propertiesList := [];
    for i := 0 to |e.isDefinedBy|
      invariant propertiesList == PropertySetsOf(Prefix(e, i))
    {
      var x := e.isDefinedBy[i];
      PropertySetsOfSnoc(e, i);
      if x.RelDefinesByProperties? {
        var d := x.relatingPropertyDefinition;
        if d.PropertySet? {
          propertiesList := propertiesList + [d];
        }
      }
    }
    assert e.isDefinedBy[..|e.isDefinedBy|] == e.isDefinedBy;
  }

  /** `get_related_quantities`. */
  method GetRelatedQuantities<V>(e: Element<V>) returns (quantitiesList: seq<QuantitySetDef<V>>)
    ensures quantitiesList == QuantitySetsOf(e)
  {
    quantitiesList := [];
    for i := 0 to |e.isDefinedBy|
      invariant quantitiesList == QuantitySetsOf(Prefix(e, i))
    {
      var x := e.isDefinedBy[i];
      QuantitySetsOfSnoc(e, i);
      if x.RelDefinesByProperties? {
        var d := x.relatingPropertyDefinition;
        if d.ElementQuantity? {
          quantitiesList := quantitiesList + [d];
        }
      }
    }
    assert e.isDefinedBy[..|e.isDefinedBy|] == e.isDefinedBy;
  }

  /** The property sets of an element are exactly the property-set targets
      of its `IfcRelDefinesByProperties` relationships, in the order of
      `get_related_properties`; quantity sets and type relationships are
      left out, and an element without relationships has none. */
  lemma PropertySetsExactly<V>(e: Element<V>)
    ensures forall i :: 0 <= i < |PropertySetsOf(e)| ==>
              RelDefinesByProperties(PropertySetsOf(e)[i]) in e.isDefinedBy
    ensures forall i :: 0 <= i < |e.isDefinedBy| && IsDefinesByProperties(e.isDefinedBy[i])
              && IsPropertySet(e.isDefinedBy[i].relatingPropertyDefinition)
              ==> e.isDefinedBy[i].relatingPropertyDefinition in PropertySetsOf(e)
    ensures IsSubsequence(PropertySetsOf(e), RelatedProperties(e))
    ensures |e.isDefinedBy| == 0 ==> PropertySetsOf(e) == []
  {
    PropertySetsFrom(e, IsPropertySet);
  }

  /** The same for element quantities. */
  lemma QuantitySetsExactly<V>(e: Element<V>)
    ensures forall i :: 0 <= i < |QuantitySetsOf(e)| ==>
              RelDefinesByProperties(QuantitySetsOf(e)[i]) in e.isDefinedBy
    ensures forall i :: 0 <= i < |e.isDefinedBy| && IsDefinesByProperties(e.isDefinedBy[i])
              && IsElementQuantity(e.isDefinedBy[i].relatingPropertyDefinition)
              ==> e.isDefinedBy[i].relatingPropertyDefinition in QuantitySetsOf(e)
    ensures IsSubsequence(QuantitySetsOf(e), RelatedProperties(e))
    ensures |e.isDefinedBy| == 0 ==> QuantitySetsOf(e) == []
  {
    PropertySetsFrom(e, IsElementQuantity);
  }

  /** Every `IfcRelDefinesByProperties` target is among the related properties. */
  lemma RelatedPropertiesComplete<V>(e: Element<V>, i: int)
    requires 0 <= i < |e.isDefinedBy| && IsDefinesByProperties(e.isDefinedBy[i])
    ensures e.isDefinedBy[i].relatingPropertyDefinition in RelatedProperties(e)
  {
    var byProps := Filter(e.isDefinedBy, IsDefinesByProperties);
    RelatedPropertiesInOrder(e);
    FilterMembers(e.isDefinedBy, IsDefinesByProperties);
    var k :| 0 <= k < |byProps| && byProps[k] == e.isDefinedBy[i];
    assert RelatedProperties(e)[k] == e.isDefinedBy[i].relatingPropertyDefinition;
  }

  /** The shared proof of the two lemmas above, for either target test `p`. */
  lemma PropertySetsFrom<V>(e: Element<V>, p: PropertyDefinition<V> -> bool)
    ensures forall i :: 0 <= i < |Filter(RelatedProperties(e), p)| ==>
              RelDefinesByProperties(Filter(RelatedProperties(e), p)[i]) in e.isDefinedBy
    ensures forall i :: 0 <= i < |e.isDefinedBy| && IsDefinesByProperties(e.isDefinedBy[i])
              && p(e.isDefinedBy[i].relatingPropertyDefinition)
              ==> e.isDefinedBy[i].relatingPropertyDefinition in Filter(RelatedProperties(e), p)
    ensures IsSubsequence(Filter(RelatedProperties(e), p), RelatedProperties(e))
    ensures |e.isDefinedBy| == 0 ==> Filter(RelatedProperties(e), p) == []
  {
    var all := RelatedProperties(e);
    RelatedPropertiesSound(e);
    FilterIsSubsequence(all, p);
    FilterMembers(all, p);
    forall i | 0 <= i < |e.isDefinedBy| && IsDefinesByProperties(e.isDefinedBy[i])
        && p(e.isDefinedBy[i].relatingPropertyDefinition)
      ensures e.isDefinedBy[i].relatingPropertyDefinition in Filter(all, p)
    {
      RelatedPropertiesComplete(e, i);
      var j :| 0 <= j < |all| && all[j] == e.isDefinedBy[i].relatingPropertyDefinition;
    }
  }
}
