/** The part of the IFC (Industry Foundation Classes) object model that the
    property extractor reads, as closed datatypes: one constructor per IFC
    class the extractor tests with `is_a`, and one more for every other class.
    Values carried by properties and quantities are an opaque type `V`: the
    extractor only passes them through. */
module IfcModel {
  import opened Wrappers

  /** An `IfcLabel` or `IfcIdentifier` attribute, which may be unset (`None`). */
  type Name = Option<string>

  /** The key of a flattened property or quantity: (set name, record name). */
  type PairKey = (Name, Name)

  /** `IfcPropertySingleValue`. `nominalValue` is `NominalValue`; `Some(v)`
      stands for a present value wrapper whose `wrappedValue` is `v`. */
  datatype SingleValue<V> = SingleValue(name: Name, nominalValue: Option<V>)

  /** The entries of a property set's `HasProperties`. */
  datatype Property<V> =
    | PropertySingleValue(single: SingleValue<V>)
      /** `IfcComplexProperty`; its own `HasProperties` hold single values. */
    | ComplexProperty(name: Name, hasProperties: seq<SingleValue<V>>)
      /** Enumerated, bounded, table, list and reference values. */
    | OtherProperty(name: Name)

  /** The entries of an element quantity's `Quantities`, each with the one
      value attribute of its class (which may be unset). */
  datatype Quantity<V> =
    | QuantityArea(name: Name, areaValue: Option<V>)
    | QuantityLength(name: Name, lengthValue: Option<V>)
    | QuantityVolume(name: Name, volumeValue: Option<V>)
    | QuantityCount(name: Name, countValue: Option<V>)
    | QuantityWeight(name: Name, weightValue: Option<V>)
      /** Any other quantity class (time, complex physical quantity, ...). */
    | OtherQuantity(name: Name)

  /** `IfcPropertySetDefinition` and the subclasses the extractor tests. */
  datatype PropertyDefinition<V> =
    | PropertySet(name: Name, hasProperties: seq<Property<V>>)
    | ElementQuantity(name: Name, quantities: seq<Quantity<V>>)
    | OtherDefinition(name: Name)

  /** A definition that passed `is_a("IfcPropertySet")`. */
  type PropertySetDef<V> = d: PropertyDefinition<V> | d.PropertySet? witness PropertySet(None, [])

  /** A definition that passed `is_a("IfcElementQuantity")`. */
  type QuantitySetDef<V> = d: PropertyDefinition<V> | d.ElementQuantity? witness ElementQuantity(None, [])

  /** An element type such as `IfcWallType`; an unset `HasPropertySets` is
      the empty sequence (Python treats both as false). */
  datatype ElementType<V> = ElementType(name: Name, hasPropertySets: seq<PropertyDefinition<V>>)

  /** The relationships an element is the object of (`IsDefinedBy`). */
  datatype Rel<V> =
    | RelDefinesByProperties(relatingPropertyDefinition: PropertyDefinition<V>)
    | RelDefinesByType(relatingType: ElementType<V>)
    | OtherRel

  /** A building element, seen through its `IsDefinedBy` relationships. */
  datatype Element<V> = Element(isDefinedBy: seq<Rel<V>>)

  predicate IsDefinesByProperties<V>(r: Rel<V>) { r.RelDefinesByProperties? }

  predicate IsDefinesByType<V>(r: Rel<V>) { r.RelDefinesByType? }

  predicate IsPropertySet<V>(d: PropertyDefinition<V>) { d.PropertySet? }

  predicate IsElementQuantity<V>(d: PropertyDefinition<V>) { d.ElementQuantity? }

  /** The element with only its first `n` relationships. */
  function Prefix<V>(e: Element<V>, n: nat): Element<V>
    requires n <= |e.isDefinedBy|
  {
    Element(e.isDefinedBy[..n])
  }
}
