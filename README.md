# IFC property extractor, modelled in Dafny

`psets.py` reads the property data of one IFC (Industry Foundation Classes)
building element. It works through the element's `IsDefinedBy`
relationships and flattens what they reach into plain dictionaries. This
project models that extractor and proves what it returns. It has three
layers:

- **Relation filters** list what an element's relationships lead to:
  - every relating property definition;
  - every relating element type;
  - the property sets only;
  - the element quantities only.
- **Flatteners** turn one container into a map:
  - a property set becomes a map from (set name, property name) to the
    wrapped nominal value, including the values nested in complex
    properties;
  - an element quantity becomes a map from (set name, quantity name) to the
    value attribute of the quantity's class, with no check for an absent
    value;
  - an element type becomes a map from `"TypeDefinition_" + type name` to
    the name of its last named property set.
- **Aggregators** start from an empty dictionary and `update` it with the
  flattened map of every related container, in relationship order, so the
  last write wins. `get_all_instance_data` does this for property sets,
  then quantities, then types, all on one dictionary.

The IFC classes the extractor tests with `is_a` are closed datatypes
(`ifc_model.dfy`). Every other IFC class becomes one catch-all constructor
per position. Names are `Option<string>`, because an IFC label may be unset.
Property and quantity values are an opaque type parameter `V`: the extractor
only passes them through.

Python's `d.update(m)` is the map union `d + m`, where the keys of `m` win.
A loop of updates is therefore specified by `Dicts.MergeAll`, a left fold of
`+` over the per-record maps. Each loop of the source is a Dafny method
proved equal to such a fold (or to `Seqs.Filter` for the list builders).
The one exception is the set comprehension of `get_type_single_value`:
`Flatteners.GetTypeSingleValue` is proved equal to the closed form
`Flatteners.TypeMap`, because the loop may stop early on a raise. The
folds' properties are then proved as lemmas:
- which keys appear;
- which record's value a key holds (the last writer);
- which inputs contribute nothing.

Files:
- `wrappers.dfy`: `Option`.
- `seqs.dfy`: `Filter`, subsequences, counting.
- `dicts.dfy`: `MergeAll` and its lemmas.
- `ifc_model.dfy`: the IFC datatypes.
- `relation_filter.dfy`: the relation filters.
- `flatteners.dfy`: the three flatteners.
- `aggregators.dfy`: the four aggregators.

Points where the code's behaviour is easy to misread:

- With no property sets, `get_type_single_value` only tests
  `if x.HasPropertySets` (psets.py:131). It returns `{}` without raising
  or logging.
- When the type's name is unset, the `except` of `get_type_single_value`
  returns the dictionary as it stands. That dictionary is `{}`, because
  `"TypeDefinition_" + x.Name` raises at the first named set, before any
  update (`Flatteners.GetTypeSingleValue`).
- `get_related_type_definition` returns each relationship's `RelatingType`,
  an element type, as its docstring says ("list of IfcElementType",
  psets.py:57) (`RelationFilter.RelatedTypeDefinition`).
- The docstring of `get_property_single_value` (psets.py:104) shows string
  keys `"(Pset, PropertyName)"` and an `"IfcGlobalId"` entry. The code
  writes tuple keys (set name, property name) and no global id
  (psets.py:111, 115); the model follows the code.

## Model

| member | source | states |
|---|---|---|
| RelationFilter.RelatedProperties | psets.py:46-50 | The related definitions are no more than the relationships. |
| RelationFilter.RelatedPropertiesInOrder | psets.py:46-50 | There is one result per `IfcRelDefinesByProperties` relationship (their count is the number of positions holding one). The k-th result is the relating definition of the k-th such relationship, in `IsDefinedBy` order. |
| RelationFilter.RelatedPropertiesSound | psets.py:47-49 | Every result is the target of an `IfcRelDefinesByProperties` relationship of the element. |
| RelationFilter.RelatedPropertiesComplete | psets.py:47-49 | The target of every `IfcRelDefinesByProperties` relationship is among the results. |
| RelationFilter.RelatedTypeDefinition | psets.py:53-61 | The related types are no more than the relationships. |
| RelationFilter.RelatedTypeDefinitionInOrder | psets.py:59-61 | The length equals the number of `IfcRelDefinesByType` relationships. The k-th type is the `RelatingType` of the k-th such relationship. |
| RelationFilter.RelatedTypeDefinitionSound | psets.py:59-60 | Every related type comes from an `IfcRelDefinesByType` relationship of the element. |
| RelationFilter.GetRelatedPropertySets | psets.py:74-80 | The appending loop returns exactly the related definitions that are `IfcPropertySet`s, in order. |
| RelationFilter.PropertySetsOfSnoc | psets.py:76-79 | One more relationship appends its target exactly when it is an `IfcRelDefinesByProperties` whose target is a property set. |
| RelationFilter.PropertySetsExactly | psets.py:74-80 | Every result is the property-set target of one of the element's relationships, and every such target is in the result. The result is an order-preserving subsequence of `get_related_properties`, so quantity sets and type relationships are excluded. No relationships gives `[]`. |
| RelationFilter.GetRelatedQuantities | psets.py:91-96 | The appending loop returns exactly the related definitions that are `IfcElementQuantity`s, in order. |
| RelationFilter.QuantitySetsOfSnoc | psets.py:92-95 | One more relationship appends its target exactly when it is an `IfcRelDefinesByProperties` whose target is an element quantity. |
| RelationFilter.QuantitySetsExactly | psets.py:91-96 | The same as for property sets: both directions of membership, an order-preserving subsequence of `get_related_properties`, and `[]` without relationships. |
| Flatteners.GetPropertySingleValue | psets.py:107-118 | The update loop returns the fold of the per-record maps over `HasProperties`, in order. |
| Flatteners.UpdateFromNested | psets.py:113-115 | The inner loop over a complex property's records adds the fold of their single-value maps to the dictionary so far. |
| Flatteners.PropertyEntryKeys | psets.py:109-115 | One record writes key (set name, n) exactly when it supplies n. A single value supplies its own name if its value is present. A complex property supplies a nested name whose value is present. Any other record writes nothing. |
| Flatteners.PropertyMapKeys | psets.py:109-115 | Both directions: a key is in the flattened set exactly when its first component is the set's name and some record supplies its second component. |
| Flatteners.PropertyMapSingleValue | psets.py:110-111 | A single value with a present value maps (set name, its name) to that value, unless a later record writes the same key. |
| Flatteners.PropertyMapNestedValue | psets.py:112-115 | A nested value that is present maps (set name, nested name) to that value, unless a later nested or top-level record writes the same key. |
| Flatteners.ComplexNameUnused | psets.py:112-115 | Renaming a complex property leaves the flattened map unchanged, so its own name is never part of a key. |
| Flatteners.GetQuantitySingleValue | psets.py:154-167 | The update loop returns the fold of the per-quantity maps over `Quantities`, in order. |
| Flatteners.QuantityMapKeys | psets.py:155-165 | Both directions: a key is in the map exactly when it is (set name, name of an area, length, volume, count or weight quantity), whether or not the value is set. Other quantity classes add no key. |
| Flatteners.QuantityMapValue | psets.py:155-165 | The value under a key is the class's own value attribute (possibly absent) of the last quantity of those five classes with that name. |
| Flatteners.GetTypeSingleValue | psets.py:130-142 | The loop (a raise on an unset type name ends it, and the `except` leaves the dictionary as it was) returns the closed form `TypeMap`. |
| Flatteners.LastSetNameIsLast | psets.py:133 | The last set name is the name of the last named set. There is none exactly when no set is named. |
| Flatteners.TypeMapShape | psets.py:130-142 | The result is empty exactly when the type's name is unset or no set is named (including when there are no sets). Otherwise it is the one entry `"TypeDefinition_" + type name` mapped to the last named set's name. |
| Aggregators.GetAllQuantityData | psets.py:178-182 | The accumulator loop returns the fold of `get_quantity_single_value` over the related quantities, in order. |
| Aggregators.GetAllTypeData | psets.py:192-196 | The accumulator loop returns the fold of `get_type_single_value` over the related types, in order. |
| Aggregators.GetAllPsetData | psets.py:205-210 | The accumulator loop returns the fold of `get_property_single_value` over the related property sets, in order. |
| Aggregators.PsetDataKeys | psets.py:208-209 | Both directions: a key is in the property data exactly when one related set's map has it, and its first component is that set's name. |
| Aggregators.PsetDataLast | psets.py:208-209 | Last write wins across property sets: a key holds the value of the last related set that writes it. |
| Aggregators.QuantityDataKeys | psets.py:180-181 | Both directions: a key is in the quantity data exactly when one related quantity set's map has it, and its first component is that set's name. |
| Aggregators.QuantityDataLast | psets.py:180-181 | Last write wins across quantity sets. |
| Aggregators.TypeDataKeys | psets.py:194-195 | Both directions: a string is a key of the type data exactly when it is `"TypeDefinition_"` followed by the name of a related type that has a named property set. |
| Aggregators.TypeDataLast | psets.py:194-195 | Two related types with the same name share one key, and the last writer's value wins. |
| Aggregators.UpdateWithPropertySets | psets.py:223-224 | The first comprehension adds every related property set's entries to the shared dictionary, as nominal values under tuple keys. |
| Aggregators.UpdateWithQuantities | psets.py:227-228 | The second comprehension adds every related quantity set's entries, as measures under tuple keys. |
| Aggregators.UpdateWithTypes | psets.py:231-232 | The third comprehension adds every related type's entries, as set names under string keys. |
| Aggregators.GetAllInstanceData | psets.py:220-234 | The combined dictionary is the property data, then the quantity data, then the type data, each later one overriding. |
| Aggregators.InstanceDataEntries | psets.py:220-234 | A tuple key is present exactly when it is in the property or the quantity data. On a shared tuple key the quantity wins, and elsewhere the property value stays. A string key is present exactly when it is in the type data, holds its value, and never meets a tuple key. |
| Aggregators.NoRelationsNoData | psets.py:178-234 | An element without relationships gets four empty dictionaries. |

## Left out

- The IfcOpenShell document model (file parsing, entity ids, the `is_a` subtype hierarchy) is replaced by closed datatypes with one constructor per class the code tests.
- The `print` on the exception path and its `GlobalId` read (psets.py:138) are output only and are not modelled.
- The blanket `except` (psets.py:137) also catches attribute errors on malformed entities, which closed datatypes cannot express. Only the unset-type-name fault is modelled.
- A complex property nested in a complex property would fail at psets.py:114, because nested records are not type-checked. Nested records are single values here.
- Property and quantity values are opaque. Nothing computes on them, so floating point plays no part.
- The pandas and Excel presentation layer is not part of this model.
- `HasPropertySets` may be unset (`None`) in IFC. It is the empty sequence in this model, which behaves the same under `if x.HasPropertySets`.
- The relation filters return the same entity objects in Python. Here they are values, so aliasing between the returned lists and the model is not captured.
- The set that each `{... for x in ...}` comprehension builds from the `None` results of `update` is discarded by the source. It is not modelled.
- Flatteners.UpdateFromNested: the inner loop of `get_property_single_value` is its own method, called on the running dictionary.
- Aggregators.GetAllInstanceData: each of the three comprehensions is its own method (`UpdateWithPropertySets`, `UpdateWithQuantities`, `UpdateWithTypes`), called in turn on the running dictionary.
- Python dictionaries keep insertion order, and an `update` of an existing key keeps that key's first position (psets.py:111, 115, 157-165, 180-232). Dafny's `map` has no order, so the model does not capture key order, which becomes column order in pandas. The extractor itself never reads the order.
- The functions return fresh dictionaries, so calling one twice gives the same result. This holds because Dafny functions are deterministic, so there is no lemma for it.
