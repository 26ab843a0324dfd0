# ClassType conversion and instance creation, in Dafny

This project models `ClassType`, the class-type handle of the Atlas metadata type system. It covers two jobs:

- **`convert(val, m)`** turns a value into a typed `ReferenceableInstance`. The value can be null, an already typed instance, a loose `Struct` or `Referenceable`, a stored `ReferenceableInstance`, or anything else.
- **`createInstance*`** builds a fresh typed instance: its identity, its map of attached traits, and its positional slot arrays sized from the type's `FieldMapping`.

Files:

- `typesystem.dfy` (module `Typesystem`) holds the data model. It has `Id` with its unassigned/assigned state, `Multiplicity`, `AttributeInfo`, `FieldMapping` (fields in map order plus one slot count per storage kind), the registry `TypeSystem` (class types by name, each with the keys of its `superTypePaths`, its field mapping and its `infoToNameMap`; and the trait type names), the input shapes `Value`, the error kinds, and the class `ReferenceableInstance`. That class has constant identity, type name, field mapping, slot arrays and trait map. Its `attrs` field is the one thing the typed setter changes.
- `class_type_spec.dfy` (module `ClassTypeSpec`) says what the operations compute, as functions:
  - `Resolve` is the branch table of `convert`, in the source's order;
  - `ConvertOutcome` is `convert` with its one delegation followed;
  - `ApplyFields` is the field loop;
  - `Traits` is the trait map;
  - `NewInstance` and `ConstructSpec` describe the new instance.
- `class_type_lemmas.dfy` (module `ClassTypeLemmas`) proves the properties of those functions.
- `class_type.dfy` (module `ClassType`) holds the imperative operations: the trait loop, the allocation of slot arrays, the field loop that mutates the new instance through its setter, and the recursive `convert`. Each is proved against the functions above.

Collaborators whose code is not part of this model are parameters:

- the typed setter `tr.set` is a `Setter`, which returns the exception it raises, or none;
- `TraitType.convert` is a `TraitConverter`;
- the registry lookups `typeSystem.getDataType` are map lookups that fail with an unknown-type error.

`isSubType(x)` is taken to mean "`x` is a registered class that is this type or has it among its `superTypePaths`". That is the sense in which `validateId` uses it: an identity is valid for a class when its owner is that class or a subtype of it.

`FieldMapping.fields` is a Java map, so a layout never names a field twice. The model keeps fields as a sequence in map order, because the order decides which failure the field loop reports. It therefore carries that fact as the registry invariant `WellFormed`, which `convert` and the struct branch require.

Facts of the code that a reader might expect otherwise:

- **Direction of `isSubType`.** `convert` hands a value over only when this type is among the ancestors of the value's type (lines 98 and 114). `validateId` accepts an Id whose owner passes `isSubType` (line 71). The model reads both as "the owner is this type or one of its subtypes". It does not read them as "the owner is one of this type's ancestors".
- **No check of a supplied `Id` in the struct branch.** When a Referenceable carries its own `Id`, the struct branch copies it into the new instance (lines 120-127). It never calls `validateId` on it. `SuppliedIdNotValidated` exhibits a Referenceable whose foreign `Id` ends up in the new instance, although `validateId` rejects that `Id`.
- **Composite attributes.** The field loop hands the value of a composite class-typed attribute to the setter unchanged (lines 139-145). Any conversion of it happens inside the setter, which is not part of this model.
- **Repeated trait names.** The trait map is built with an `ImmutableBiMap.Builder`, whose `build()` refuses a repeated key. A repeated trait name therefore fails (`DuplicateTraitName`) rather than overwriting, and it fails only after every requested trait has been resolved and converted.

## Model

| member | source | states |
|---|---|---|
| Typesystem.NewId | Atlas/typesystem/src/main/java/org/apache/hadoop/metadata/typesystem/types/ClassType.java:196 | a fresh identity is owned by the given class and is not yet assigned |
| Typesystem.DefaultTrait | Atlas/typesystem/src/main/java/org/apache/hadoop/metadata/typesystem/types/ClassType.java:190 | a trait created fresh is of the requested trait type and has no attribute set |
| Typesystem.ReferenceableInstance.constructor | Atlas/typesystem/src/main/java/org/apache/hadoop/metadata/typesystem/types/ClassType.java:196-218 | the instance keeps exactly the identity, type name, field mapping, slot arrays and trait map it is given, and starts with no attribute set |
| Typesystem.ReferenceableInstance.Set | Atlas/typesystem/src/main/java/org/apache/hadoop/metadata/typesystem/types/ClassType.java:145 | the setter either accepts the value, and the instance then holds it for that attribute, or raises, and the instance is unchanged |
| ClassTypeSpec.IsSubType | Atlas/typesystem/src/main/java/org/apache/hadoop/metadata/typesystem/types/ClassType.java:71 | only a registered class passes; a registered class passes for itself; another class passes exactly when it has this type among its ancestors |
| ClassTypeSpec.ValidateId | Atlas/typesystem/src/main/java/org/apache/hadoop/metadata/typesystem/types/ClassType.java:68-77 | a null Id passes; otherwise it passes exactly when its owner is this type or a subtype; an unregistered owner fails with an unknown-type error and an unrelated one with an invalid-identity error |
| ClassTypeSpec.GetId | Atlas/typesystem/src/main/java/org/apache/hadoop/metadata/typesystem/types/ClassType.java:79-84 | succeeds exactly for a Referenceable, giving its (possibly null) Id; null fails with a null-pointer error, because building the message asks it for its class (line 83); any other value fails with the "cannot get id" error |
| ClassTypeSpec.GetNames | Atlas/typesystem/src/main/java/org/apache/hadoop/metadata/typesystem/types/ClassType.java:227-230 | looks the attribute up in `infoToNameMap`; fails with a null-pointer error for a type built by the placeholder constructor, which has no map (line 53) |
| ClassTypeSpec.Delegation | Atlas/typesystem/src/main/java/org/apache/hadoop/metadata/typesystem/types/ClassType.java:97-101 | a value naming another type is handed to that type exactly when it is a registered subtype; an unregistered name fails with unknown-type, an unrelated one with a conversion error |
| ClassTypeSpec.Resolve | Atlas/typesystem/src/main/java/org/apache/hadoop/metadata/typesystem/types/ClassType.java:87-163 | null gives null exactly when the multiplicity allows it, else a null-conversion error; a typed instance of this type is returned; a typed instance or loose value of another type is handed over exactly when that type is a registered subtype, else unknown-type or conversion error; a loose value of this type is built; a stored instance is returned exactly when its Id passes `validateId`; anything else is a conversion error |
| ClassTypeSpec.Lookup | Atlas/typesystem/src/main/java/org/apache/hadoop/metadata/typesystem/types/ClassType.java:136 | an attribute missing from the loose bag reads as null, a present one as its value |
| ClassTypeSpec.ReferenceId | Atlas/typesystem/src/main/java/org/apache/hadoop/metadata/typesystem/types/ClassType.java:140 | the Id returned by a value the cast to IReferenceableInstance accepts (`IsReferenceable`): always present for a typed or stored instance, the Referenceable's own (possibly null) Id otherwise |
| ClassTypeSpec.FieldInputFor | Atlas/typesystem/src/main/java/org/apache/hadoop/metadata/typesystem/types/ClassType.java:136-142 | a non-null value of a class-typed, non-composite attribute is replaced by its Id, and the cast fails for a value without one; every other value is passed as given |
| ClassTypeSpec.Wrap | Atlas/typesystem/src/main/java/org/apache/hadoop/metadata/typesystem/types/ClassType.java:144-148 | a conversion failure of the setter is re-raised wrapped with this type and the value; other failures pass through unwrapped |
| ClassTypeSpec.ApplyFields | Atlas/typesystem/src/main/java/org/apache/hadoop/metadata/typesystem/types/ClassType.java:133-149 | after a successful field loop every field of the mapping has a value (exactly those fields, and each one's value: the lemmas below) |
| ClassTypeSpec.TraitObject | Atlas/typesystem/src/main/java/org/apache/hadoop/metadata/typesystem/types/ClassType.java:189 | the caller's copy of a trait exists exactly when there is a Referenceable that carries that trait, and is that copy |
| ClassTypeSpec.TraitFor | Atlas/typesystem/src/main/java/org/apache/hadoop/metadata/typesystem/types/ClassType.java:188-191 | an unresolvable trait name fails; the caller's copy of the trait is converted with REQUIRED; without a copy a default trait is created |
| ClassTypeSpec.TraitEntries | Atlas/typesystem/src/main/java/org/apache/hadoop/metadata/typesystem/types/ClassType.java:186-193 | when filled, the builder has one entry per requested name (which entry is which: `TraitEntriesShape`) |
| ClassTypeSpec.MapOf | Atlas/typesystem/src/main/java/org/apache/hadoop/metadata/typesystem/types/ClassType.java:184-185 | the builder's map has exactly the keys put into it, and the last put value for the last key |
| ClassTypeSpec.Traits | Atlas/typesystem/src/main/java/org/apache/hadoop/metadata/typesystem/types/ClassType.java:184-194 | a null list of trait names gives the empty trait map |
| ClassTypeSpec.InstanceId | Atlas/typesystem/src/main/java/org/apache/hadoop/metadata/typesystem/types/ClassType.java:196 | the new instance uses the supplied Id, or a fresh unassigned Id of this type when it is null |
| ClassTypeSpec.NewInstance | Atlas/typesystem/src/main/java/org/apache/hadoop/metadata/typesystem/types/ClassType.java:180-219 | a new instance exists exactly when its trait map does, and otherwise fails with the trait map's error; it holds the supplied or fresh Id, the trait map and no attribute |
| ClassTypeSpec.ConstructSpec | Atlas/typesystem/src/main/java/org/apache/hadoop/metadata/typesystem/types/ClassType.java:119-151 | in the struct branch, a trait failure is the result; a built instance has the Referenceable's or a fresh Id and the trait map; with an assigned Id it holds no attribute, otherwise a value for every field of the mapping |
| ClassTypeSpec.ConvertOutcome | Atlas/typesystem/src/main/java/org/apache/hadoop/metadata/typesystem/types/ClassType.java:97-117 | an instance that conversion builds is always of a registered subtype of this type, namely the type the value names |
| ClassTypeLemmas.TraitEntriesShape | Atlas/typesystem/src/main/java/org/apache/hadoop/metadata/typesystem/types/ClassType.java:186-193 | the builder gets one entry per requested name, in order, each the trait for that name; it is filled exactly when every name yields a trait |
| ClassTypeLemmas.TraitsMap | Atlas/typesystem/src/main/java/org/apache/hadoop/metadata/typesystem/types/ClassType.java:184-194 | the trait map exists exactly when every name resolves, every conversion succeeds and no name repeats; its keys are exactly the requested names, each bound to that name's converted or default trait |
| ClassTypeLemmas.UnresolvableTraitAborts | Atlas/typesystem/src/main/java/org/apache/hadoop/metadata/typesystem/types/ClassType.java:188 | a requested trait name with no trait type aborts the whole call |
| ClassTypeLemmas.ApplyFieldsPrefix | Atlas/typesystem/src/main/java/org/apache/hadoop/metadata/typesystem/types/ClassType.java:133-149 | once a field fails, the loop ends with that failure |
| ClassTypeLemmas.ApplyFieldsOk | Atlas/typesystem/src/main/java/org/apache/hadoop/metadata/typesystem/types/ClassType.java:133-149 | the field loop succeeds exactly when the copy of every field of the mapping succeeds |
| ClassTypeLemmas.ApplyFieldsKeys | Atlas/typesystem/src/main/java/org/apache/hadoop/metadata/typesystem/types/ClassType.java:133-149 | after the loop the instance holds a value for exactly the fields of the mapping |
| ClassTypeLemmas.ApplyFieldsValues | Atlas/typesystem/src/main/java/org/apache/hadoop/metadata/typesystem/types/ClassType.java:133-149 | each field is visited once and holds what its copy handed to the setter (field names are distinct, as in a Java map) |
| ClassTypeLemmas.ApplyFieldsFirstError | Atlas/typesystem/src/main/java/org/apache/hadoop/metadata/typesystem/types/ClassType.java:133-149 | a failing loop fails with the error of the first failing field, every earlier field having succeeded |
| ClassTypeLemmas.FieldStepMeaning | Atlas/typesystem/src/main/java/org/apache/hadoop/metadata/typesystem/types/ClassType.java:134-148 | one field's copy (`FieldStep`) passes the Id for a non-composite reference and the value itself otherwise, and a cast failure or a (wrapped) setter failure ends it |
| ClassTypeLemmas.DelegatesAtMostOnce | Atlas/typesystem/src/main/java/org/apache/hadoop/metadata/typesystem/types/ClassType.java:97-99 | the type a value is handed to never hands it on again |
| ClassTypeLemmas.NullInput | Atlas/typesystem/src/main/java/org/apache/hadoop/metadata/typesystem/types/ClassType.java:159-162 | null converts to null exactly when the multiplicity allows null, else fails with a null-conversion error |
| ClassTypeLemmas.TypedInstanceInput | Atlas/typesystem/src/main/java/org/apache/hadoop/metadata/typesystem/types/ClassType.java:91-103 | a typed instance is returned unchanged (directly or through its own type) exactly when its type is this type or a subtype; an unregistered type fails with unknown-type, an unrelated one with a conversion error |
| ClassTypeLemmas.LooseInput | Atlas/typesystem/src/main/java/org/apache/hadoop/metadata/typesystem/types/ClassType.java:104-118 | a loose value is built into an instance of the type it names when that is this type or a subtype; an unknown or unrelated name fails |
| ClassTypeLemmas.StoredInput | Atlas/typesystem/src/main/java/org/apache/hadoop/metadata/typesystem/types/ClassType.java:152-154 | a stored instance is returned unchanged exactly when its Id is owned by this type or a subtype; otherwise the identity check's error |
| ClassTypeLemmas.OtherInput | Atlas/typesystem/src/main/java/org/apache/hadoop/metadata/typesystem/types/ClassType.java:155-157 | a value of any other shape fails with a conversion error |
| ClassTypeLemmas.AssignedIdShortCircuits | Atlas/typesystem/src/main/java/org/apache/hadoop/metadata/typesystem/types/ClassType.java:120-131 | a Referenceable with an assigned Id gives the new instance with that Id and the Referenceable's traits, and no attribute is set |
| ClassTypeLemmas.ConstructCopiesFields | Atlas/typesystem/src/main/java/org/apache/hadoop/metadata/typesystem/types/ClassType.java:120-151 | without an assigned Id, the instance is built exactly when the traits and every field copy succeed; it then has the supplied or fresh Id, the trait map, and one value per field of the mapping |
| ClassTypeLemmas.FreshIdPassesValidation | Atlas/typesystem/src/main/java/org/apache/hadoop/metadata/typesystem/types/ClassType.java:109-127 | a value without an Id becomes an instance whose fresh Id passes `validateId` of the type `convert` was called on, also after the hand-over to a subtype |
| ClassTypeLemmas.SuppliedIdNotValidated | Atlas/typesystem/src/main/java/org/apache/hadoop/metadata/typesystem/types/ClassType.java:120-131 | a Referenceable of type A with an Id owned by an unrelated B becomes an instance of A with B's Id, which `validateId` of A rejects |
| ClassType.BuildTraits | Atlas/typesystem/src/main/java/org/apache/hadoop/metadata/typesystem/types/ClassType.java:184-194 | the trait loop and the builder produce exactly the trait map of `Traits` (the lemmas above give its keys, entries and failures) |
| ClassType.NewSlots | Atlas/typesystem/src/main/java/org/apache/hadoop/metadata/typesystem/types/ClassType.java:200-217 | a per-kind slot array is null when its count is 0 and otherwise a fresh array of exactly that length |
| ClassType.CreateInstanceWithTraits | Atlas/typesystem/src/main/java/org/apache/hadoop/metadata/typesystem/types/ClassType.java:180-219 | a trait failure leaves no instance; otherwise a fresh instance of this type with the supplied or fresh Id, the trait map and no attribute set; the null-flag array has one slot per field, each per-kind array is sized from its count, and the Id array has the referenceables' size |
| ClassType.CreateInstanceWithId | Atlas/typesystem/src/main/java/org/apache/hadoop/metadata/typesystem/types/ClassType.java:175-178 | as `createInstanceWithTraits` without a Referenceable |
| ClassType.CreateInstanceNamed | Atlas/typesystem/src/main/java/org/apache/hadoop/metadata/typesystem/types/ClassType.java:170-173 | as above, with a fresh unassigned Id of this type |
| ClassType.CreateInstance | Atlas/typesystem/src/main/java/org/apache/hadoop/metadata/typesystem/types/ClassType.java:165-168 | always succeeds: a fresh instance with a fresh Id, no traits, no attribute set and sized slots |
| ClassType.CopyFields | Atlas/typesystem/src/main/java/org/apache/hadoop/metadata/typesystem/types/ClassType.java:133-149 | the loop over the fields, mutating the instance through its setter, ends with exactly the attributes of `ApplyFields`, or with its error |
| ClassType.ConvertStruct | Atlas/typesystem/src/main/java/org/apache/hadoop/metadata/typesystem/types/ClassType.java:119-151 | the struct branch returns a fresh, sized instance holding exactly what `ConstructSpec` describes, or its error |
| ClassType.Convert | Atlas/typesystem/src/main/java/org/apache/hadoop/metadata/typesystem/types/ClassType.java:86-163 | returns what `ConvertOutcome` prescribes: the input, null, or an error unchanged; or, after at most one hand-over, a fresh instance of the value's type holding what the struct branch computes |

## Left out

- `output` (lines 221-225) only forwards to `FieldMapping.output`, which writes to an `Appendable`. That is I/O and not part of this model.
- `getTypeCategory` (lines 63-66) is a constant answer (`CLASS`), and `TRAIT_NAME_SEP` (line 44) is unused here. Neither is modelled.
- The two constructors (lines 51-61) delegate to `HierarchicalType`, which is not part of this model. Their only visible effect here is on `infoToNameMap`: the placeholder form leaves it absent. This is captured by `ClassDef.infoToNameMap` being an `Option` and by `GetNames`. What `TypeUtils.buildAttrInfoToNameMap` puts in the map is not modelled.
- How `superTypePaths` is computed, and what `isSubType` does beyond the membership test above, belong to `HierarchicalType`, which is not part of this model. Only the keys of the path map are kept.
- The typed setter `tr.set` is an abstract parameter. Its conversion of the value, its multiplicity checks and its writes into the positional slots are not modelled. `attrs` records the value handed to it.
- `TraitType.convert` is an abstract parameter. `TraitType.createInstance` is modelled as a trait with no attribute set.
- The slot arrays keep only their lengths. Their element types are simplified: all integer widths become `int`; float, double and BigDecimal become `real`; dates become `int`. No element is ever written.
- Slot counts are natural numbers. A negative count, which would make Java's array allocation throw, is not modelled.
- `Multiplicity.nullAllowed()` is taken to mean "the lower bound is 0". `Multiplicity` is not part of this model.
- `Id` keeps only its owner class and its assigned/unassigned state. The temporary number that Java gives a new unassigned `Id` is not modelled, so two fresh Ids of one class are equal here.
- `Value.Stored` stands for a `ReferenceableInstance` that the typed-instance test at line 91 does not catch. Which Java classes implement which interfaces is decided by files that are not part of this model.
- The Guava `ImmutableBiMap` builder is modelled as a map that refuses repeated keys. Its refusal of repeated values is not modelled, because the trait instances are taken to be distinct objects.
- Four unchecked exceptions are modelled:
  - the failed cast to `IReferenceableInstance` at line 140 (`ClassCast`);
  - the null-pointer failure of `getNames` on a type without `infoToNameMap` (line 229);
  - the null-pointer failure of `getId(null)` (line 83);
  - the builder's refusal of a repeated trait name at line 218 (`DuplicateTraitName`).
  
  All other unchecked exceptions of these lines are not modelled, for example a null element in the trait-name array.
- The authentication servlet filter of the web application is configuration and Kerberos glue and is not part of this model.
