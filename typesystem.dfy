/** Data model of the metadata type system as seen by ClassType: identities,
    multiplicities, attribute layouts, the registry of class types, loose and
    typed instances, and the errors conversion can raise. */
module Typesystem {

  type TypeName = string

  datatype Option<T> = None | Some(value: T)

  /** The lifecycle of an identity: unassigned until the persistence layer
      stores the instance and hands out a permanent guid. */
  datatype IdState = Unassigned | Assigned(guid: string)

  /** `persistence.Id`: the owning class name and the assignment state. */
  datatype Id = Id(className: TypeName, state: IdState) {
    predicate IsAssigned() { state.Assigned? }
  }

  /** `new Id(className)`: a fresh, not yet assigned identity. */
  function NewId(className: TypeName): (id: Id)
    ensures id.className == className && !id.IsAssigned()
  {
    Id(className, Unassigned)
  }

  /** Cardinality contract of an attribute; null is allowed exactly when the
      lower bound is zero. */
  datatype Multiplicity = Multiplicity(lower: int, upper: int, isUnique: bool) {
    predicate NullAllowed() { lower == 0 }
  }

  const Required := Multiplicity(1, 1, false)

  datatype TypeCategory = PRIMITIVE | ENUM | ARRAY | MAP | STRUCT | TRAIT | CLASS

  /** One attribute's schema; `category` is the category of its declared type. */
  datatype AttributeInfo = AttributeInfo(
    name: string,
    typeName: TypeName,
    category: TypeCategory,
    multiplicity: Multiplicity,
    isComposite: bool,
    isUnique: bool,
    reverseAttributeName: Option<string>)

  /** The flattened attribute layout: the fields in map order and one slot
      count per storage kind. */
  datatype FieldMapping = FieldMapping(
    fields: seq<(string, AttributeInfo)>,
    numBools: nat, numBytes: nat, numShorts: nat, numInts: nat, numLongs: nat,
    numFloats: nat, numDoubles: nat, numBigDecimals: nat, numBigInts: nat,
    numDates: nat, numStrings: nat, numArrays: nat, numMaps: nat,
    numStructs: nat, numReferenceables: nat)

  /** Field names of a layout are distinct: `fields` is a map in the source. */
  ghost predicate DistinctNames(fields: seq<(string, AttributeInfo)>) {
    forall i, j :: 0 <= i < j < |fields| ==> fields[i].0 != fields[j].0
  }

  /** A registered class type. Only the keys of `superTypePaths` (the names of
      all transitive ancestors) matter here. `infoToNameMap` is absent for a
      type built by the placeholder constructor. */
  datatype ClassDef = ClassDef(
    superTypePaths: set<TypeName>,
    fieldMapping: FieldMapping,
    infoToNameMap: Option<map<AttributeInfo, seq<string>>>)

  /** The registry: class types by name, and the names of the trait types. */
  datatype TypeSystem = TypeSystem(classes: map<TypeName, ClassDef>, traits: set<TypeName>)

  /** Every registered layout names each field once, as its map of fields does. */
  ghost predicate WellFormed(reg: TypeSystem) {
    forall n :: n in reg.classes ==> DistinctNames(reg.classes[n].fieldMapping.fields)
  }

  /** The shapes of value `convert` distinguishes. `Typed` is an
      ITypedReferenceableInstance, `Loose` a Struct that is not a Referenceable,
      `LooseRef` a Referenceable, `Stored` a ReferenceableInstance that the
      typed-instance test does not catch, `Other` anything else. */
  datatype Value =
    | Null
    | Typed(inst: ReferenceableInstance)
    | Loose(s: Struct)
    | LooseRef(r: Referenceable)
    | Stored(stored: ReferenceableInstance)
    | Other(description: string)

  /** A loose attribute bag. */
  datatype Struct = Struct(typeName: TypeName, values: map<string, Value>)

  /** A loose attribute bag with an identity and attached loose traits. */
  datatype Referenceable = Referenceable(
    typeName: TypeName,
    values: map<string, Value>,
    id: Option<Id>,
    traitNames: seq<TypeName>,
    traits: map<TypeName, Struct>)

  /** A typed trait instance. */
  datatype TypedStruct = TypedStruct(typeName: TypeName, values: map<string, Value>)

  /** `traitType.createInstance()`: a trait instance with no attribute set. */
  function DefaultTrait(t: TypeName): (r: TypedStruct)
    ensures r.typeName == t && r.values == map[]
  {
    TypedStruct(t, map[])
  }

  /** What is handed to the typed setter for one attribute: the loose value
      itself, or only the identity of a referenced instance (null when it has
      none). */
  datatype FieldInput = AsGiven(v: Value) | IdOf(id: Option<Id>)

  datatype Error =
    | NullConversion(m: Multiplicity)
    | ValueConversion(target: TypeName, value: Value, cause: Option<Error>)
    | InvalidId(id: Id, target: TypeName)
    | NotReferenceable(value: Value)
    | UnknownType(name: TypeName)
    | ClassCast(value: Value)
    | DuplicateTraitName
    | NullPointer

  /** NullConversionException is a ValueConversionException. */
  predicate IsValueConversion(e: Error) {
    e.ValueConversion? || e.NullConversion?
  }

  datatype Result<T> = Ok(value: T) | Err(error: Error)

  /** The typed setter `tr.set(attrName, value)` of an instance of the given
      type: None when it accepts the value, the exception it raises otherwise. */
  type Setter = (TypeName, string, FieldInput) -> Option<Error>

  /** `TraitType.convert(value, multiplicity)` for the named trait type. */
  type TraitConverter = (TypeName, Struct, Multiplicity) -> Result<TypedStruct>

  /** A slot array that is null when its count is zero and otherwise has
      exactly that length. */
  ghost predicate Sized<T>(a: array?<T>, n: nat) {
    if n == 0 then a == null else a != null && a.Length == n
  }

  /** The abstract content of a newly built instance. */
  datatype Built = Built(id: Id, traits: map<TypeName, TypedStruct>, attrs: map<string, FieldInput>)

  /** `persistence.ReferenceableInstance`: a typed instance bound to a field
      mapping, with one positional slot array per storage kind. `attrs` is the
      abstract view of what the typed setter has stored in the slots. */
  class ReferenceableInstance {
    const id: Id
    const typeName: TypeName
    const fieldMapping: FieldMapping
    const nullFlags: array<bool>
    const bools: array?<bool>
    const bytes: array?<int>
    const shorts: array?<int>
    const ints: array?<int>
    const longs: array?<int>
    const floats: array?<real>
    const doubles: array?<real>
    const bigDecimals: array?<real>
    const bigIntegers: array?<int>
    const dates: array?<int>
    const strings: array?<string>
    const arrays: array?<seq<Value>>
    const maps: array?<seq<(Value, Value)>>
    const structs: array?<Option<TypedStruct>>
    const referenceables: array?<ReferenceableInstance?>
    const ids: array?<Option<Id>>
    const traits: map<TypeName, TypedStruct>
    var attrs: map<string, FieldInput>

    /** Every slot array is sized from the field mapping. */
    ghost predicate SlotsSized() {
      var fm := fieldMapping;
      nullFlags.Length == |fm.fields| &&
      Sized(bools, fm.numBools) && Sized(bytes, fm.numBytes) &&
      Sized(shorts, fm.numShorts) && Sized(ints, fm.numInts) &&
      Sized(longs, fm.numLongs) && Sized(floats, fm.numFloats) &&
      Sized(doubles, fm.numDoubles) && Sized(bigDecimals, fm.numBigDecimals) &&
      Sized(bigIntegers, fm.numBigInts) && Sized(dates, fm.numDates) &&
      Sized(strings, fm.numStrings) && Sized(arrays, fm.numArrays) &&
      Sized(maps, fm.numMaps) && Sized(structs, fm.numStructs) &&
      Sized(referenceables, fm.numReferenceables) && Sized(ids, fm.numReferenceables)
    }

    /** The instance is of type `t` over layout `fm` and holds `b`. */
    ghost predicate Holds(t: TypeName, fm: FieldMapping, b: Built)
      reads this
    {
      typeName == t && fieldMapping == fm && id == b.id && traits == b.traits && attrs == b.attrs
    }

    constructor (id: Id, typeName: TypeName, fieldMapping: FieldMapping,
                 nullFlags: array<bool>, bools: array?<bool>, bytes: array?<int>,
                 shorts: array?<int>, ints: array?<int>, longs: array?<int>,
                 floats: array?<real>, doubles: array?<real>, bigDecimals: array?<real>,
                 bigIntegers: array?<int>, dates: array?<int>, strings: array?<string>,
                 arrays: array?<seq<Value>>, maps: array?<seq<(Value, Value)>>,
                 structs: array?<Option<TypedStruct>>,
                 referenceables: array?<ReferenceableInstance?>, ids: array?<Option<Id>>,
                 traits: map<TypeName, TypedStruct>)
      ensures this.id == id && this.typeName == typeName && this.fieldMapping == fieldMapping
      ensures this.nullFlags == nullFlags && this.bools == bools && this.bytes == bytes
      ensures this.shorts == shorts && this.ints == ints && this.longs == longs
      ensures this.floats == floats && this.doubles == doubles && this.bigDecimals == bigDecimals
      ensures this.bigIntegers == bigIntegers && this.dates == dates && this.strings == strings
      ensures this.arrays == arrays && this.maps == maps && this.structs == structs
      ensures this.referenceables == referenceables && this.ids == ids
      ensures this.traits == traits && this.attrs == map[]
    {
      this.id := id;
      this.typeName := typeName;
      this.fieldMapping := fieldMapping;
      this.nullFlags := nullFlags;
      this.bools := bools;
      this.bytes := bytes;
      this.shorts := shorts;
      this.ints := ints;
      this.longs := longs;
      this.floats := floats;
      this.doubles := doubles;
      this.bigDecimals := bigDecimals;
      this.bigIntegers := bigIntegers;
      this.dates := dates;
      this.strings := strings;
      this.arrays := arrays;
      this.maps := maps;
      this.structs := structs;
      this.referenceables := referenceables;
      this.ids := ids;
      this.traits := traits;
      this.attrs := map[];
    }

    /** `set(attrName, value)`: the setter either accepts the value, which the
        instance then holds for that attribute, or raises and nothing changes. */
    method Set(key: string, v: FieldInput, setter: Setter) returns (e: Option<Error>)
      modifies this
      ensures e == setter(typeName, key, v)
      ensures attrs == if e.None? then old(attrs)[key := v] else old(attrs)
    {
      e := setter(typeName, key, v);
      if e.None? {
        attrs := attrs[key := v];
      }
    }
  }
}
