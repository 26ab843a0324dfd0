/** The operations of ClassType: building the trait map, creating a typed
    instance with its slot arrays, and converting a value into a typed
    instance. Each is proved against module ClassTypeSpec. */
module ClassType {
  import opened Typesystem
  import opened ClassTypeSpec
  import opened ClassTypeLemmas

  /** The trait loop of `createInstanceWithTraits`: for each requested name,
      resolve the trait type, convert the caller's copy with REQUIRED or
      create a default one, and put it into the map builder, which refuses a
      repeated name when built. A null name list gives an empty map. */
  method BuildTraits(reg: TypeSystem, r: Option<Referenceable>, traitNames: Option<seq<TypeName>>,
                     tc: TraitConverter) returns (res: Result<map<TypeName, TypedStruct>>)
    ensures res == Traits(reg, r, traitNames, tc)
  {
    if traitNames.None? {
      return Ok(map[]);
    }
    var names := traitNames.value;
    var b: map<TypeName, TypedStruct> := map[];
    var duplicate := false;
    ghost var es: seq<(TypeName, TypedStruct)> := [];
    var i := 0;
    while i < |names|
      invariant 0 <= i <= |names|
      invariant TraitEntries(reg, r, names[..i], tc) == Ok(es)
      invariant b == MapOf(es)
      invariant duplicate == !DistinctKeys(es)
    {
      var t := names[i];
      TraitEntriesStep(reg, r, names, i, es, tc);
      if t !in reg.traits {
        TraitEntriesPrefix(reg, r, names, i + 1, tc);
        return Err(UnknownType(t));
      }
      var tr: TypedStruct;
      if r.None? || t !in r.value.traits {
        tr := DefaultTrait(t);
      } else {
        var converted := tc(t, r.value.traits[t], Required);
        if converted.Err? {
          TraitEntriesPrefix(reg, r, names, i + 1, tc);
          return Err(converted.error);
        }
        tr := converted.value;
      }
      assert TraitFor(reg, r, t, tc) == Ok(tr);
      DistinctKeysSnoc(es, (t, tr));
      assert (es + [(t, tr)])[..|es|] == es;
      duplicate := duplicate || t in b;
      b := b[t := tr];
      es := es + [(t, tr)];
      i := i + 1;
    }
    assert names[..i] == names;
    if duplicate {
      return Err(DuplicateTraitName);
    }
    return Ok(b);
  }

  /** A slot array of `n` elements, or null when `n` is zero. */
  method NewSlots<T(0)>(n: nat) returns (a: array?<T>)
    ensures Sized(a, n)
    ensures a != null ==> fresh(a)
  {
    if n == 0 {
      a := null;
    } else {
      a := new T[n];
    }
  }

  /** `createInstanceWithTraits(id, r, traitNames...)`: a fresh instance of
      type `self` owning the supplied identity or a new unassigned one, with
      the trait map of the requested names, no attribute set, and every slot
      array sized from the field mapping. A trait failure leaves no instance. */
  method CreateInstanceWithTraits(reg: TypeSystem, self: TypeName, id: Option<Id>, r: Option<Referenceable>,
                                  traitNames: Option<seq<TypeName>>, tc: TraitConverter)
    returns (res: Result<ReferenceableInstance>)
    requires self in reg.classes
    ensures match NewInstance(reg, self, id, r, traitNames, tc)
      case Err(e) => res == Err(e)
      case Ok(b) =>
        res.Ok? && fresh(res.value) && res.value.Holds(self, reg.classes[self].fieldMapping, b) &&
        res.value.SlotsSized()
  {
    var traits := BuildTraits(reg, r, traitNames, tc);
    if traits.Err? {
      return Err(traits.error);
    }
    var fm := reg.classes[self].fieldMapping;
    var nullFlags := new bool[|fm.fields|];
    var bools := NewSlots<bool>(fm.numBools);
    var bytes := NewSlots<int>(fm.numBytes);
    var shorts := NewSlots<int>(fm.numShorts);
    var ints := NewSlots<int>(fm.numInts);
    var longs := NewSlots<int>(fm.numLongs);
    var floats := NewSlots<real>(fm.numFloats);
    var doubles := NewSlots<real>(fm.numDoubles);
    var bigDecimals := NewSlots<real>(fm.numBigDecimals);
    var bigIntegers := NewSlots<int>(fm.numBigInts);
    var dates := NewSlots<int>(fm.numDates);
    var strings := NewSlots<string>(fm.numStrings);
    var arrays := NewSlots<seq<Value>>(fm.numArrays);
    var maps := NewSlots<seq<(Value, Value)>>(fm.numMaps);
    var structs := NewSlots<Option<TypedStruct>>(fm.numStructs);
    var referenceables := NewSlots<ReferenceableInstance?>(fm.numReferenceables);
    var ids := NewSlots<Option<Id>>(fm.numReferenceables);
    var inst := new ReferenceableInstance(
      if id.None? then NewId(self) else id.value, self, fm,
      nullFlags, bools, bytes, shorts, ints, longs, floats, doubles, bigDecimals,
      bigIntegers, dates, strings, arrays, maps, structs, referenceables, ids,
      traits.value);
    return Ok(inst);
  }

  /** `createInstance(id, traitNames...)`. */
  method CreateInstanceWithId(reg: TypeSystem, self: TypeName, id: Option<Id>,
                              traitNames: Option<seq<TypeName>>, tc: TraitConverter)
    returns (res: Result<ReferenceableInstance>)
    requires self in reg.classes
    ensures match NewInstance(reg, self, id, None, traitNames, tc)
      case Err(e) => res == Err(e)
      case Ok(b) =>
        res.Ok? && fresh(res.value) && res.value.Holds(self, reg.classes[self].fieldMapping, b) &&
        res.value.SlotsSized()
  {
    res := CreateInstanceWithTraits(reg, self, id, None, traitNames, tc);
  }

  /** `createInstance(traitNames...)`: a new unassigned identity of this type. */
  method CreateInstanceNamed(reg: TypeSystem, self: TypeName, traitNames: Option<seq<TypeName>>,
                             tc: TraitConverter) returns (res: Result<ReferenceableInstance>)
    requires self in reg.classes
    ensures match NewInstance(reg, self, None, None, traitNames, tc)
      case Err(e) => res == Err(e)
      case Ok(b) =>
        res.Ok? && fresh(res.value) && res.value.Holds(self, reg.classes[self].fieldMapping, b) &&
        res.value.id == NewId(self) && res.value.SlotsSized()
  {
    res := CreateInstanceWithId(reg, self, None, traitNames, tc);
  }

  /** `createInstance()`: no traits, a new unassigned identity; it cannot fail. */
  method CreateInstance(reg: TypeSystem, self: TypeName, tc: TraitConverter)
    returns (res: Result<ReferenceableInstance>)
    requires self in reg.classes
    ensures res.Ok? && fresh(res.value)
    ensures res.value.Holds(self, reg.classes[self].fieldMapping, Built(NewId(self), map[], map[]))
    ensures res.value.SlotsSized()
  {
    res := CreateInstanceNamed(reg, self, None, tc);
  }

  /** The field loop of `convert`: every field of the mapping, in map order,
      is read from the loose bag, replaced by its identity when it is a
      non-composite reference, and handed to the instance's setter; a setter
      failure is re-raised wrapped with this type and the value. On success the
      instance holds exactly the attributes of `ApplyFields`. */
  method CopyFields(tr: ReferenceableInstance, t: TypeName, val: Value, values: map<string, Value>,
                    fields: seq<(string, AttributeInfo)>, setter: Setter) returns (r: Result<()>)
    requires tr.typeName == t && tr.attrs == map[]
    modifies tr
    ensures r.Ok? <==> ApplyFields(t, val, values, fields, setter).Ok?
    ensures r.Ok? ==> tr.attrs == ApplyFields(t, val, values, fields, setter).value
    ensures r.Err? ==> r.error == ApplyFields(t, val, values, fields, setter).error
  {
    var i := 0;
    while i < |fields|
      invariant 0 <= i <= |fields|
      invariant ApplyFields(t, val, values, fields[..i], setter) == Ok(tr.attrs)
    {
      var key := fields[i].0;
      var info := fields[i].1;
      assert fields[..i + 1][..i] == fields[..i];
      var input := FieldInputFor(info, Lookup(values, key));
      if input.Err? {
        ApplyFieldsPrefix(t, val, values, fields, i + 1, setter);
        return Err(input.error);
      }
      var e := tr.Set(key, input.value, setter);
      if e.Some? {
        ApplyFieldsPrefix(t, val, values, fields, i + 1, setter);
        return Err(Wrap(t, val, e.value));
      }
      i := i + 1;
    }
    assert fields[..i] == fields;
    return Ok(());
  }

  /** The struct branch of `convert` once the value names this type: create
      the instance (with the Referenceable's identity and traits, if it is
      one), return it as it is when that identity is already assigned, and
      otherwise copy the fields into it. */
  method ConvertStruct(reg: TypeSystem, self: TypeName, val: Value, values: map<string, Value>,
                       ref: Option<Referenceable>, setter: Setter, tc: TraitConverter)
    returns (r: Result<ReferenceableInstance?>)
    requires WellFormed(reg) && self in reg.classes
    ensures match ConstructSpec(reg, self, val, values, ref, setter, tc)
      case Err(e) => r == Err(e)
      case Ok(b) =>
        r.Ok? && r.value != null && fresh(r.value) &&
        r.value.Holds(self, reg.classes[self].fieldMapping, b) && r.value.SlotsSized()
  {
    var id := if ref.Some? then ref.value.id else None;
    var created: Result<ReferenceableInstance>;
    if ref.Some? {
      created := CreateInstanceWithTraits(reg, self, id, ref, Some(ref.value.traitNames), tc);
    } else {
      created := CreateInstanceWithId(reg, self, id, Some([]), tc);
    }
    if created.Err? {
      return Err(created.error);
    }
    var tr := created.value;
    if id.Some? && id.value.IsAssigned() {
      return Ok(tr);
    }
    var copied := CopyFields(tr, self, val, values, reg.classes[self].fieldMapping.fields, setter);
    if copied.Err? {
      return Err(copied.error);
    }
    return Ok(tr);
  }

  /** `convert(val, m)` on the class type `self`. The branch is chosen by
      Resolve; a value naming a subtype is handed to that type, at most once;
      a loose value of this type is built into a fresh instance. */
  method Convert(reg: TypeSystem, self: TypeName, val: Value, m: Multiplicity,
                 setter: Setter, tc: TraitConverter) returns (r: Result<ReferenceableInstance?>)
    requires WellFormed(reg) && self in reg.classes
    ensures match ConvertOutcome(reg, self, val, m, setter, tc)
      case Returned(res) => r == res
      case Created(t, Err(e)) => r == Err(e)
      case Created(t, Ok(b)) =>
        t in reg.classes && r.Ok? && r.value != null && fresh(r.value) &&
        r.value.Holds(t, reg.classes[t].fieldMapping, b) && r.value.SlotsSized()
    decreases if DeclaredTypeName(val) == Some(self) then 0 else 1
  {
    match Resolve(reg, self, val, m)
    case Done(res) =>
      r := res;
    case DelegateTo(sub) =>
      r := Convert(reg, sub, val, m, setter, tc);
    case Construct(values, ref) =>
      r := ConvertStruct(reg, self, val, values, ref, setter, tc);
  }
}
