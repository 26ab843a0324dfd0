/** What ClassType's operations compute, as functions: the identity check, the
    branch table of `convert` with its single delegation, the per-field copy of
    a loose struct, the trait map of a new instance. The methods in module
    ClassType are proved against these. */
module ClassTypeSpec {
  import opened Typesystem

  /** `isSubType(x)`: `x` is a registered class type that is this type or has
      it among its ancestors. */
  predicate IsSubType(reg: TypeSystem, self: TypeName, x: TypeName): (b: bool)
    ensures b ==> x in reg.classes
    ensures x == self ==> (b <==> self in reg.classes)
    ensures x != self ==> (b <==> x in reg.classes && self in reg.classes[x].superTypePaths)
  {
    x in reg.classes && (x == self || self in reg.classes[x].superTypePaths)
  }

  /** `validateId`: a null identity passes; otherwise the identity's owner type
      must be looked up and be this type or one of its subtypes. */
  function ValidateId(reg: TypeSystem, self: TypeName, id: Option<Id>): (r: Result<()>)
    ensures id.None? ==> r.Ok?
    ensures id.Some? ==> (r.Ok? <==> IsSubType(reg, self, id.value.className))
    ensures id.Some? && id.value.className !in reg.classes ==> r == Err(UnknownType(id.value.className))
    ensures id.Some? && id.value.className in reg.classes && r.Err? ==> r == Err(InvalidId(id.value, self))
  {
    match id
    case None => Ok(())
    case Some(i) =>
      if i.className !in reg.classes then Err(UnknownType(i.className))
      else if IsSubType(reg, self, i.className) then Ok(())
      else Err(InvalidId(i, self))
  }

  /** `getId`: only a Referenceable has an identity to give (possibly null).
      For null the error message cannot be built: asking null for its class
      fails with a null-pointer error. */
  function GetId(v: Value): (r: Result<Option<Id>>)
    ensures r.Ok? <==> v.LooseRef?
    ensures r.Ok? ==> r.value == v.r.id
    ensures v.Null? ==> r == Err(NullPointer)
    ensures !v.Null? && r.Err? ==> r.error == NotReferenceable(v)
  {
    if v.LooseRef? then Ok(v.r.id)
    else if v.Null? then Err(NullPointer)
    else Err(NotReferenceable(v))
  }

  /** `getNames`: the names under which an attribute is visible; a type built
      by the placeholder constructor has no map and the lookup fails. */
  function GetNames(c: ClassDef, info: AttributeInfo): (r: Result<Option<seq<string>>>)
    ensures r.Err? <==> c.infoToNameMap.None?
    ensures r.Err? ==> r.error == NullPointer
    ensures r.Ok? ==> (r.value.Some? <==> info in c.infoToNameMap.value)
    ensures r.Ok? && r.value.Some? ==> r.value.value == c.infoToNameMap.value[info]
  {
    match c.infoToNameMap
    case None => Err(NullPointer)
    case Some(names) => if info in names then Ok(Some(names[info])) else Ok(None)
  }

  /** The type name a value declares, for the shapes whose name `convert`
      compares with its own. */
  function DeclaredTypeName(val: Value): Option<TypeName> {
    match val
    case Typed(inst) => Some(inst.typeName)
    case Loose(s) => Some(s.typeName)
    case LooseRef(r) => Some(r.typeName)
    case _ => None
  }

  /** One step of `convert`: a final answer, a hand-over to the value's own
      type, or building a new instance from a loose bag. */
  datatype Step =
    | Done(res: Result<ReferenceableInstance?>)
    | DelegateTo(sub: TypeName)
    | Construct(values: map<string, Value>, ref: Option<Referenceable>)

  /** A value named `name` other than this type's: hand it to that type when
      this type is among its ancestors. */
  function Delegation(reg: TypeSystem, self: TypeName, name: TypeName, val: Value): (s: Step)
    ensures s.DelegateTo? ==> s.sub == name
    ensures name != self ==> (s.DelegateTo? <==> IsSubType(reg, self, name))
    ensures name !in reg.classes ==> s == Done(Err(UnknownType(name)))
    ensures name in reg.classes && !s.DelegateTo? ==> s == Done(Err(ValueConversion(self, val, None)))
  {
    if name !in reg.classes then Done(Err(UnknownType(name)))
    else if self in reg.classes[name].superTypePaths then DelegateTo(name)
    else Done(Err(ValueConversion(self, val, None)))
  }

  /** The branch table of `convert`, in the source's order. */
  function Resolve(reg: TypeSystem, self: TypeName, val: Value, m: Multiplicity): (s: Step)
    ensures val.Null? ==> (s == Done(Ok(null)) <==> m.NullAllowed())
    ensures val.Null? && !m.NullAllowed() ==> s == Done(Err(NullConversion(m)))
    ensures val.Typed? && val.inst.typeName == self ==> s == Done(Ok(val.inst))
    ensures s.DelegateTo? ==>
      DeclaredTypeName(val) == Some(s.sub) && s.sub != self &&
      s.sub in reg.classes && self in reg.classes[s.sub].superTypePaths
    ensures s.Construct? <==> (val.Loose? || val.LooseRef?) && DeclaredTypeName(val) == Some(self)
    ensures s.Construct? ==>
      s.ref == (if val.LooseRef? then Some(val.r) else None) &&
      s.values == (if val.LooseRef? then val.r.values else val.s.values)
    ensures DeclaredTypeName(val).Some? && DeclaredTypeName(val) != Some(self) ==>
      (s.DelegateTo? <==> IsSubType(reg, self, DeclaredTypeName(val).value)) &&
      (DeclaredTypeName(val).value !in reg.classes ==> s == Done(Err(UnknownType(DeclaredTypeName(val).value)))) &&
      (DeclaredTypeName(val).value in reg.classes && !s.DelegateTo? ==> s == Done(Err(ValueConversion(self, val, None))))
    ensures val.Stored? ==>
      (s == Done(Ok(val.stored)) <==> ValidateId(reg, self, Some(val.stored.id)).Ok?) &&
      (ValidateId(reg, self, Some(val.stored.id)).Err? ==> s == Done(Err(ValidateId(reg, self, Some(val.stored.id)).error)))
    ensures val.Other? ==> s == Done(Err(ValueConversion(self, val, None)))
  {
    match val
    case Null =>
      if m.NullAllowed() then Done(Ok(null)) else Done(Err(NullConversion(m)))
    case Typed(inst) =>
      if inst.typeName != self then Delegation(reg, self, inst.typeName, val) else Done(Ok(inst))
    case Loose(s) =>
      if s.typeName != self then Delegation(reg, self, s.typeName, val) else Construct(s.values, None)
    case LooseRef(r) =>
      if r.typeName != self then Delegation(reg, self, r.typeName, val) else Construct(r.values, Some(r))
    case Stored(inst) =>
      (match ValidateId(reg, self, Some(inst.id))
       case Ok(_) => Done(Ok(inst))
       case Err(e) => Done(Err(e)))
    case Other(_) =>
      Done(Err(ValueConversion(self, val, None)))
  }

  /** `s.get(attrName)`: a missing attribute reads as null. */
  function Lookup(values: map<string, Value>, key: string): (v: Value)
    ensures key in values ==> v == values[key]
    ensures key !in values ==> v == Null
  {
    if key in values then values[key] else Null
  }

  /** The values the cast to IReferenceableInstance accepts. */
  predicate IsReferenceable(v: Value) {
    v.Typed? || v.LooseRef? || v.Stored?
  }

  /** `getId()` of an IReferenceableInstance: a typed or stored instance
      always has one; a Referenceable's may be null. */
  function ReferenceId(v: Value): (id: Option<Id>)
    requires IsReferenceable(v)
    ensures v.LooseRef? ==> id == v.r.id
    ensures v.Typed? ==> id == Some(v.inst.id)
    ensures v.Stored? ==> id == Some(v.stored.id)
  {
    match v
    case Typed(inst) => Some(inst.id)
    case LooseRef(r) => r.id
    case Stored(inst) => Some(inst.id)
  }

  /** What the setter receives for an attribute: a non-null value of a
      class-typed, non-composite attribute is replaced by its identity (the
      cast fails for a value that has none); every other value is passed as
      given. */
  function FieldInputFor(info: AttributeInfo, aVal: Value): (r: Result<FieldInput>)
    ensures (aVal.Null? || info.category != CLASS || info.isComposite) ==> r == Ok(AsGiven(aVal))
    ensures !aVal.Null? && info.category == CLASS && !info.isComposite ==>
      (r.Ok? <==> IsReferenceable(aVal)) && (r.Ok? ==> r.value == IdOf(ReferenceId(aVal)))
    ensures r.Err? ==> r.error == ClassCast(aVal)
  {
    if !aVal.Null? && info.category == CLASS && !info.isComposite then
      if IsReferenceable(aVal) then Ok(IdOf(ReferenceId(aVal))) else Err(ClassCast(aVal))
    else
      Ok(AsGiven(aVal))
  }

  /** A conversion failure raised by the setter is re-raised wrapped with the
      converting type and the whole value; other failures pass through. */
  function Wrap(t: TypeName, val: Value, e: Error): (w: Error)
    ensures IsValueConversion(e) ==> w == ValueConversion(t, val, Some(e))
    ensures !IsValueConversion(e) ==> w == e
  {
    if IsValueConversion(e) then ValueConversion(t, val, Some(e)) else e
  }

  /** The outcome of copying one field of the loose bag into an instance of
      `t`: the setter receives the identity for a non-null value of a
      class-typed non-composite attribute and the value itself otherwise; a
      failed cast ends the copy, and a setter failure comes back through
      `Wrap`. */
  function FieldStep(t: TypeName, val: Value, values: map<string, Value>,
                     field: (string, AttributeInfo), setter: Setter): Result<FieldInput>
  {
    match FieldInputFor(field.1, Lookup(values, field.0))
    case Err(e) => Err(e)
    case Ok(input) =>
      match setter(t, field.0, input)
      case None => Ok(input)
      case Some(e) => Err(Wrap(t, val, e))
  }

  /** The field loop of `convert`, visiting `fields` in order: the attributes
      the instance holds afterwards, one per field, or the first failure. */
  function ApplyFields(t: TypeName, val: Value, values: map<string, Value>,
                       fields: seq<(string, AttributeInfo)>, setter: Setter): (r: Result<map<string, FieldInput>>)
    ensures r.Ok? ==> forall i :: 0 <= i < |fields| ==> fields[i].0 in r.value
    decreases |fields|
  {
    if |fields| == 0 then Ok(map[])
    else
      match ApplyFields(t, val, values, fields[..|fields| - 1], setter)
      case Err(e) => Err(e)
      case Ok(acc) =>
        match FieldStep(t, val, values, fields[|fields| - 1], setter)
        case Err(e) => Err(e)
        case Ok(v) => Ok(acc[fields[|fields| - 1].0 := v])
  }

  /** The names of the fields of a layout. */
  function FieldNames(fields: seq<(string, AttributeInfo)>): set<string> {
    set i | 0 <= i < |fields| :: fields[i].0
  }

  /** `r.getTrait(t)` when there is a Referenceable, null otherwise. */
  function TraitObject(r: Option<Referenceable>, t: TypeName): (o: Option<Struct>)
    ensures o.Some? <==> r.Some? && t in r.value.traits
    ensures o.Some? ==> o.value == r.value.traits[t]
  {
    if r.Some? && t in r.value.traits then Some(r.value.traits[t]) else None
  }

  /** The trait instance attached for one requested name: the trait type must
      resolve; the caller's copy is converted with REQUIRED, else a default one
      is created. */
  function TraitFor(reg: TypeSystem, r: Option<Referenceable>, t: TypeName, tc: TraitConverter): (res: Result<TypedStruct>)
    ensures t !in reg.traits ==> res == Err(UnknownType(t))
    ensures t in reg.traits && TraitObject(r, t).None? ==> res == Ok(DefaultTrait(t))
    ensures t in reg.traits && TraitObject(r, t).Some? ==> res == tc(t, TraitObject(r, t).value, Required)
  {
    if t !in reg.traits then Err(UnknownType(t))
    else match TraitObject(r, t)
      case None => Ok(DefaultTrait(t))
      case Some(o) => tc(t, o, Required)
  }

  /** The entries put into the map builder, in order, or the first failure. */
  function TraitEntries(reg: TypeSystem, r: Option<Referenceable>, names: seq<TypeName>,
                        tc: TraitConverter): (res: Result<seq<(TypeName, TypedStruct)>>)
    ensures res.Ok? ==> |res.value| == |names|
    decreases |names|
  {
    if |names| == 0 then Ok([])
    else
      match TraitEntries(reg, r, names[..|names| - 1], tc)
      case Err(e) => Err(e)
      case Ok(es) =>
        match TraitFor(reg, r, names[|names| - 1], tc)
        case Err(e) => Err(e)
        case Ok(tr) => Ok(es + [(names[|names| - 1], tr)])
  }

  /** The map the builder holds after `put`s of `es`, in order. */
  function MapOf(es: seq<(TypeName, TypedStruct)>): (m: map<TypeName, TypedStruct>)
    ensures forall k :: k in m <==> k in KeysOf(es)
    ensures |es| > 0 ==> m[es[|es| - 1].0] == es[|es| - 1].1
    decreases |es|
  {
    if |es| == 0 then map[]
    else
      KeysOfSnoc(es);
      MapOf(es[..|es| - 1])[es[|es| - 1].0 := es[|es| - 1].1]
  }

  function KeysOf(es: seq<(TypeName, TypedStruct)>): set<TypeName> {
    set i | 0 <= i < |es| :: es[i].0
  }

  lemma KeysOfSnoc(es: seq<(TypeName, TypedStruct)>)
    requires |es| > 0
    ensures KeysOf(es) == KeysOf(es[..|es| - 1]) + {es[|es| - 1].0}
  {
    var n := |es| - 1;
    var init := es[..n];
    forall k | k in KeysOf(es) ensures k in KeysOf(init) + {es[n].0} {
      var i :| 0 <= i < |es| && es[i].0 == k;
      if i < n { assert init[i].0 == k; }
    }
    forall k | k in KeysOf(init) ensures k in KeysOf(es) {
      var i :| 0 <= i < n && init[i].0 == k;
      assert es[i].0 == k;
    }
  }

  predicate DistinctKeys(es: seq<(TypeName, TypedStruct)>) {
    forall i, j :: 0 <= i < j < |es| ==> es[i].0 != es[j].0
  }

  ghost predicate Distinct(names: seq<TypeName>) {
    forall i, j :: 0 <= i < j < |names| ==> names[i] != names[j]
  }

  /** The trait map of a new instance; the map builder refuses a repeated key. */
  function Traits(reg: TypeSystem, r: Option<Referenceable>, names: Option<seq<TypeName>>,
                  tc: TraitConverter): (res: Result<map<TypeName, TypedStruct>>)
    ensures names.None? ==> res == Ok(map[])
  {
    match names
    case None => Ok(map[])
    case Some(ns) =>
      match TraitEntries(reg, r, ns, tc)
      case Err(e) => Err(e)
      case Ok(es) => if DistinctKeys(es) then Ok(MapOf(es)) else Err(DuplicateTraitName)
  }

  /** The identity of a new instance: the supplied one, else a fresh one
      owned by this type. */
  function InstanceId(t: TypeName, id: Option<Id>): (r: Id)
    ensures id.Some? ==> r == id.value
    ensures id.None? ==> r == NewId(t)
  {
    if id.Some? then id.value else NewId(t)
  }

  /** `createInstanceWithTraits`: what the new instance holds. */
  function NewInstance(reg: TypeSystem, t: TypeName, id: Option<Id>, r: Option<Referenceable>,
                       names: Option<seq<TypeName>>, tc: TraitConverter): (res: Result<Built>)
    ensures res.Ok? <==> Traits(reg, r, names, tc).Ok?
    ensures res.Err? ==> res.error == Traits(reg, r, names, tc).error
    ensures res.Ok? ==>
      res.value.id == InstanceId(t, id) && res.value.traits == Traits(reg, r, names, tc).value &&
      res.value.attrs == map[]
  {
    match Traits(reg, r, names, tc)
    case Err(e) => Err(e)
    case Ok(traits) => Ok(Built(InstanceId(t, id), traits, map[]))
  }

  /** The struct branch of `convert` at type `t`, once the names agree. */
  function ConstructSpec(reg: TypeSystem, t: TypeName, val: Value, values: map<string, Value>,
                         ref: Option<Referenceable>, setter: Setter, tc: TraitConverter): (res: Result<Built>)
    requires WellFormed(reg) && t in reg.classes
    ensures var id := if ref.Some? then ref.value.id else None;
      var traits := Traits(reg, ref, if ref.Some? then Some(ref.value.traitNames) else Some([]), tc);
      (traits.Err? ==> res == Err(traits.error)) &&
      (res.Ok? ==> res.value.id == InstanceId(t, id) && res.value.traits == traits.value) &&
      (res.Ok? && id.Some? && id.value.IsAssigned() ==> res.value.attrs == map[]) &&
      (res.Ok? && !(id.Some? && id.value.IsAssigned()) ==>
        forall i :: 0 <= i < |reg.classes[t].fieldMapping.fields| ==>
          reg.classes[t].fieldMapping.fields[i].0 in res.value.attrs)
  {
    var id := if ref.Some? then ref.value.id else None;
    var names := if ref.Some? then Some(ref.value.traitNames) else Some([]);
    match NewInstance(reg, t, id, ref, names, tc)
    case Err(e) => Err(e)
    case Ok(b) =>
      if id.Some? && id.value.IsAssigned() then Ok(b)
      else
        match ApplyFields(t, val, values, reg.classes[t].fieldMapping.fields, setter)
        case Err(e) => Err(e)
        case Ok(attrs) => Ok(b.(attrs := attrs))
  }

  /** Where a call of `convert` ends: an answer it returns as it is, or a new
      instance of `target` (or the failure while building it). */
  datatype Outcome =
    | Returned(res: Result<ReferenceableInstance?>)
    | Created(target: TypeName, built: Result<Built>)

  /** `convert(val, m)` on this type, following its delegation. A new instance
      is always of a subtype of this type, and of the type the value names. */
  function ConvertOutcome(reg: TypeSystem, self: TypeName, val: Value, m: Multiplicity,
                          setter: Setter, tc: TraitConverter): (o: Outcome)
    requires WellFormed(reg) && self in reg.classes
    ensures o.Created? ==>
      o.target in reg.classes && IsSubType(reg, self, o.target) && DeclaredTypeName(val) == Some(o.target)
    decreases if DeclaredTypeName(val) == Some(self) then 0 else 1
  {
    match Resolve(reg, self, val, m)
    case Done(res) => Returned(res)
    case DelegateTo(sub) => ConvertOutcome(reg, sub, val, m, setter, tc)
    case Construct(values, ref) => Created(self, ConstructSpec(reg, self, val, values, ref, setter, tc))
  }
}
