/** Properties of ClassType's conversion and instance creation, stated over
    the specification functions of ClassTypeSpec. */
module ClassTypeLemmas {
  import opened Typesystem
  import opened ClassTypeSpec

  // ---------------------------------------------------------------------
  // The trait map of a new instance
  // ---------------------------------------------------------------------

  /** A failure among the first `i` trait names is the failure of the whole list. */
  lemma {:induction false} TraitEntriesPrefix(reg: TypeSystem, r: Option<Referenceable>,
                                              names: seq<TypeName>, i: nat, tc: TraitConverter)
    requires i <= |names|
    requires TraitEntries(reg, r, names[..i], tc).Err?
    ensures TraitEntries(reg, r, names, tc) == TraitEntries(reg, r, names[..i], tc)
    decreases |names|
  {
    if i == |names| {
      assert names[..i] == names;
    } else {
      var init := names[..|names| - 1];
      assert init[..i] == names[..i];
      TraitEntriesPrefix(reg, r, init, i, tc);
    }
  }

  /** One more trait name: its trait is appended to the entries so far, or its
      failure ends the list. */
  lemma TraitEntriesStep(reg: TypeSystem, r: Option<Referenceable>, names: seq<TypeName>, i: nat,
                         es: seq<(TypeName, TypedStruct)>, tc: TraitConverter)
    requires i < |names| && TraitEntries(reg, r, names[..i], tc) == Ok(es)
    ensures TraitEntries(reg, r, names[..i + 1], tc) ==
      match TraitFor(reg, r, names[i], tc)
      case Ok(tr) => Ok(es + [(names[i], tr)])
      case Err(e) => Err(e)
  {
    assert names[..i + 1][..i] == names[..i];
  }

  /** The builder holds one entry per requested name, in order, each the
      trait attached for that name; it is filled exactly when every name
      yields a trait. */
  lemma {:induction false} TraitEntriesShape(reg: TypeSystem, r: Option<Referenceable>,
                                             names: seq<TypeName>, tc: TraitConverter)
    ensures TraitEntries(reg, r, names, tc).Ok? <==>
      forall i :: 0 <= i < |names| ==> TraitFor(reg, r, names[i], tc).Ok?
    ensures TraitEntries(reg, r, names, tc).Ok? ==>
      var es := TraitEntries(reg, r, names, tc).value;
      |es| == |names| &&
      forall i :: 0 <= i < |names| ==> es[i] == (names[i], TraitFor(reg, r, names[i], tc).value)
    decreases |names|
  {
    if |names| > 0 {
      var init := names[..|names| - 1];
      TraitEntriesShape(reg, r, init, tc);
      assert forall i :: 0 <= i < |init| ==> init[i] == names[i];
      if TraitEntries(reg, r, init, tc).Err? {
        var k :| 0 <= k < |init| && TraitFor(reg, r, init[k], tc).Err?;
        assert TraitFor(reg, r, names[k], tc).Err?;
      }
    }
  }

  lemma {:induction false} MapOfAt(es: seq<(TypeName, TypedStruct)>, i: nat)
    requires DistinctKeys(es) && i < |es|
    ensures es[i].0 in MapOf(es) && MapOf(es)[es[i].0] == es[i].1
    decreases |es|
  {
    if i < |es| - 1 {
      var init := es[..|es| - 1];
      assert init[i] == es[i];
      MapOfAt(init, i);
    }
  }

  /** Appending an entry keeps the keys distinct exactly when its key is new. */
  lemma DistinctKeysSnoc(es: seq<(TypeName, TypedStruct)>, p: (TypeName, TypedStruct))
    ensures DistinctKeys(es + [p]) <==> DistinctKeys(es) && p.0 !in MapOf(es)
  {
    var es' := es + [p];
    assert forall i :: 0 <= i < |es| ==> es'[i] == es[i];
    assert es'[|es|] == p;
    if DistinctKeys(es') {
      forall i | 0 <= i < |es| ensures es[i].0 != p.0 {
        assert es'[i].0 != es'[|es|].0;
      }
    }
    if DistinctKeys(es) && p.0 !in KeysOf(es) {
      forall i, j | 0 <= i < j < |es'| ensures es'[i].0 != es'[j].0 {
        if j == |es| {
          assert es'[i].0 in KeysOf(es);
        }
      }
    }
  }

  /** The trait map has exactly the requested names as keys, each bound to
      the caller's trait converted with REQUIRED or to a default one; it
      exists exactly when every name resolves, every conversion succeeds
      and no name is requested twice. */
  lemma TraitsMap(reg: TypeSystem, r: Option<Referenceable>, names: seq<TypeName>, tc: TraitConverter)
    ensures Traits(reg, r, Some(names), tc).Ok? <==>
      (forall i :: 0 <= i < |names| ==> TraitFor(reg, r, names[i], tc).Ok?) && Distinct(names)
    ensures Traits(reg, r, Some(names), tc).Ok? ==>
      var mp := Traits(reg, r, Some(names), tc).value;
      mp.Keys == (set i | 0 <= i < |names| :: names[i]) &&
      forall i :: 0 <= i < |names| ==> mp[names[i]] == TraitFor(reg, r, names[i], tc).value
  {
    TraitEntriesShape(reg, r, names, tc);
    var res := TraitEntries(reg, r, names, tc);
    if res.Ok? {
      var es := res.value;
      assert DistinctKeys(es) <==> Distinct(names) by {
        assert forall i :: 0 <= i < |es| ==> es[i].0 == names[i];
      }
      assert KeysOf(es) == (set i | 0 <= i < |names| :: names[i]) by {
        assert forall i :: 0 <= i < |es| ==> es[i].0 == names[i];
      }
      if DistinctKeys(es) {
        forall i | 0 <= i < |names|
          ensures MapOf(es)[names[i]] == TraitFor(reg, r, names[i], tc).value
        {
          MapOfAt(es, i);
        }
      }
    }
  }

  /** A requested trait name that no trait type answers to aborts the call. */
  lemma UnresolvableTraitAborts(reg: TypeSystem, r: Option<Referenceable>, names: seq<TypeName>,
                                i: nat, tc: TraitConverter)
    requires i < |names| && names[i] !in reg.traits
    ensures Traits(reg, r, Some(names), tc).Err?
  {
    TraitsMap(reg, r, names, tc);
    assert TraitFor(reg, r, names[i], tc).Err?;
  }

  // ---------------------------------------------------------------------
  // The field loop
  // ---------------------------------------------------------------------

  /** A failure within the first `i` fields is the failure of the whole loop. */
  lemma {:induction false} ApplyFieldsPrefix(t: TypeName, val: Value, values: map<string, Value>,
                                             fields: seq<(string, AttributeInfo)>, i: nat, setter: Setter)
    requires i <= |fields|
    requires ApplyFields(t, val, values, fields[..i], setter).Err?
    ensures ApplyFields(t, val, values, fields, setter) == ApplyFields(t, val, values, fields[..i], setter)
    decreases |fields|
  {
    if i == |fields| {
      assert fields[..i] == fields;
    } else {
      var init := fields[..|fields| - 1];
      assert init[..i] == fields[..i];
      ApplyFieldsPrefix(t, val, values, init, i, setter);
    }
  }

  /** The loop succeeds exactly when every field's copy succeeds. */
  lemma {:induction false} ApplyFieldsOk(t: TypeName, val: Value, values: map<string, Value>,
                                         fields: seq<(string, AttributeInfo)>, setter: Setter)
    ensures ApplyFields(t, val, values, fields, setter).Ok? <==>
      forall i :: 0 <= i < |fields| ==> FieldStep(t, val, values, fields[i], setter).Ok?
    decreases |fields|
  {
    if |fields| > 0 {
      var n := |fields| - 1;
      var init := fields[..n];
      ApplyFieldsOk(t, val, values, init, setter);
      assert forall i :: 0 <= i < n ==> init[i] == fields[i];
      if ApplyFields(t, val, values, init, setter).Err? {
        var k :| 0 <= k < n && FieldStep(t, val, values, init[k], setter).Err?;
        assert FieldStep(t, val, values, fields[k], setter).Err?;
      }
    }
  }

  lemma FieldNamesSnoc(fields: seq<(string, AttributeInfo)>)
    requires |fields| > 0
    ensures FieldNames(fields) == FieldNames(fields[..|fields| - 1]) + {fields[|fields| - 1].0}
  {
    var n := |fields| - 1;
    var init := fields[..n];
    forall k | k in FieldNames(fields) ensures k in FieldNames(init) + {fields[n].0} {
      var i :| 0 <= i < |fields| && fields[i].0 == k;
      if i < n { assert init[i].0 == k; }
    }
    forall k | k in FieldNames(init) ensures k in FieldNames(fields) {
      var i :| 0 <= i < n && init[i].0 == k;
      assert fields[i].0 == k;
    }
  }

  /** After the loop the instance holds a value for exactly the mapping's fields. */
  lemma {:induction false} ApplyFieldsKeys(t: TypeName, val: Value, values: map<string, Value>,
                                           fields: seq<(string, AttributeInfo)>, setter: Setter)
    requires ApplyFields(t, val, values, fields, setter).Ok?
    ensures ApplyFields(t, val, values, fields, setter).value.Keys == FieldNames(fields)
    decreases |fields|
  {
    if |fields| > 0 {
      ApplyFieldsKeys(t, val, values, fields[..|fields| - 1], setter);
      FieldNamesSnoc(fields);
    }
  }

  /** A successful loop over a non-empty layout is the loop over all but the
      last field, followed by the last field's copy. */
  lemma ApplyFieldsSnoc(t: TypeName, val: Value, values: map<string, Value>,
                        fields: seq<(string, AttributeInfo)>, setter: Setter)
    requires |fields| > 0 && ApplyFields(t, val, values, fields, setter).Ok?
    ensures var n := |fields| - 1;
      ApplyFields(t, val, values, fields[..n], setter).Ok? &&
      FieldStep(t, val, values, fields[n], setter).Ok? &&
      ApplyFields(t, val, values, fields, setter).value ==
        ApplyFields(t, val, values, fields[..n], setter).value[fields[n].0 := FieldStep(t, val, values, fields[n], setter).value]
  {
  }

  /** With distinct names, each field holds what its copy handed to the setter. */
  lemma {:induction false} ApplyFieldsValues(t: TypeName, val: Value, values: map<string, Value>,
                                             fields: seq<(string, AttributeInfo)>, setter: Setter)
    requires ApplyFields(t, val, values, fields, setter).Ok? && DistinctNames(fields)
    ensures forall i :: 0 <= i < |fields| ==>
      fields[i].0 in ApplyFields(t, val, values, fields, setter).value &&
      FieldStep(t, val, values, fields[i], setter).Ok? &&
      ApplyFields(t, val, values, fields, setter).value[fields[i].0] == FieldStep(t, val, values, fields[i], setter).value
    decreases |fields|
  {
    if |fields| > 0 {
      var n := |fields| - 1;
      var init := fields[..n];
      ApplyFieldsSnoc(t, val, values, fields, setter);
      assert forall i :: 0 <= i < n ==> init[i] == fields[i];
      assert DistinctNames(init);
      ApplyFieldsValues(t, val, values, init, setter);
      var acc := ApplyFields(t, val, values, init, setter).value;
      var res := ApplyFields(t, val, values, fields, setter).value;
      assert res == acc[fields[n].0 := FieldStep(t, val, values, fields[n], setter).value];
      forall i | 0 <= i < n
        ensures fields[i].0 in res && FieldStep(t, val, values, fields[i], setter).Ok? &&
          res[fields[i].0] == FieldStep(t, val, values, fields[i], setter).value
      {
        assert init[i] == fields[i] && fields[i].0 != fields[n].0;
      }
    }
  }

  /** A failing loop fails with the error of its first failing field. */
  lemma {:induction false} ApplyFieldsFirstError(t: TypeName, val: Value, values: map<string, Value>,
                                                 fields: seq<(string, AttributeInfo)>, setter: Setter)
    requires ApplyFields(t, val, values, fields, setter).Err?
    ensures exists k :: (0 <= k < |fields| &&
      FieldStep(t, val, values, fields[k], setter) == Err(ApplyFields(t, val, values, fields, setter).error) &&
      forall j :: 0 <= j < k ==> FieldStep(t, val, values, fields[j], setter).Ok?)
    decreases |fields|
  {
    var n := |fields| - 1;
    var init := fields[..n];
    assert forall i :: 0 <= i < n ==> init[i] == fields[i];
    if ApplyFields(t, val, values, init, setter).Err? {
      ApplyFieldsFirstError(t, val, values, init, setter);
      var k :| 0 <= k < |init| &&
        FieldStep(t, val, values, init[k], setter) == Err(ApplyFields(t, val, values, init, setter).error) &&
        forall j :: 0 <= j < k ==> FieldStep(t, val, values, init[j], setter).Ok?;
      assert FieldStep(t, val, values, fields[k], setter) == Err(ApplyFields(t, val, values, fields, setter).error);
    } else {
      ApplyFieldsOk(t, val, values, init, setter);
      assert FieldStep(t, val, values, fields[n], setter) == Err(ApplyFields(t, val, values, fields, setter).error);
    }
  }

  /** One field's copy: the setter receives the identity for a non-null
      value of a class-typed non-composite attribute and the value itself
      otherwise; a failed cast ends the copy, and a setter failure comes back
      wrapped with the converting type and the whole value when it is a
      conversion failure. */
  lemma FieldStepMeaning(t: TypeName, val: Value, values: map<string, Value>,
                         field: (string, AttributeInfo), setter: Setter)
    ensures var aVal := Lookup(values, field.0);
      var info := field.1;
      var step := FieldStep(t, val, values, field, setter);
      (info.category == CLASS && !info.isComposite && IsReferenceable(aVal) ==>
        step == (if setter(t, field.0, IdOf(ReferenceId(aVal))).None? then Ok(IdOf(ReferenceId(aVal)))
               else Err(Wrap(t, val, setter(t, field.0, IdOf(ReferenceId(aVal))).value)))) &&
      (info.category == CLASS && !info.isComposite && !aVal.Null? && !IsReferenceable(aVal) ==>
        step == Err(ClassCast(aVal))) &&
      (aVal.Null? || info.category != CLASS || info.isComposite ==>
        step == (if setter(t, field.0, AsGiven(aVal)).None? then Ok(AsGiven(aVal))
               else Err(Wrap(t, val, setter(t, field.0, AsGiven(aVal)).value))))
  {
  }

  // ---------------------------------------------------------------------
  // The decision table of convert
  // ---------------------------------------------------------------------

  /** The hand-over happens at most once: the delegate sees a value carrying
      its own name. */
  lemma DelegatesAtMostOnce(reg: TypeSystem, self: TypeName, val: Value, m: Multiplicity)
    requires Resolve(reg, self, val, m).DelegateTo?
    ensures !Resolve(reg, Resolve(reg, self, val, m).sub, val, m).DelegateTo?
  {
  }

  /** A null value converts to null exactly when the multiplicity allows null;
      otherwise it fails with a null-conversion error. */
  lemma NullInput(reg: TypeSystem, self: TypeName, m: Multiplicity, setter: Setter, tc: TraitConverter)
    requires WellFormed(reg) && self in reg.classes
    ensures ConvertOutcome(reg, self, Null, m, setter, tc) ==
      if m.NullAllowed() then Returned(Ok(null)) else Returned(Err(NullConversion(m)))
  {
  }

  /** A typed instance is returned unchanged, directly or after handing it to
      its own type, exactly when its type is this type or a subtype; an
      unknown type or an unrelated one fails. */
  lemma TypedInstanceInput(reg: TypeSystem, self: TypeName, inst: ReferenceableInstance,
                           m: Multiplicity, setter: Setter, tc: TraitConverter)
    requires WellFormed(reg) && self in reg.classes
    ensures var o := ConvertOutcome(reg, self, Typed(inst), m, setter, tc);
      (o == Returned(Ok(inst)) <==> IsSubType(reg, self, inst.typeName)) &&
      (inst.typeName !in reg.classes ==> o == Returned(Err(UnknownType(inst.typeName)))) &&
      (inst.typeName in reg.classes && !IsSubType(reg, self, inst.typeName) ==>
        o == Returned(Err(ValueConversion(self, Typed(inst), None))))
  {
    var val := Typed(inst);
    if inst.typeName != self && IsSubType(reg, self, inst.typeName) {
      assert Resolve(reg, self, val, m) == DelegateTo(inst.typeName);
      assert Resolve(reg, inst.typeName, val, m) == Done(Ok(inst));
    }
  }

  /** The bag of attributes of a loose value. */
  function LooseValues(val: Value): map<string, Value>
    requires val.Loose? || val.LooseRef?
  {
    if val.LooseRef? then val.r.values else val.s.values
  }

  function LooseRefOf(val: Value): Option<Referenceable> {
    if val.LooseRef? then Some(val.r) else None
  }

  /** A loose value is built into an instance of the type it names: this
      type, or a subtype it is handed to; an unknown or unrelated name fails. */
  lemma LooseInput(reg: TypeSystem, self: TypeName, val: Value, m: Multiplicity,
                   setter: Setter, tc: TraitConverter)
    requires WellFormed(reg) && self in reg.classes
    requires val.Loose? || val.LooseRef?
    ensures var n := DeclaredTypeName(val).value;
      var o := ConvertOutcome(reg, self, val, m, setter, tc);
      (IsSubType(reg, self, n) ==>
        o == Created(n, ConstructSpec(reg, n, val, LooseValues(val), LooseRefOf(val), setter, tc))) &&
      (n !in reg.classes ==> o == Returned(Err(UnknownType(n)))) &&
      (n in reg.classes && !IsSubType(reg, self, n) ==> o == Returned(Err(ValueConversion(self, val, None))))
  {
    var n := DeclaredTypeName(val).value;
    if n != self && IsSubType(reg, self, n) {
      assert Resolve(reg, self, val, m) == DelegateTo(n);
      assert Resolve(reg, n, val, m) == Construct(LooseValues(val), LooseRefOf(val));
    }
  }

  /** A stored ReferenceableInstance is returned unchanged exactly when its
      identity passes `validateId`; otherwise the identity check's error. */
  lemma StoredInput(reg: TypeSystem, self: TypeName, inst: ReferenceableInstance,
                    m: Multiplicity, setter: Setter, tc: TraitConverter)
    requires WellFormed(reg) && self in reg.classes
    ensures var o := ConvertOutcome(reg, self, Stored(inst), m, setter, tc);
      (o == Returned(Ok(inst)) <==> IsSubType(reg, self, inst.id.className)) &&
      (!IsSubType(reg, self, inst.id.className) ==>
        o == Returned(Err(ValidateId(reg, self, Some(inst.id)).error)))
  {
  }

  /** Values of any other shape fail. */
  lemma OtherInput(reg: TypeSystem, self: TypeName, d: string, m: Multiplicity,
                   setter: Setter, tc: TraitConverter)
    requires WellFormed(reg) && self in reg.classes
    ensures ConvertOutcome(reg, self, Other(d), m, setter, tc) ==
      Returned(Err(ValueConversion(self, Other(d), None)))
  {
  }

  /** A Referenceable whose identity is already assigned is trusted: the new
      instance carries that identity and its traits, and no attribute is set. */
  lemma AssignedIdShortCircuits(reg: TypeSystem, self: TypeName, r: Referenceable, m: Multiplicity,
                                setter: Setter, tc: TraitConverter)
    requires WellFormed(reg) && self in reg.classes
    requires r.typeName == self && r.id.Some? && r.id.value.IsAssigned()
    ensures var o := ConvertOutcome(reg, self, LooseRef(r), m, setter, tc);
      var traits := Traits(reg, Some(r), Some(r.traitNames), tc);
      o == Created(self, if traits.Ok? then Ok(Built(r.id.value, traits.value, map[])) else Err(traits.error))
  {
    assert Resolve(reg, self, LooseRef(r), m) == Construct(r.values, Some(r));
  }

  /** Otherwise the new instance of `t` takes the supplied identity or a
      fresh one of `t`, carries the trait map, and holds the copy of every
      field of the mapping; any failure leaves no instance. */
  lemma ConstructCopiesFields(reg: TypeSystem, t: TypeName, val: Value, values: map<string, Value>,
                              ref: Option<Referenceable>, setter: Setter, tc: TraitConverter)
    requires WellFormed(reg) && t in reg.classes
    requires ref.None? || ref.value.id.None? || !ref.value.id.value.IsAssigned()
    ensures var id := if ref.Some? then ref.value.id else None;
      var names := if ref.Some? then Some(ref.value.traitNames) else Some([]);
      var traits := Traits(reg, ref, names, tc);
      var fields := reg.classes[t].fieldMapping.fields;
      var res := ConstructSpec(reg, t, val, values, ref, setter, tc);
      (res.Ok? <==> traits.Ok? && forall i :: 0 <= i < |fields| ==> FieldStep(t, val, values, fields[i], setter).Ok?) &&
      (res.Ok? ==>
        res.value.id == InstanceId(t, id) && res.value.traits == traits.value &&
        res.value.attrs.Keys == FieldNames(fields)) &&
      (res.Ok? ==>
        forall i :: 0 <= i < |fields| ==> res.value.attrs[fields[i].0] == FieldStep(t, val, values, fields[i], setter).value) &&
      (traits.Err? ==> res == Err(traits.error))
  {
    var fields := reg.classes[t].fieldMapping.fields;
    ApplyFieldsOk(t, val, values, fields, setter);
    if ApplyFields(t, val, values, fields, setter).Ok? {
      ApplyFieldsKeys(t, val, values, fields, setter);
      ApplyFieldsValues(t, val, values, fields, setter);
    }
  }

  /** A value without an identity becomes an instance whose fresh identity
      passes `validateId` of the type `convert` was called on, also when a
      subtype built it. */
  lemma FreshIdPassesValidation(reg: TypeSystem, self: TypeName, val: Value, m: Multiplicity,
                                setter: Setter, tc: TraitConverter)
    requires WellFormed(reg) && self in reg.classes
    requires val.Loose? || (val.LooseRef? && val.r.id.None?)
    requires ConvertOutcome(reg, self, val, m, setter, tc).Created?
    requires ConvertOutcome(reg, self, val, m, setter, tc).built.Ok?
    ensures var o := ConvertOutcome(reg, self, val, m, setter, tc);
      o.built.value.id == NewId(o.target) && ValidateId(reg, self, Some(o.built.value.id)).Ok?
  {
    LooseInput(reg, self, val, m, setter, tc);
    var o := ConvertOutcome(reg, self, val, m, setter, tc);
    ConstructCopiesFields(reg, o.target, val, LooseValues(val), LooseRefOf(val), setter, tc);
  }

  /** The struct branch does not check a supplied identity: a Referenceable of
      type A carrying an identity owned by an unrelated class B is built into
      an instance of A with B's identity, which `validateId` of A rejects. */
  lemma SuppliedIdNotValidated(setter: Setter, tc: TraitConverter)
    ensures var empty := FieldMapping([], 0, 0, 0, 0, 0, 0, 0, 0, 0, 0, 0, 0, 0, 0, 0);
      var reg := TypeSystem(map["A" := ClassDef({}, empty, Some(map[])), "B" := ClassDef({}, empty, Some(map[]))], {});
      var foreign := Id("B", Unassigned);
      var val := LooseRef(Referenceable("A", map[], Some(foreign), [], map[]));
      ConvertOutcome(reg, "A", val, Required, setter, tc) == Created("A", Ok(Built(foreign, map[], map[]))) &&
      ValidateId(reg, "A", Some(foreign)).Err?
  {
    var empty := FieldMapping([], 0, 0, 0, 0, 0, 0, 0, 0, 0, 0, 0, 0, 0, 0, 0);
    var reg := TypeSystem(map["A" := ClassDef({}, empty, Some(map[])), "B" := ClassDef({}, empty, Some(map[]))], {});
    var foreign := Id("B", Unassigned);
    var r := Referenceable("A", map[], Some(foreign), [], map[]);
    assert Resolve(reg, "A", LooseRef(r), Required) == Construct(map[], Some(r));
    assert Traits(reg, Some(r), Some([]), tc) == Ok(map[]);
    assert ApplyFields("A", LooseRef(r), map[], [], setter) == Ok(map[]);
  }
}
