/** The `#[derive(Builder)]` macro of builder/src/lib.rs. For a struct with
    named fields it generates a `<Struct>Builder` with one optional slot, one
    setter and one `build` initialiser per field, plus an extra `each` setter
    for fields marked `#[builder(each = "name")]`. Each generator is a map from
    the field list to one output descriptor per field, in field order; the
    behaviour of the generated builder is modelled on top of the descriptors. */
module Builder {
  import opened Wrappers
  import opened Syn

  /** The panics the macro can raise (rustc reports each as an error). */
  datatype BuilderError =
    | NotNamedStruct                 // unimplemented!() on anything but a struct with named fields
    | NonPathType(field: Ident)      // is_option's unimplemented!() on a field type that is not a path
    | AttrNotNameValue(field: Ident) // the #[builder(...)] arguments are not `key = value`
    | KeyNotIdent(field: Ident)      // the key is a path of several segments
    | UnexpectedKey(field: Ident)    // the key is not `each`
    | NotStringLiteral(field: Ident) // the value is not a string literal
    | NotVector(field: Ident)        // no `Vec` segment in the field type
    | NoVecInnerType(field: Ident)   // the `Vec` segment has no `<...>`

  /** The panic message of each error. For `AttrNotNameValue` it is the message
      given to `Result::expect`, which the panic text begins with; the text goes on
      with ": " and syn's parse error. The other texts are exact. */
  function Message(e: BuilderError): string {
    match e
    case NotNamedStruct => "not implemented"
    case NonPathType(_) => "not implemented"
    case AttrNotNameValue(_) => "failed parsing as name-value expr"
    case KeyNotIdent(_) => "called `Option::unwrap()` on a `None` value"
    case UnexpectedKey(_) => "Unexpected attribute key"
    case NotStringLiteral(_) => "not implemented: Expected value to be string literal"
    case NotVector(_) => "This attribute is only applicable to vectors"
    case NoVecInnerType(_) => "Expected inner type for Vec<>"
  }

  /** `segments.iter().find(|segment| segment.ident == name)`, as an index. */
  function FindSegment(segments: seq<PathSegment>, name: Ident): (r: Option<nat>)
    ensures r.Some? ==> r.value < |segments| && segments[r.value].ident == name
    ensures r.Some? ==> forall k :: 0 <= k < r.value ==> segments[k].ident != name
    ensures r.None? ==> forall k :: 0 <= k < |segments| ==> segments[k].ident != name
  {
    if segments == [] then None
    else if segments[0].ident == name then Some(0)
    else match FindSegment(segments[1..], name)
      case None => None
      case Some(k) => Some(k + 1)
  }

  /** `is_option`: whether some segment of the field's type path is named
      `Option`, with the first such segment. The source panics on a type that is
      not a path; callers check that first. */
  function IsOption(ty: Type): (r: (bool, Option<PathSegment>))
    requires ty.TypePath?
    ensures r.0 <==> exists k :: 0 <= k < |ty.segments| && ty.segments[k].ident == "Option"
    ensures r.0 ==>
      exists k ::
        && 0 <= k < |ty.segments|
        && r.1 == Some(ty.segments[k])
        && ty.segments[k].ident == "Option"
        && forall j :: 0 <= j < k ==> ty.segments[j].ident != "Option"
    ensures !r.0 ==> r.1 == None
  {
    match FindSegment(ty.segments, "Option")
    case Some(k) => (true, Some(ty.segments[k]))
    case None => (false, None)
  }

  /** `angle_bracketed_inner_type_from_segment`: the `<...>` arguments of a segment. */
  function AngleBracketedInner(segment: PathSegment): (r: Option<seq<Type>>)
    ensures r.Some? <==> segment.arguments.AngleBracketed?
    ensures r.Some? ==> segment.arguments == AngleBracketed(r.value)
  {
    match segment.arguments
    case AngleBracketed(args) => Some(args)
    case _ => None
  }

  /** `std::option::Option<ty>`, the type a builder slot gets for a required field. */
  function OptionOf(ty: Type): Type {
    TypePath([PathSegment("std", NoArguments), PathSegment("option", NoArguments),
              PathSegment("Option", AngleBracketed([ty]))])
  }

  predicate PathTyped(fields: seq<Field>) {
    forall k :: 0 <= k < |fields| ==> fields[k].ty.TypePath?
  }

  /** The first field whose type is not a path, where `is_option` gives up. */
  function FirstNonPath(fields: seq<Field>): (r: Option<nat>)
    ensures r.None? <==> PathTyped(fields)
    ensures r.Some? ==> r.value < |fields| && !fields[r.value].ty.TypePath?
    ensures r.Some? ==> forall k :: 0 <= k < r.value ==> fields[k].ty.TypePath?
  {
    if fields == [] then None
    else if !fields[0].ty.TypePath? then Some(0)
    else match FirstNonPath(fields[1..])
      case None => None
      case Some(k) => Some(k + 1)
  }

  // ----- the per-field generators --------------------------------------------

  /** A field of the builder struct: `name: ty`. */
  datatype Slot = Slot(name: Ident, ty: Type)

  /** The type of a field's slot: an optional field keeps its type, any other
      field `ty` gets `std::option::Option<ty>`. */
  function SlotType(ty: Type): (r: Type)
    requires ty.TypePath?
    ensures r.TypePath? && IsOption(r).0
    ensures IsOption(ty).0 ==> r == ty
    ensures !IsOption(ty).0 ==> r == OptionOf(ty) && IsOption(r).1 == Some(PathSegment("Option", AngleBracketed([ty])))
  {
    OptionOfIsOption(ty);
    if IsOption(ty).0 then ty else OptionOf(ty)
  }

  /** `generate_builder_fields_definition`. */
  function FieldsDefinition(fields: seq<Field>): (slots: seq<Slot>)
    requires PathTyped(fields)
    ensures |slots| == |fields|
    ensures forall k :: 0 <= k < |fields| ==>
      slots[k].name == fields[k].ident && slots[k].ty.TypePath? && IsOption(slots[k].ty).0
    ensures forall k :: 0 <= k < |fields| && IsOption(fields[k].ty).0 ==> slots[k].ty == fields[k].ty
    ensures forall k :: 0 <= k < |fields| && !IsOption(fields[k].ty).0 ==> slots[k].ty == OptionOf(fields[k].ty)
  {
    OptionsAreOptions();
    seq(|fields|, k requires 0 <= k < |fields| => Slot(fields[k].ident, SlotType(fields[k].ty)))
  }

  lemma OptionsAreOptions()
    ensures forall ty :: IsOption(OptionOf(ty)).0
  {
    forall ty { OptionOfIsOption(ty); }
  }

  lemma OptionOfIsOption(ty: Type)
    ensures IsOption(OptionOf(ty)) == (true, Some(PathSegment("Option", AngleBracketed([ty]))))
  {
    var segments := OptionOf(ty).segments;
    assert segments[0].ident == "std" && segments[1].ident == "option";
    assert FindSegment(segments[2..], "Option") == Some(0);
    assert FindSegment(segments[1..], "Option") == Some(1) by { assert segments[1..][1..] == segments[2..]; }
    assert FindSegment(segments, "Option") == Some(2);
  }

  /** `generate_builder_fields_init`: the slots `builder()` sets to `None`. */
  function FieldsInit(fields: seq<Field>): (names: seq<Ident>)
    ensures |names| == |fields| && forall k :: 0 <= k < |fields| ==> names[k] == fields[k].ident
  {
    seq(|fields|, k requires 0 <= k < |fields| => fields[k].ident)
  }

  /** A setter `fn name(&mut self, name: arg) -> &mut Self { self.name = Some(name); self }`. */
  datatype Setter = Setter(name: Ident, arg: seq<Type>)

  /** The setter's argument type: the `<...>` of the `Option` segment for an
      optional field, the field type otherwise. */
  function SetterArg(ty: Type): (r: seq<Type>)
    requires ty.TypePath?
    ensures !IsOption(ty).0 ==> r == [ty]
    ensures IsOption(ty).0 && IsOption(ty).1.value.arguments.AngleBracketed? ==>
      r == IsOption(ty).1.value.arguments.args
    ensures IsOption(ty).0 && !IsOption(ty).1.value.arguments.AngleBracketed? ==> r == [ty]
  {
    match IsOption(ty)
    case (true, Some(segment)) =>
      (match AngleBracketedInner(segment) case Some(args) => args case None => [ty])
    case _ => [ty]
  }

  /** `generate_builder_methods`. */
  function Methods(fields: seq<Field>): (setters: seq<Setter>)
    requires PathTyped(fields)
    ensures |setters| == |fields|
    ensures forall k :: 0 <= k < |fields| ==> setters[k].name == fields[k].ident
    ensures forall k :: 0 <= k < |fields| && !IsOption(fields[k].ty).0 ==> setters[k].arg == [fields[k].ty]
    ensures forall k :: 0 <= k < |fields| && IsOption(fields[k].ty).0 ==>
      setters[k].arg == AngleBracketedInner(IsOption(fields[k].ty).1.value).UnwrapOr([fields[k].ty])
  {
    seq(|fields|, k requires 0 <= k < |fields| => Setter(fields[k].ident, SetterArg(fields[k].ty)))
  }

  /** The value a setter stores, `Some(arg)`, has exactly the slot's type: the
      argument type of the setter is the inner type of the slot. */
  lemma SetterFitsSlot(ty: Type)
    requires ty.TypePath?
    ensures SlotType(ty).TypePath? && SetterArg(SlotType(ty)) == SetterArg(ty)
    ensures !IsOption(ty).0 ==> SetterArg(ty) == [ty]
  {
    OptionOfIsOption(ty);
  }

  /** A field declared `Option<T>` gets a setter taking a plain `T`. */
  lemma SetterUnwrapsOption(t: Type)
    ensures var ty := TypePath([PathSegment("Option", AngleBracketed([t]))]);
      SetterArg(ty) == [t] && SlotType(ty) == ty
  {
    var ty := TypePath([PathSegment("Option", AngleBracketed([t]))]);
    assert FindSegment(ty.segments, "Option") == Some(0);
  }

  /** How `build` fills a field: `self.name.clone()` for an optional field,
      `self.name.clone().unwrap_or_default()` (of type `ty`) otherwise. */
  datatype BuildInit = CloneSlot(name: Ident) | UnwrapOrDefault(name: Ident, ty: Type)

  /** `generate_build_fn_definition`. */
  function BuildFn(fields: seq<Field>): (inits: seq<BuildInit>)
    requires PathTyped(fields)
    ensures |inits| == |fields|
    ensures forall k :: 0 <= k < |fields| ==> inits[k].name == fields[k].ident
    ensures forall k :: 0 <= k < |fields| ==> (inits[k].CloneSlot? <==> IsOption(fields[k].ty).0)
    ensures forall k :: 0 <= k < |fields| && inits[k].UnwrapOrDefault? ==> inits[k].ty == fields[k].ty
  {
    seq(|fields|, k requires 0 <= k < |fields| =>
      if IsOption(fields[k].ty).0 then CloneSlot(fields[k].ident)
      else UnwrapOrDefault(fields[k].ident, fields[k].ty))
  }

  // ----- the `each` attribute ------------------------------------------------

  /** The extra method for a field: none, or `fn name(&mut self, name: elem)`
      pushing onto the vector in slot `field`. */
  datatype AttrMethod = NoMethod | EachMethod(name: string, field: Ident, elem: seq<Type>)

  /** The `each = "..."` argument the attribute carries, if it is well formed. */
  predicate IsEachAttr(a: Attribute, name: string) {
    && a.MetaList? && a.path == ["builder"]
    && a.nested.NameValue? && a.nested.key == ["each"] && a.nested.value == StrLit(name)
  }

  /** The field's `#[builder(...)]` attribute: the first one whose path is `builder`. */
  function BuilderAttr(f: Field): (r: Option<Attribute>)
    ensures r.None? <==> FindAttr(f.attrs, "builder").None?
    ensures r.Some? ==> r.value == f.attrs[FindAttr(f.attrs, "builder").value] && r.value.path == ["builder"]
  {
    match FindAttr(f.attrs, "builder")
    case None => None
    case Some(i) => Some(f.attrs[i])
  }

  /** The argument is `key = value` with a one-segment key. */
  predicate KeyValueArg(a: Attribute) {
    a.MetaList? && a.nested.NameValue? && |a.nested.key| == 1
  }

  /** The argument is `each = "n"` for some string `n`. */
  predicate EachStrArg(a: Attribute) {
    a.MetaList? && a.nested.NameValue? && a.nested.key == ["each"] && a.nested.value.StrLit?
  }

  /** One step of `generate_attr_methods`: the checks on `#[builder(...)]` in
      the order the source makes them. */
  function AttrMethodOf(f: Field): (r: Result<AttrMethod, BuilderError>)
    ensures BuilderAttr(f).None? ==> r == Ok(NoMethod)
    ensures r.Ok? && r.value.EachMethod? ==>
      && BuilderAttr(f).Some?
      && r.value.field == f.ident
      && r.value.name != f.ident
      && IsEachAttr(BuilderAttr(f).value, r.value.name)
      && f.ty.TypePath?
      && FindSegment(f.ty.segments, "Vec").Some?
      && f.ty.segments[FindSegment(f.ty.segments, "Vec").value].arguments == AngleBracketed(r.value.elem)
    ensures r == Ok(NoMethod) && BuilderAttr(f).Some? ==> IsEachAttr(BuilderAttr(f).value, f.ident)
    ensures r.Err? ==> !r.error.NotNamedStruct? && r.error.field == f.ident
    ensures BuilderAttr(f).Some? && !(BuilderAttr(f).value.MetaList? && BuilderAttr(f).value.nested.NameValue?) ==>
      r == Err(AttrNotNameValue(f.ident)) && Message(r.error) == "failed parsing as name-value expr"
    ensures BuilderAttr(f).Some? && BuilderAttr(f).value.MetaList? && BuilderAttr(f).value.nested.NameValue? ==>
      !KeyValueArg(BuilderAttr(f).value) ==> r == Err(KeyNotIdent(f.ident))
    ensures r == Err(UnexpectedKey(f.ident)) <==>
      BuilderAttr(f).Some? && KeyValueArg(BuilderAttr(f).value) && BuilderAttr(f).value.nested.key != ["each"]
    ensures r.Err? && r.error.UnexpectedKey? ==> Message(r.error) == "Unexpected attribute key"
    ensures BuilderAttr(f).Some? && KeyValueArg(BuilderAttr(f).value) && BuilderAttr(f).value.nested.key == ["each"] ==>
      !EachStrArg(BuilderAttr(f).value) ==> r == Err(NotStringLiteral(f.ident))
    ensures BuilderAttr(f).Some? && IsEachAttr(BuilderAttr(f).value, f.ident) ==> r == Ok(NoMethod)
    ensures BuilderAttr(f).Some? && EachStrArg(BuilderAttr(f).value) && BuilderAttr(f).value.nested.value.value != f.ident ==>
      var n := BuilderAttr(f).value.nested.value.value;
      && (!f.ty.TypePath? ==> r == Err(NonPathType(f.ident)))
      && (f.ty.TypePath? && FindSegment(f.ty.segments, "Vec").None? ==>
            r == Err(NotVector(f.ident)) && Message(r.error) == "This attribute is only applicable to vectors")
      && (f.ty.TypePath? && FindSegment(f.ty.segments, "Vec").Some? ==>
            var seg := f.ty.segments[FindSegment(f.ty.segments, "Vec").value];
            && (seg.arguments.AngleBracketed? ==> r == Ok(EachMethod(n, f.ident, seg.arguments.args)))
            && (!seg.arguments.AngleBracketed? ==> r == Err(NoVecInnerType(f.ident))))
  {
    match BuilderAttr(f)
    case None => Ok(NoMethod)
    case Some(attr) =>
      match attr
      case MetaList(_, NameValue(key, value)) =>
        if |key| != 1 then Err(KeyNotIdent(f.ident))
        else if key != ["each"] then Err(UnexpectedKey(f.ident))
        else if !value.StrLit? then Err(NotStringLiteral(f.ident))
        else if value.value == f.ident then Ok(NoMethod)
        else if !f.ty.TypePath? then Err(NonPathType(f.ident))
        else (
          match FindSegment(f.ty.segments, "Vec")
          case None => Err(NotVector(f.ident))
          case Some(k) =>
            match AngleBracketedInner(f.ty.segments[k])
            case None => Err(NoVecInnerType(f.ident))
            case Some(elem) => Ok(EachMethod(value.value, f.ident, elem))
        )
      case _ => Err(AttrNotNameValue(f.ident))
  }

  /** `generate_attr_methods`, as consumed by `quote!`: one method per field in
      order, or the first field's panic. */
  function AttrMethods(fields: seq<Field>): (r: Result<seq<AttrMethod>, BuilderError>)
    ensures r.Ok? <==> forall k :: 0 <= k < |fields| ==> AttrMethodOf(fields[k]).Ok?
    ensures r.Ok? ==> (|r.value| == |fields| &&
      forall k :: 0 <= k < |fields| ==> Ok(r.value[k]) == AttrMethodOf(fields[k]))
    ensures r.Err? ==>
      exists k ::
        && 0 <= k < |fields|
        && AttrMethodOf(fields[k]) == Err(r.error)
        && forall j :: 0 <= j < k ==> AttrMethodOf(fields[j]).Ok?
  {
    var rs := seq(|fields|, k requires 0 <= k < |fields| => AttrMethodOf(fields[k]));
    assert forall k :: 0 <= k < |fields| ==> rs[k] == AttrMethodOf(fields[k]);
    FirstError(rs)
  }

  // ----- derive --------------------------------------------------------------

  /** Everything the macro emits, as descriptors: the builder struct's slots,
      the `builder()` initialisers, the setters, the `each` methods and the
      field initialisers of `build`. */
  datatype BuilderImpl = BuilderImpl(
    target: Ident,
    builder: Ident,
    slots: seq<Slot>,
    inits: seq<Ident>,
    setters: seq<Setter>,
    eachMethods: seq<AttrMethod>,
    build: seq<BuildInit>)

  predicate NamedStruct(input: DeriveInput) {
    input.data.DataStruct? && input.data.fields.Named?
  }

  /** `derive`. The generators are lazy iterators that `quote!` drains in the
      order definitions, initialisers, setters, `each` methods, `build`; so a
      field type that is not a path stops the macro before any attribute is
      looked at, and otherwise the first field with a bad attribute does. */
  function Derive(input: DeriveInput): (r: Result<BuilderImpl, BuilderError>)
    ensures !NamedStruct(input) ==> r == Err(NotNamedStruct)
    ensures r.Ok? <==>
      && NamedStruct(input)
      && PathTyped(input.data.fields.named)
      && forall k :: 0 <= k < |input.data.fields.named| ==> AttrMethodOf(input.data.fields.named[k]).Ok?
    ensures r.Ok? ==>
      var n := |input.data.fields.named|;
      && r.value.target == input.ident
      && r.value.builder == input.ident + "Builder"
      && |r.value.slots| == |r.value.inits| == |r.value.setters| == n
      && |r.value.eachMethods| == |r.value.build| == n
    ensures NamedStruct(input) && PathTyped(input.data.fields.named) && AttrMethods(input.data.fields.named).Err? ==>
      r == Err(AttrMethods(input.data.fields.named).error)
    ensures NamedStruct(input) && FirstNonPath(input.data.fields.named).Some? ==>
      r == Err(NonPathType(input.data.fields.named[FirstNonPath(input.data.fields.named).value].ident))
  {
    if !NamedStruct(input) then Err(NotNamedStruct)
    else
      var fields := input.data.fields.named;
      match FirstNonPath(fields)
      case Some(k) => Err(NonPathType(fields[k].ident))
      case None =>
        match AttrMethods(fields)
        case Err(e) => Err(e)
        case Ok(methods) =>
          Ok(BuilderImpl(input.ident, input.ident + "Builder", FieldsDefinition(fields),
                         FieldsInit(fields), Methods(fields), methods, BuildFn(fields)))
  }

  // ----- what the generated builder does -------------------------------------

  /** Values held by a builder or produced by `build`: opaque values handed to
      setters, vectors, options, and `Default::default()` of a type. */
  datatype Value = Given(id: int) | VecOf(items: seq<Value>) | NoneValue | SomeValue(inner: Value) | DefaultOf(ty: Type)

  /** The builder's slots, by field name. */
  type BuilderState = map<Ident, Option<Value>>

  function SlotValue(st: BuilderState, name: Ident): Option<Value> {
    if name in st then st[name] else None
  }

  /** `Struct::builder()`. */
  function NewBuilder(b: BuilderImpl): (st: BuilderState)
    ensures st.Keys == set name | name in b.inits
    ensures forall name :: SlotValue(st, name) == None
  {
    map name | name in b.inits :: None
  }

  /** Calling a setter with value `v`. */
  function CallSetter(st: BuilderState, s: Setter, v: Value): (r: BuilderState)
    ensures SlotValue(r, s.name) == Some(v)
    ensures forall name :: name != s.name ==> SlotValue(r, name) == SlotValue(st, name)
  {
    st[s.name := Some(v)]
  }

  /** The slot of an `each` method's field is empty or holds a vector: rustc
      gives the slot of a `Vec` field the type `Option<Vec<_>>`. */
  predicate HoldsVector(st: BuilderState, field: Ident) {
    SlotValue(st, field).None? || SlotValue(st, field).value.VecOf?
  }

  /** Calling an `each` method with one element: `as_mut()` finds the vector
      and pushes onto it, or the slot is empty and gets `Some(vec![v])`. */
  function CallEach(st: BuilderState, m: AttrMethod, v: Value): (r: BuilderState)
    requires m.EachMethod? && HoldsVector(st, m.field)
    ensures SlotValue(r, m.field).Some? && SlotValue(r, m.field).value.VecOf?
    ensures SlotValue(st, m.field).None? ==> SlotValue(r, m.field).value.items == [v]
    ensures SlotValue(st, m.field).Some? ==>
      SlotValue(r, m.field).value.items == SlotValue(st, m.field).value.items + [v]
    ensures forall name :: name != m.field ==> SlotValue(r, name) == SlotValue(st, name)
  {
    if SlotValue(st, m.field).Some? then st[m.field := Some(VecOf(SlotValue(st, m.field).value.items + [v]))]
    else st[m.field := Some(VecOf([v]))]
  }

  /** Calling an `each` method once per element of `vs`, in order. */
  function CallEachAll(st: BuilderState, m: AttrMethod, vs: seq<Value>): (r: BuilderState)
    requires m.EachMethod? && HoldsVector(st, m.field)
    ensures HoldsVector(r, m.field)
  {
    if vs == [] then st else CallEach(CallEachAll(st, m, vs[..|vs| - 1]), m, vs[|vs| - 1])
  }

  function BuildValue(st: BuilderState, init: BuildInit): Value {
    match init
    case CloneSlot(name) =>
      (match SlotValue(st, name) case Some(v) => SomeValue(v) case None => NoneValue)
    case UnwrapOrDefault(name, ty) =>
      (match SlotValue(st, name) case Some(v) => v case None => DefaultOf(ty))
  }

  /** `build()`: its body is `Ok(Struct { .. })`, so it yields the field values
      for every state of the builder and never an error. */
  function CallBuild(st: BuilderState, build: seq<BuildInit>): (out: seq<Value>)
    ensures |out| == |build|
    ensures forall k :: 0 <= k < |build| && build[k].CloneSlot? ==>
      out[k] == if SlotValue(st, build[k].name).None? then NoneValue else SomeValue(SlotValue(st, build[k].name).value)
    ensures forall k :: 0 <= k < |build| && build[k].UnwrapOrDefault? ==>
      out[k] == SlotValue(st, build[k].name).UnwrapOr(DefaultOf(build[k].ty))
  {
    seq(|build|, k requires 0 <= k < |build| => BuildValue(st, build[k]))
  }

  /** What `build` gives for a field that was never set. */
  function Unset(f: Field): Value
    requires f.ty.TypePath?
  {
    if IsOption(f.ty).0 then NoneValue else DefaultOf(f.ty)
  }

  predicate DistinctNames(fields: seq<Field>) {
    forall i, j :: 0 <= i < j < |fields| ==> fields[i].ident != fields[j].ident
  }

  /** The parts of a successful expansion, field by field. */
  lemma DeriveParts(input: DeriveInput)
    requires Derive(input).Ok?
    ensures var b, fields := Derive(input).value, input.data.fields.named;
      && NamedStruct(input)
      && PathTyped(fields)
      && b.slots == FieldsDefinition(fields)
      && b.inits == FieldsInit(fields)
      && b.setters == Methods(fields)
      && b.build == BuildFn(fields)
      && |b.eachMethods| == |fields|
      && forall k :: 0 <= k < |fields| ==> Ok(b.eachMethods[k]) == AttrMethodOf(fields[k])
  {
  }

  /** The builder `b` was generated from `fields`. */
  predicate GeneratedFrom(b: BuilderImpl, fields: seq<Field>) {
    && PathTyped(fields)
    && b.inits == FieldsInit(fields)
    && b.build == BuildFn(fields)
  }

  /** `build` reads back, for each field, the slot of the same name. */
  lemma BuildReadsSlots(b: BuilderImpl, fields: seq<Field>, st: BuilderState, k: nat)
    requires GeneratedFrom(b, fields) && k < |fields|
    ensures |CallBuild(st, b.build)| == |fields|
    ensures CallBuild(st, b.build)[k] ==
      match SlotValue(st, fields[k].ident)
      case None => Unset(fields[k])
      case Some(v) => if IsOption(fields[k].ty).0 then SomeValue(v) else v
  {
  }

  /** A builder built without calling any setter gives `None` for every
      optional field and the type's default for every other field. */
  lemma BuildUnset(input: DeriveInput)
    requires Derive(input).Ok?
    ensures var b, fields := Derive(input).value, input.data.fields.named;
      && PathTyped(fields)
      && |CallBuild(NewBuilder(b), b.build)| == |fields|
      && forall k :: 0 <= k < |fields| ==> CallBuild(NewBuilder(b), b.build)[k] == Unset(fields[k])
  {
    var b, fields := Derive(input).value, input.data.fields.named;
    DeriveParts(input);
    forall k | 0 <= k < |fields|
      ensures CallBuild(NewBuilder(b), b.build)[k] == Unset(fields[k])
    {
      BuildReadsSlots(b, fields, NewBuilder(b), k);
    }
  }

  /** Fields with distinct names have distinct names at distinct positions. */
  lemma DistinctAt(fields: seq<Field>, j: nat, k: nat)
    requires DistinctNames(fields) && j < |fields| && k < |fields| && j != k
    ensures fields[j].ident != fields[k].ident
  {
    if j > k {
      assert fields[k].ident != fields[j].ident;
    }
  }

  /** The effect of one setter call on `build`, for a builder generated from `fields`. */
  lemma SetThenBuildFrom(b: BuilderImpl, fields: seq<Field>, k: nat, v: Value)
    requires GeneratedFrom(b, fields) && b.setters == Methods(fields)
    requires k < |fields| && DistinctNames(fields)
    ensures var out := CallBuild(CallSetter(NewBuilder(b), b.setters[k], v), b.build);
      && |out| == |fields|
      && out[k] == (if IsOption(fields[k].ty).0 then SomeValue(v) else v)
      && forall j :: 0 <= j < |fields| && j != k ==> out[j] == Unset(fields[j])
  {
    var st := CallSetter(NewBuilder(b), b.setters[k], v);
    BuildReadsSlots(b, fields, st, k);
    forall j | 0 <= j < |fields| && j != k
      ensures CallBuild(st, b.build)[j] == Unset(fields[j])
    {
      DistinctAt(fields, j, k);
      BuildReadsSlots(b, fields, st, j);
    }
  }

  /** After one setter call, `build` gives the value set for that field (wrapped
      in `Some` for an optional field) and the unset value for every other. */
  lemma SetThenBuild(input: DeriveInput, k: nat, v: Value)
    requires Derive(input).Ok?
    requires k < |input.data.fields.named| && DistinctNames(input.data.fields.named)
    ensures var b, fields := Derive(input).value, input.data.fields.named;
      var out := CallBuild(CallSetter(NewBuilder(b), b.setters[k], v), b.build);
      && PathTyped(fields)
      && |out| == |fields|
      && out[k] == (if IsOption(fields[k].ty).0 then SomeValue(v) else v)
      && forall j :: 0 <= j < |fields| && j != k ==> out[j] == Unset(fields[j])
  {
    DeriveParts(input);
    SetThenBuildFrom(Derive(input).value, input.data.fields.named, k, v);
  }

  lemma {:induction false} EachAccumulates(st: BuilderState, m: AttrMethod, vs: seq<Value>)
    requires m.EachMethod? && SlotValue(st, m.field) == None && |vs| > 0
    ensures SlotValue(CallEachAll(st, m, vs), m.field) == Some(VecOf(vs))
    ensures forall name :: name != m.field ==> SlotValue(CallEachAll(st, m, vs), name) == SlotValue(st, name)
  {
    var init, last := vs[..|vs| - 1], vs[|vs| - 1];
    assert CallEachAll(st, m, vs) == CallEach(CallEachAll(st, m, init), m, last);
    if init == [] {
      assert CallEachAll(st, m, init) == st;
      assert vs == [last];
    } else {
      EachAccumulates(st, m, init);
      assert init + [last] == vs;
    }
  }

  /** `each` calls on a slot that already holds a vector, for instance one
      stored by the field's plain setter, push onto that vector. */
  lemma {:induction false} EachExtends(st: BuilderState, m: AttrMethod, xs: seq<Value>, vs: seq<Value>)
    requires m.EachMethod? && SlotValue(st, m.field) == Some(VecOf(xs))
    ensures SlotValue(CallEachAll(st, m, vs), m.field) == Some(VecOf(xs + vs))
    ensures forall name :: name != m.field ==> SlotValue(CallEachAll(st, m, vs), name) == SlotValue(st, name)
  {
    if vs == [] {
      assert xs + vs == xs;
    } else {
      var init, last := vs[..|vs| - 1], vs[|vs| - 1];
      assert CallEachAll(st, m, vs) == CallEach(CallEachAll(st, m, init), m, last);
      EachExtends(st, m, xs, init);
      assert xs + init + [last] == xs + vs;
    }
  }

  /** The plain setter of a `Vec` field followed by its `each` method: the
      pushed elements come after the vector the setter stored. */
  lemma SetThenEach(st: BuilderState, s: Setter, m: AttrMethod, xs: seq<Value>, vs: seq<Value>)
    requires m.EachMethod? && s.name == m.field
    ensures HoldsVector(CallSetter(st, s, VecOf(xs)), m.field)
    ensures SlotValue(CallEachAll(CallSetter(st, s, VecOf(xs)), m, vs), m.field) == Some(VecOf(xs + vs))
  {
    EachExtends(CallSetter(st, s, VecOf(xs)), m, xs, vs);
  }

  /** The effect of `each` calls on `build`, for a builder generated from `fields`. */
  lemma EachThenBuildFrom(b: BuilderImpl, fields: seq<Field>, k: nat, m: AttrMethod, vs: seq<Value>)
    requires GeneratedFrom(b, fields) && k < |fields| && DistinctNames(fields)
    requires m.EachMethod? && m.field == fields[k].ident && |vs| > 0
    ensures var out := CallBuild(CallEachAll(NewBuilder(b), m, vs), b.build);
      && |out| == |fields|
      && out[k] == (if IsOption(fields[k].ty).0 then SomeValue(VecOf(vs)) else VecOf(vs))
      && forall j :: 0 <= j < |fields| && j != k ==> out[j] == Unset(fields[j])
  {
    EachAccumulates(NewBuilder(b), m, vs);
    var st := CallEachAll(NewBuilder(b), m, vs);
    BuildReadsSlots(b, fields, st, k);
    forall j | 0 <= j < |fields| && j != k
      ensures CallBuild(st, b.build)[j] == Unset(fields[j])
    {
      DistinctAt(fields, j, k);
      BuildReadsSlots(b, fields, st, j);
    }
  }

  /** Calling a field's `each` method with `x1`, ..., `xn` (n > 0) on a fresh
      builder makes `build` give the vector `[x1, ..., xn]` for that field, and
      leaves every other field unset. */
  lemma EachThenBuild(input: DeriveInput, k: nat, vs: seq<Value>)
    requires Derive(input).Ok?
    requires k < |input.data.fields.named| && DistinctNames(input.data.fields.named)
    requires Derive(input).value.eachMethods[k].EachMethod? && |vs| > 0
    ensures var b, fields := Derive(input).value, input.data.fields.named;
      var out := CallBuild(CallEachAll(NewBuilder(b), b.eachMethods[k], vs), b.build);
      && PathTyped(fields)
      && |out| == |fields|
      && out[k] == (if IsOption(fields[k].ty).0 then SomeValue(VecOf(vs)) else VecOf(vs))
      && forall j :: 0 <= j < |fields| && j != k ==> out[j] == Unset(fields[j])
  {
    var b, fields := Derive(input).value, input.data.fields.named;
    DeriveParts(input);
    var m := b.eachMethods[k];
    assert m.field == fields[k].ident by {
      assert Ok(m) == AttrMethodOf(fields[k]);
    }
    EachThenBuildFrom(b, fields, k, m, vs);
  }
}
