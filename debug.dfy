/** The `#[derive(CustomDebug)]` macro of debug/src/lib.rs. For a struct with
    named fields it emits `impl Debug` whose `fmt` calls `debug_struct` with the
    struct's name and one `.field(...)` per field, formatting a field through the
    string of its `#[debug = "..."]` attribute when it has one. Every type
    parameter of the struct gets a `std::fmt::Debug` bound. */
module CustomDebug {
  import opened Wrappers
  import opened Syn

  /** The panics of the macro. */
  datatype DebugError =
    | ExpectedStruct
    | ExpectedNamedFields
    | ExpectedNameValue(field: Ident)     // `#[debug]` or `#[debug(...)]`
    | ExpectedLiteralString(field: Ident) // `#[debug = <not a string literal>]`

  /** The panic message of each error. For `ExpectedNameValue` it is the message
      given to `Result::expect`, which the panic text begins with; the text goes on
      with ": " and syn's error. The other texts are exact. */
  function Message(e: DebugError): string {
    match e
    case ExpectedStruct => "Expected struct"
    case ExpectedNamedFields => "Expected named fields"
    case ExpectedNameValue(_) => "Expected name-value pattern"
    case ExpectedLiteralString(_) => "Expected literal string"
  }

  /** One `.field(name, ...)` call of the generated `fmt`: the field by
      reference, or `format_args!(fmt, &self.name)`. */
  datatype FieldEntry = Plain(name: Ident) | Formatted(name: Ident, fmt: string)

  /** The format string the `debug` attribute of a field carries, if it is
      well formed. */
  predicate HasFormat(f: Field, fmt: string) {
    && FindAttr(f.attrs, "debug").Some?
    && f.attrs[FindAttr(f.attrs, "debug").value] == MetaNameValue(["debug"], StrLit(fmt))
  }

  /** The closure of the `fmt_fields` map, for one field. */
  function FmtField(f: Field): (r: Result<FieldEntry, DebugError>)
    ensures r.Ok? ==> r.value.name == f.ident
    ensures r.Ok? ==> (r.value.Formatted? <==> FindAttr(f.attrs, "debug").Some?)
    ensures r.Ok? && r.value.Formatted? ==> HasFormat(f, r.value.fmt)
    ensures forall fmt :: HasFormat(f, fmt) ==> r == Ok(Formatted(f.ident, fmt))
    ensures r.Err? ==>
      && FindAttr(f.attrs, "debug").Some?
      && var attr := f.attrs[FindAttr(f.attrs, "debug").value];
         && !(attr.MetaNameValue? && attr.value.StrLit?)
         && r.error == (if attr.MetaNameValue? then ExpectedLiteralString(f.ident) else ExpectedNameValue(f.ident))
         && Message(r.error) == (if attr.MetaNameValue? then "Expected literal string" else "Expected name-value pattern")
  {
    match FindAttr(f.attrs, "debug")
    case None => Ok(Plain(f.ident))
    case Some(i) =>
      match f.attrs[i]
      case MetaNameValue(_, StrLit(fmt)) => Ok(Formatted(f.ident, fmt))
      case MetaNameValue(_, _) => Err(ExpectedLiteralString(f.ident))
      case _ => Err(ExpectedNameValue(f.ident))
  }

  /** `fmt_fields`, as drained by `quote!`: one entry per field in order, or
      the first field's panic. */
  function FmtFields(fields: seq<Field>): (r: Result<seq<FieldEntry>, DebugError>)
    ensures r.Ok? <==> forall k :: 0 <= k < |fields| ==> FmtField(fields[k]).Ok?
    ensures r.Ok? ==> (|r.value| == |fields| &&
      forall k :: 0 <= k < |fields| ==> Ok(r.value[k]) == FmtField(fields[k]))
    ensures r.Err? ==>
      exists k ::
        && 0 <= k < |fields|
        && FmtField(fields[k]) == Err(r.error)
        && forall j :: 0 <= j < k ==> FmtField(fields[j]).Ok?
  {
    var rs := seq(|fields|, k requires 0 <= k < |fields| => FmtField(fields[k]));
    assert forall k :: 0 <= k < |fields| ==> rs[k] == FmtField(fields[k]);
    FirstError(rs)
  }

  /** The bound `std::fmt::Debug`. */
  const DebugBound: Path := ["std", "fmt", "Debug"]

  /** The rewrite the `for_each` closure makes to one generic parameter. */
  function WithDebugBound(p: GenericParam): (q: GenericParam)
    ensures q.TypeParam? <==> p.TypeParam?
    ensures q.TypeParam? ==> q.ident == p.ident && |q.bounds| == |p.bounds| + 1
    ensures q.TypeParam? ==> q.bounds[..|p.bounds|] == p.bounds && q.bounds[|p.bounds|] == DebugBound
    ensures !p.TypeParam? ==> q == p
  {
    match p
    case TypeParam(ident, bounds) => TypeParam(ident, bounds + [DebugBound])
    case _ => p
  }

  /** Removes the last bound of a type parameter: undoes `WithDebugBound`. */
  function WithoutLastBound(p: GenericParam): GenericParam {
    match p
    case TypeParam(ident, bounds) =>
      if bounds == [] then p else TypeParam(ident, bounds[..|bounds| - 1])
    case _ => p
  }

  /** The rewrite loses nothing: the original parameter is recovered from it. */
  lemma BoundRoundTrip(p: GenericParam)
    ensures WithoutLastBound(WithDebugBound(p)) == p
  {
    if p.TypeParam? {
      assert (p.bounds + [DebugBound])[..|p.bounds|] == p.bounds;
    }
  }

  /** `params.iter_mut().for_each(...)`: pushes `std::fmt::Debug` onto the
      bounds of every type parameter, in place. */
  method AddDebugBounds(params: array<GenericParam>)
    modifies params
    ensures forall k :: 0 <= k < params.Length ==> params[k] == WithDebugBound(old(params[k]))
  {
    for k := 0 to params.Length
      invariant forall j :: 0 <= j < k ==> params[j] == WithDebugBound(old(params[j]))
      invariant forall j :: k <= j < params.Length ==> params[j] == old(params[j])
    {
      match params[k]
      case TypeParam(ident, bounds) =>
        params[k] := TypeParam(ident, bounds + [DebugBound]);
      case _ =>
    }
  }

  /** What the macro emits: `impl<generics> Debug for target<...>` whose `fmt`
      calls `debug_struct(structName)` and then `entries`. */
  datatype DebugImpl = DebugImpl(target: Ident, generics: seq<GenericParam>, structName: string, entries: seq<FieldEntry>)

  /** `derive`. The bounds are rewritten before `quote!` drains `fmt_fields`, but
      a panic while draining discards the rewritten generics with everything else. */
  method Derive(input: DeriveInput) returns (r: Result<DebugImpl, DebugError>)
    ensures !input.data.DataStruct? ==> r == Err(ExpectedStruct)
    ensures input.data.DataStruct? && !input.data.fields.Named? ==> r == Err(ExpectedNamedFields)
    ensures r.Ok? <==>
      && input.data.DataStruct? && input.data.fields.Named?
      && forall k :: 0 <= k < |input.data.fields.named| ==> FmtField(input.data.fields.named[k]).Ok?
    ensures r.Ok? ==>
      && r.value.target == input.ident
      && r.value.structName == input.ident
      && |r.value.entries| == |input.data.fields.named|
      && (forall k :: 0 <= k < |r.value.entries| ==> Ok(r.value.entries[k]) == FmtField(input.data.fields.named[k]))
      && |r.value.generics| == |input.generics|
      && forall k :: 0 <= k < |r.value.generics| ==> r.value.generics[k] == WithDebugBound(input.generics[k])
    ensures r.Err? && input.data.DataStruct? && input.data.fields.Named? ==>
      exists k ::
        && 0 <= k < |input.data.fields.named|
        && FmtField(input.data.fields.named[k]) == Err(r.error)
        && forall j :: 0 <= j < k ==> FmtField(input.data.fields.named[j]).Ok?
  {
    if !input.data.DataStruct? {
      return Err(ExpectedStruct);
    }
    if !input.data.fields.Named? {
      return Err(ExpectedNamedFields);
    }
    var fields := input.data.fields.named;
    var params := new GenericParam[|input.generics|](k requires 0 <= k < |input.generics| => input.generics[k]);
    AddDebugBounds(params);
    match FmtFields(fields)
    case Err(e) =>
      r := Err(e);
    case Ok(entries) =>
      r := Ok(DebugImpl(input.ident, params[..], input.ident, entries));
  }

  /** Every entry names its field, and is formatted exactly when the field
      carries a `debug` attribute, through that attribute's string. */
  lemma EntriesFollowFields(fields: seq<Field>, k: nat)
    requires FmtFields(fields).Ok? && k < |fields|
    ensures |FmtFields(fields).value| == |fields|
    ensures var e := FmtFields(fields).value[k];
      && e.name == fields[k].ident
      && (e.Plain? <==> FindAttr(fields[k].attrs, "debug").None?)
      && (e.Formatted? ==> HasFormat(fields[k], e.fmt))
      && forall fmt :: HasFormat(fields[k], fmt) ==> e == Formatted(fields[k].ident, fmt)
  {
    assert Ok(FmtFields(fields).value[k]) == FmtField(fields[k]);
  }
}
