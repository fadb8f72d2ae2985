/** The parts of syn's syntax tree that the three macros inspect, as plain values.
    Spans, token punctuation and everything the macros never look at are dropped. */
module Syn {
  import opened Wrappers

  type Ident = string

  /** A path `a::b::c`, given by the identifiers of its segments; syn never
      produces a path without segments. */
  type Path = p: seq<Ident> | |p| > 0 witness ["_"]

  datatype PathArguments =
    | NoArguments
    | AngleBracketed(args: seq<Type>)  // `<T, U>`; lifetime and const arguments are not modelled
    | Parenthesized                    // `Fn(A) -> B`

  datatype PathSegment = PathSegment(ident: Ident, arguments: PathArguments)

  /** A type is either a path without a qualified self (`std::vec::Vec<T>`), or
      anything else (references, tuples, arrays, `<T as Trait>::X`, ...). */
  datatype Type =
    | TypePath(segments: seq<PathSegment>)
    | OtherType

  datatype Expr = StrLit(value: string) | OtherExpr

  /** What `Attribute::parse_args::<MetaNameValue>` finds between the parentheses
      of a list attribute: `key = value`, or something that does not parse so. */
  datatype NestedMeta = NameValue(key: Path, value: Expr) | NotNameValue

  /** An attribute `#[...]`, by the shape of its meta item. */
  datatype Attribute =
    | MetaPath(path: Path)                         // #[sorted]
    | MetaList(path: Path, nested: NestedMeta)     // #[builder(each = "arg")]
    | MetaNameValue(path: Path, value: Expr)       // #[debug = "0b{:08b}"]

  /** `attr.path().is_ident(name)`: the path is that one identifier. */
  predicate IsIdent(p: Path, name: Ident) {
    p == [name]
  }

  /** `attrs.iter().find(|attr| attr.path().is_ident(name))`, as an index. */
  function FindAttr(attrs: seq<Attribute>, name: Ident): (r: Option<nat>)
    ensures r.Some? ==> r.value < |attrs| && IsIdent(attrs[r.value].path, name)
    ensures r.Some? ==> forall k :: 0 <= k < r.value ==> !IsIdent(attrs[k].path, name)
    ensures r.None? ==> forall k :: 0 <= k < |attrs| ==> !IsIdent(attrs[k].path, name)
  {
    if attrs == [] then None
    else if IsIdent(attrs[0].path, name) then Some(0)
    else match FindAttr(attrs[1..], name)
      case None => None
      case Some(k) => Some(k + 1)
  }

  datatype Field = Field(ident: Ident, ty: Type, attrs: seq<Attribute>)

  datatype Fields =
    | Named(named: seq<Field>)      // struct S { a: A, b: B }
    | Unnamed(unnamed: seq<Type>)   // struct S(A, B);
    | Unit                          // struct S;

  datatype Data = DataStruct(fields: Fields) | DataEnum | DataUnion

  datatype GenericParam =
    | TypeParam(ident: Ident, bounds: seq<Path>)
    | LifetimeParam(ident: Ident)
    | ConstParam(ident: Ident, ty: Type)

  /** The input of a derive macro: the item's name, its generic parameters and its body. */
  datatype DeriveInput = DeriveInput(ident: Ident, generics: seq<GenericParam>, data: Data)
}
