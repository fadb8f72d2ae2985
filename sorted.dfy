/** The sort-order checker of sorted/src/lib.rs: the `#[sorted]` attribute on
    enums (`__sorted`) and the `#[sorted::check]` function attribute, whose
    visitor checks every `#[sorted] match` it meets. Both report the first
    position at which the given order and the sorted order disagree. */
module Sorted {
  import opened Wrappers
  import opened Syn
  import opened LexOrder

  /** The diagnostics the checker emits (each becomes a `compile_error!`). */
  datatype Diagnostic =
    | ExpectedEnumOrMatch
    | Unsupported(arm: nat)                             // at the pattern of arm number `arm`
    | ShouldSortBefore(first: string, second: string)

  function Message(d: Diagnostic): string {
    match d
    case ExpectedEnumOrMatch => "expected enum or match expression"
    case Unsupported(_) => "unsupported by #[sorted]"
    case ShouldSortBefore(a, b) => a + " should sort before " + b
  }

  // ----- full_path -----------------------------------------------------------

  /** The segments of a path joined by `::`, with separators only between segments. */
  function JoinPath(segments: seq<Ident>): string {
    if |segments| == 0 then ""
    else if |segments| == 1 then segments[0]
    else segments[0] + "::" + JoinPath(segments[1..])
  }

  lemma {:induction false} JoinPathSnoc(segments: seq<Ident>, x: Ident)
    requires |segments| > 0
    ensures JoinPath(segments + [x]) == JoinPath(segments) + "::" + x
  {
    if |segments| > 1 {
      assert (segments + [x])[1..] == segments[1..] + [x];
      JoinPathSnoc(segments[1..], x);
    }
  }

  /** `full_path`: builds the qualified name segment by segment, putting `::`
      after every segment but the last. */
  method FullPath(segments: seq<Ident>) returns (qualified: string)
    ensures qualified == JoinPath(segments)
  {
    qualified := "";
    for x := 0 to |segments|
      invariant qualified == if x == 0 then "" else JoinPath(segments[..x]) + (if x < |segments| then "::" else "")
    {
      if x > 0 {
        JoinPathSnoc(segments[..x], segments[x]);
        assert segments[..x] + [segments[x]] == segments[..x + 1];
      }
      qualified := qualified + segments[x];
      if x != |segments| - 1 {
        qualified := qualified + "::";
      }
    }
    assert segments[..|segments|] == segments;
  }

  predicate NoColon(id: Ident) {
    forall k :: 0 <= k < |id| ==> id[k] != ':'
  }

  /** Cuts a qualified name at every `::`. */
  function SplitPath(s: string): (r: seq<string>)
    ensures |r| > 0
  {
    if |s| >= 2 && s[0] == ':' && s[1] == ':' then [""] + SplitPath(s[2..])
    else if s == [] then [""]
    else var rest := SplitPath(s[1..]); [[s[0]] + rest[0]] + rest[1..]
  }

  lemma {:induction false} SplitPathSeparator(a: string, rest: string)
    requires NoColon(a)
    ensures SplitPath(a + "::" + rest) == [a] + SplitPath(rest)
  {
    if a == [] {
      assert a + "::" + rest == "::" + rest;
      assert ("::" + rest)[2..] == rest;
    } else {
      SplitPathSeparator(a[1..], rest);
      assert (a + "::" + rest)[1..] == a[1..] + "::" + rest;
      assert [a[0]] + a[1..] == a;
    }
  }

  lemma {:induction false} SplitPathSingle(a: string)
    requires NoColon(a)
    ensures SplitPath(a) == [a]
  {
    if a != [] {
      SplitPathSingle(a[1..]);
      assert [a[0]] + a[1..] == a;
    }
  }

  /** `full_path` loses nothing: identifiers contain no `:`, so cutting the
      qualified name at `::` gives back the segments. */
  lemma {:induction false} SplitJoinPath(segments: seq<Ident>)
    requires |segments| > 0
    requires forall k :: 0 <= k < |segments| ==> NoColon(segments[k])
    ensures SplitPath(JoinPath(segments)) == segments
  {
    if |segments| == 1 {
      SplitPathSingle(segments[0]);
    } else {
      SplitJoinPath(segments[1..]);
      SplitPathSeparator(segments[0], JoinPath(segments[1..]));
      assert [segments[0]] + segments[1..] == segments;
    }
  }

  // ----- __sorted ------------------------------------------------------------

  datatype Variant = Variant(ident: Ident)

  /** The item `#[sorted]` is put on: an enum, or any other item. */
  datatype Item = ItemEnum(ident: Ident, variants: seq<Variant>) | OtherItem

  function VariantIdent(v: Variant): Ident { v.ident }

  /** `__sorted`: rejects anything but an enum; sorts a copy of the variants by
      name and reports the first index where the copy and the original differ,
      naming the variant that should come earlier. */
  method SortedItem(item: Item) returns (r: Result<(), Diagnostic>)
    ensures !item.ItemEnum? ==> r == Err(ExpectedEnumOrMatch)
    ensures item.ItemEnum? ==> (r.Ok? <==> SortedBy(item.variants, VariantIdent))
    ensures item.ItemEnum? && r.Err? ==>
      var v, s := item.variants, SortBy(item.variants, VariantIdent);
      exists i :: 0 <= i < |v|
        && (forall k :: 0 <= k < i ==> s[k].ident == v[k].ident)
        && r.error == ShouldSortBefore(s[i].ident, v[i].ident)
        && Message(r.error) == s[i].ident + " should sort before " + v[i].ident
        && Less(s[i].ident, v[i].ident)
  {
    if !item.ItemEnum? {
      return Err(ExpectedEnumOrMatch);
    }
    var variants := item.variants;
    var sorted := SortBy(variants, VariantIdent);
    var mismatch := ScanKeys(variants, sorted, VariantIdent);
    ScanMeaning(variants, VariantIdent, mismatch);
    match mismatch {
      case None =>
        return Ok(());
      case Some(i) =>
        assert forall k :: 0 <= k < i ==> sorted[k].ident == variants[k].ident by {
          forall k | 0 <= k < i ensures sorted[k].ident == variants[k].ident {
            assert VariantIdent(sorted[k]) == VariantIdent(variants[k]);
          }
        }
        assert Less(sorted[i].ident, variants[i].ident);
        return Err(ShouldSortBefore(sorted[i].ident, variants[i].ident));
    }
  }

  // ----- check: classifying the arms of a match ------------------------------

  /** The pattern of a match arm, by the shape the visitor distinguishes. */
  datatype Pat =
    | PatIdent(ident: Ident)        // `x`, `ref mut x @ ..`
    | PatTupleStruct(path: Path)    // `Error::Io(e)`
    | PatPath(path: Path)           // `Error::Fmt`
    | PatStruct(path: Path)         // `Error::Var { .. }`
    | PatWild                       // `_`
    | PatOther                      // literals, ranges, tuples, `a | b`, ...

  datatype Arm = Arm(pat: Pat)

  /** What the visitor keeps of an arm: the identifier it is sorted by (the last
      path segment) and the full path it is reported by. */
  datatype Triplet = Triplet(ident: Ident, fqPath: string)

  function TripletIdent(t: Triplet): Ident { t.ident }

  predicate Supported(p: Pat) {
    p.PatIdent? || p.PatTupleStruct? || p.PatPath? || p.PatStruct?
  }

  function TripletOf(p: Pat): Triplet
    requires Supported(p)
  {
    if p.PatIdent? then Triplet(p.ident, p.ident)
    else Triplet(p.path[|p.path| - 1], JoinPath(p.path))
  }

  /** `Triplet::from_path`: the last segment, and the full path from `full_path`. */
  method TripletFromPath(path: Path) returns (t: Triplet)
    ensures t.ident == path[|path| - 1] && t.fqPath == JoinPath(path)
  {
    var qualified := FullPath(path);
    t := Triplet(path[|path| - 1], qualified);
  }

  /** The arms that are compared: all of them but a trailing `_`. */
  function Compared(arms: seq<Arm>): seq<Arm> {
    if |arms| > 0 && arms[|arms| - 1].pat.PatWild? then arms[..|arms| - 1] else arms
  }

  /** The arms' triplets, or the index of the arm reported as unsupported: a
      pattern of another shape, or a `_` that is not the last arm. */
  function ClassifyArms(arms: seq<Arm>): Result<seq<Triplet>, nat> {
    if arms == [] then Ok([])
    else if arms[0].pat.PatWild? then
      if |arms| > 1 then Err(0) else Ok([])
    else if arms[0].pat.PatOther? then Err(0)
    else
      match ClassifyArms(arms[1..])
      case Ok(ts) => Ok([TripletOf(arms[0].pat)] + ts)
      case Err(j) => Err(j + 1)
  }

  /** The arms pass exactly when every compared arm (all but a trailing `_`)
      has a supported pattern. */
  lemma {:induction false} ClassifyArmsOk(arms: seq<Arm>)
    ensures ClassifyArms(arms).Ok? <==> forall k :: 0 <= k < |Compared(arms)| ==> Supported(Compared(arms)[k].pat)
  {
    if arms == [] {
    } else if arms[0].pat.PatWild? || arms[0].pat.PatOther? {
      if |arms| > 1 || arms[0].pat.PatOther? {
        assert Compared(arms)[0] == arms[0];
      }
    } else {
      ClassifyArmsOk(arms[1..]);
      if |arms| > 1 {
        assert Compared(arms) == [arms[0]] + Compared(arms[1..]);
      }
    }
  }

  /** When the arms pass, each compared arm gives its triplet, in order. */
  lemma {:induction false} ClassifyArmsTriplets(arms: seq<Arm>)
    requires ClassifyArms(arms).Ok?
    ensures |ClassifyArms(arms).value| == |Compared(arms)|
    ensures forall k :: 0 <= k < |ClassifyArms(arms).value| ==>
      Supported(arms[k].pat) && ClassifyArms(arms).value[k] == TripletOf(arms[k].pat)
  {
    if arms != [] && !arms[0].pat.PatWild? {
      ClassifyArmsTriplets(arms[1..]);
      if |arms| > 1 {
        assert Compared(arms) == [arms[0]] + Compared(arms[1..]);
      }
    }
  }

  /** When the arms fail, the reported arm is the first that is neither
      supported nor a trailing `_`. */
  lemma {:induction false} ClassifyArmsErr(arms: seq<Arm>)
    requires ClassifyArms(arms).Err?
    ensures var j := ClassifyArms(arms).error;
      && j < |arms|
      && (forall k :: 0 <= k < j ==> Supported(arms[k].pat))
      && (arms[j].pat.PatOther? || (arms[j].pat.PatWild? && j + 1 < |arms|))
  {
    if !arms[0].pat.PatWild? && !arms[0].pat.PatOther? {
      ClassifyArmsErr(arms[1..]);
    }
  }

  /** The arm rules, together: the arms pass exactly when every compared arm
      (all but a trailing `_`) has a supported pattern, and then each gives its
      triplet in order; otherwise the reported arm is the first that is neither
      supported nor a trailing `_`. */
  lemma ClassifyArmsRules(arms: seq<Arm>)
    ensures var r := ClassifyArms(arms);
      && (r.Ok? <==> forall k :: 0 <= k < |Compared(arms)| ==> Supported(Compared(arms)[k].pat))
      && (r.Ok? ==> |r.value| == |Compared(arms)|
                    && forall k :: 0 <= k < |r.value| ==>
                         Supported(arms[k].pat) && r.value[k] == TripletOf(arms[k].pat))
      && (r.Err? ==> r.error < |arms| && (forall k :: 0 <= k < r.error ==> Supported(arms[k].pat)))
      && (r.Err? ==> arms[r.error].pat.PatOther? || (arms[r.error].pat.PatWild? && r.error + 1 < |arms|))
  {
    ClassifyArmsOk(arms);
    if ClassifyArms(arms).Ok? {
      ClassifyArmsTriplets(arms);
    } else {
      ClassifyArmsErr(arms);
    }
  }

  function Resume(done: seq<Triplet>, offset: nat, rest: Result<seq<Triplet>, nat>): Result<seq<Triplet>, nat> {
    match rest
    case Ok(ts) => Ok(done + ts)
    case Err(j) => Err(offset + j)
  }

  lemma ClassifyNext(arms: seq<Arm>, i: nat, done: seq<Triplet>)
    requires i < |arms| && Supported(arms[i].pat)
    ensures Resume(done, i, ClassifyArms(arms[i..]))
         == Resume(done + [TripletOf(arms[i].pat)], i + 1, ClassifyArms(arms[i + 1..]))
  {
    assert arms[i..][1..] == arms[i + 1..];
    match ClassifyArms(arms[i + 1..]) {
      case Ok(ts) => assert done + ([TripletOf(arms[i].pat)] + ts) == done + [TripletOf(arms[i].pat)] + ts;
      case Err(_) =>
    }
  }

  lemma ClassifyStop(arms: seq<Arm>, i: nat, done: seq<Triplet>)
    requires i < |arms|
    requires arms[i].pat.PatOther? || (arms[i].pat.PatWild? && i + 1 < |arms|)
    ensures Resume(done, i, ClassifyArms(arms[i..])) == Err(i)
  {
  }

  lemma ClassifyTrailingWild(arms: seq<Arm>, done: seq<Triplet>)
    requires |arms| > 0 && arms[|arms| - 1].pat.PatWild?
    ensures Resume(done, |arms| - 1, ClassifyArms(arms[|arms| - 1..])) == Ok(done)
  {
    assert done + [] == done;
  }

  /** The `while let` loop over the arms: collects a triplet per arm, stops at
      a trailing `_`, and gives up at the first unsupported arm. */
  method CollectArms(arms: seq<Arm>) returns (r: Result<seq<Triplet>, nat>)
    ensures r == ClassifyArms(arms)
  {
    var unsorted: seq<Triplet> := [];
    var i := 0;
    assert arms[0..] == arms;
    match ClassifyArms(arms) {
      case Ok(ts) => assert [] + ts == ts;
      case Err(_) =>
    }
    while i < |arms|
      invariant 0 <= i <= |arms|
      invariant ClassifyArms(arms) == Resume(unsorted, i, ClassifyArms(arms[i..]))
    {
      var arm := arms[i];
      var pattern: Triplet;
      match arm.pat {
        case PatIdent(ident) =>
          pattern := Triplet(ident, ident);
        case PatTupleStruct(path) =>
          pattern := TripletFromPath(path);
        case PatPath(path) =>
          pattern := TripletFromPath(path);
        case PatStruct(path) =>
          pattern := TripletFromPath(path);
        case PatWild =>
          if i + 1 < |arms| {
            ClassifyStop(arms, i, unsorted);
            return Err(i);
          } else {
            ClassifyTrailingWild(arms, unsorted);
            break;
          }
        case PatOther =>
          ClassifyStop(arms, i, unsorted);
          return Err(i);
      }
      ClassifyNext(arms, i, unsorted);
      unsorted := unsorted + [pattern];
      i := i + 1;
    }
    if i == |arms| {
      assert arms[|arms|..] == [];
      assert unsorted + [] == unsorted;
    }
    return Ok(unsorted);
  }

  // ----- check: comparing the arms -------------------------------------------

  /** The order error for the collected arms, if any: at the first index where
      the identifiers and their sorted copy differ, the full paths of both. */
  function OrderDiagnostics(unsorted: seq<Triplet>): (ds: seq<Diagnostic>)
    ensures |ds| <= 1
  {
    var sorted := SortBy(unsorted, TripletIdent);
    match FirstMismatch(Keys(unsorted, TripletIdent), Keys(sorted, TripletIdent))
    case None => []
    case Some(i) => [ShouldSortBefore(sorted[i].fqPath, unsorted[i].fqPath)]
  }

  /** The ordering rule of a match: no error exactly when the arms are in
      ascending order of their last segments; otherwise one error at the first
      index where the arms and their sorted copy differ, naming the full path of
      the arm that should come earlier, which sorts strictly before. */
  lemma OrderDiagnosticsRules(unsorted: seq<Triplet>)
    ensures OrderDiagnostics(unsorted) == [] <==> SortedBy(unsorted, TripletIdent)
    ensures OrderDiagnostics(unsorted) != [] ==>
      var s := SortBy(unsorted, TripletIdent);
      exists i :: 0 <= i < |unsorted|
        && (forall k :: 0 <= k < i ==> s[k].ident == unsorted[k].ident)
        && OrderDiagnostics(unsorted) == [ShouldSortBefore(s[i].fqPath, unsorted[i].fqPath)]
        && Less(s[i].ident, unsorted[i].ident)
  {
    var s := SortBy(unsorted, TripletIdent);
    SortByFirstMismatch(unsorted, TripletIdent);
    var m := FirstMismatch(Keys(unsorted, TripletIdent), Keys(s, TripletIdent));
    if m.Some? {
      var i := m.value;
      assert forall k :: 0 <= k < i ==> s[k].ident == unsorted[k].ident by {
        forall k | 0 <= k < i ensures s[k].ident == unsorted[k].ident {
          assert TripletIdent(s[k]) == TripletIdent(unsorted[k]);
        }
      }
      assert Less(s[i].ident, unsorted[i].ident) by {
        assert TripletIdent(s[i]) == s[i].ident && TripletIdent(unsorted[i]) == unsorted[i].ident;
      }
      assert OrderDiagnostics(unsorted) == [ShouldSortBefore(s[i].fqPath, unsorted[i].fqPath)];
    }
  }

  /** The sort-and-scan part of the visitor: it produces exactly the
      diagnostics `OrderDiagnostics` describes. */
  method CompareArms(unsorted: seq<Triplet>) returns (err: Option<Diagnostic>)
    ensures OrderDiagnostics(unsorted) == if err.Some? then [err.value] else []
  {
    var sorted := SortBy(unsorted, TripletIdent);
    var mismatch := ScanKeys(unsorted, sorted, TripletIdent);
    ScanFindsFirstMismatch(unsorted, TripletIdent, mismatch);
    match mismatch {
      case None =>
        err := None;
      case Some(i) =>
        err := Some(ShouldSortBefore(sorted[i].fqPath, unsorted[i].fqPath));
    }
  }

  // ----- check: the attribute and the whole match ----------------------------

  /** The `find_map` over the attributes: the first one that is a bare path. */
  function FirstPathAttr(attrs: seq<Attribute>): (r: Option<nat>)
    ensures r.Some? ==> r.value < |attrs| && attrs[r.value].MetaPath?
    ensures r.Some? ==> forall k :: 0 <= k < r.value ==> !attrs[k].MetaPath?
    ensures r.None? ==> forall k :: 0 <= k < |attrs| ==> !attrs[k].MetaPath?
  {
    if attrs == [] then None
    else if attrs[0].MetaPath? then Some(0)
    else match FirstPathAttr(attrs[1..])
      case None => None
      case Some(k) => Some(k + 1)
  }

  /** The attribute that marks a match for checking: the first bare-path
      attribute, when its first segment is `sorted`. */
  function SortedAttr(attrs: seq<Attribute>): (r: Option<nat>)
    ensures r.Some? ==> r.value < |attrs| && attrs[r.value].MetaPath? && attrs[r.value].path[0] == "sorted"
    ensures r.Some? ==> forall k :: 0 <= k < r.value ==> !attrs[k].MetaPath?
    ensures r.None? ==> forall k :: 0 <= k < |attrs| && attrs[k].MetaPath? && attrs[k].path[0] == "sorted" ==>
      exists j :: 0 <= j < k && attrs[j].MetaPath?
  {
    match FirstPathAttr(attrs)
    case None => None
    case Some(i) => if attrs[i].path[0] == "sorted" then Some(i) else None
  }

  /** The attributes after the visit: the marking attribute removed, the others
      kept in their order. */
  function AttrsAfterCheck(attrs: seq<Attribute>): (r: seq<Attribute>)
    ensures SortedAttr(attrs).None? ==> r == attrs
    ensures SortedAttr(attrs).Some? ==>
      var i := SortedAttr(attrs).value;
      |r| == |attrs| - 1 && r[..i] == attrs[..i] && r[i..] == attrs[i + 1..]
  {
    match SortedAttr(attrs)
    case None => attrs
    case Some(i) => attrs[..i] + attrs[i + 1..]
  }

  /** The errors the visitor adds for one match. */
  function MatchDiagnostics(attrs: seq<Attribute>, arms: seq<Arm>): (ds: seq<Diagnostic>)
    ensures |ds| <= 1
    ensures SortedAttr(attrs).None? ==> ds == []
    ensures SortedAttr(attrs).Some? && ClassifyArms(arms).Err? ==> ds == [Unsupported(ClassifyArms(arms).error)]
    ensures SortedAttr(attrs).Some? && ClassifyArms(arms).Ok? ==> ds == OrderDiagnostics(ClassifyArms(arms).value)
  {
    match SortedAttr(attrs)
    case None => []
    case Some(_) =>
      match ClassifyArms(arms)
      case Err(j) => [Unsupported(j)]
      case Ok(unsorted) => OrderDiagnostics(unsorted)
  }

  /** A marked match passes exactly when every compared arm has a supported
      pattern and the arms are in ascending order of their last identifiers. */
  lemma MatchAcceptedIffSorted(attrs: seq<Attribute>, arms: seq<Arm>)
    requires SortedAttr(attrs).Some?
    ensures MatchDiagnostics(attrs, arms) == [] <==>
      ClassifyArms(arms).Ok? && SortedBy(ClassifyArms(arms).value, TripletIdent)
  {
    match ClassifyArms(arms)
    case Err(_) =>
    case Ok(unsorted) =>
      OrderDiagnosticsRules(unsorted);
  }

  /** A marked match whose first offending arm (a pattern of another shape, or
      a `_` that is not last) is arm `j` gets exactly one diagnostic, at that
      arm, and no order check. */
  lemma UnsupportedArmReported(attrs: seq<Attribute>, arms: seq<Arm>, j: nat)
    requires SortedAttr(attrs).Some?
    requires j < |arms| && (arms[j].pat.PatOther? || (arms[j].pat.PatWild? && j + 1 < |arms|))
    requires forall k :: 0 <= k < j ==> Supported(arms[k].pat)
    ensures MatchDiagnostics(attrs, arms) == [Unsupported(j)]
  {
    ClassifyArmsOk(arms);
    assert j < |Compared(arms)| && Compared(arms)[j] == arms[j];
    ClassifyArmsErr(arms);
  }

  /** The match node the visitor rewrites: only its attributes change. */
  class ExprMatch {
    var attrs: seq<Attribute>
    var arms: seq<Arm>

    constructor (attrs: seq<Attribute>, arms: seq<Arm>)
      ensures this.attrs == attrs && this.arms == arms
    {
      this.attrs := attrs;
      this.arms := arms;
    }
  }

  /** The visitor, which accumulates the errors it finds in `ts`. */
  class ExprVisitor {
    var ts: seq<Diagnostic>

    constructor ()
      ensures ts == []
    {
      ts := [];
    }

    /** `visit_expr_match_mut` on one match node (nested expressions aside). */
    method VisitExprMatch(node: ExprMatch)
      modifies this, node
      ensures node.arms == old(node.arms)
      ensures node.attrs == AttrsAfterCheck(old(node.attrs))
      ensures ts == old(ts) + MatchDiagnostics(old(node.attrs), node.arms)
    {
      var attrIndex := FirstPathAttr(node.attrs);
      if attrIndex.Some? {
        var index := attrIndex.value;
        if node.attrs[index].path[0] == "sorted" {
          node.attrs := node.attrs[..index] + node.attrs[index + 1..];
          var collected := CollectArms(node.arms);
          match collected {
            case Err(j) =>
              ts := ts + [Unsupported(j)];
            case Ok(unsorted) =>
              var err := CompareArms(unsorted);
              if err.Some? {
                ts := ts + [err.value];
              }
          }
        }
      }
    }
  }

  /** `check` applied to a single `match`: the attributes it leaves on the node
      and the errors it appends after the function. */
  method Check(attrs: seq<Attribute>, arms: seq<Arm>) returns (attrsOut: seq<Attribute>, errors: seq<Diagnostic>)
    ensures attrsOut == AttrsAfterCheck(attrs)
    ensures errors == MatchDiagnostics(attrs, arms)
  {
    var visitor := new ExprVisitor();
    var node := new ExprMatch(attrs, arms);
    visitor.VisitExprMatch(node);
    attrsOut, errors := node.attrs, visitor.ts;
  }
}
