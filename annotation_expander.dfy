/**
 * Model of `AnnotationExpander` (package com.github.mygreen.supercsv.builder).
 *
 * The annotations of a field are rewritten into a list of expanded annotations: repeatable
 * containers are unpacked (each element remembers its position as an index), annotations
 * meta-annotated with `@CsvComposition` become a parent whose children are the expansions of
 * their own meta-annotations, with attributes overridden through `@CsvOverridesAttribute`
 * bindings and `message`/`groups`/`cases` inherited from the composed annotation. Every list
 * is sorted by the expander's comparator.
 *
 * Reflection is replaced by data: an annotation carries its type (name, meta-annotations and
 * attribute methods), its attribute values, and the annotation array its `value()` returns, if any.
 */
module AnnotationExpander {
  import opened Wrappers
  import opened Sorting

  const RepeatableName := "java.lang.annotation.Repeatable"
  const CompositionName := "com.github.mygreen.supercsv.annotation.CsvComposition"
  const ConstraintName := "com.github.mygreen.supercsv.annotation.constraint.CsvConstraint"
  const ConversionName := "com.github.mygreen.supercsv.annotation.conversion.CsvConversion"
  const FormatPackage := "com.github.mygreen.supercsv.annotation.format"

  datatype BuildCase = Read | Write

  /** The Java type of an attribute, as far as the expander tells types apart. */
  datatype Kind = StringKind | ClassArrayKind | BuildCaseArrayKind | OtherKind(typeName: string)

  /** An attribute value: a String, a Class[] (by class names), a BuildCase[], or anything else. */
  datatype Value =
    | Str(s: string)
    | ClassArray(classNames: seq<string>)
    | BuildCaseArray(cases: seq<BuildCase>)
    | OtherValue(typeName: string, repr: string)

  /** One `@CsvOverridesAttribute(annotation, name, index)` on an attribute method. */
  datatype Binding = Binding(annotation: string, name: string, index: int)

  /**
   * An attribute method of an annotation type, with the `@CsvOverridesAttribute` bindings it
   * carries: a single one first, then the elements of a `@CsvOverridesAttribute.List`.
   */
  datatype AttrMethod = AttrMethod(name: string, returnKind: Kind, bindings: seq<Binding>)

  /** An annotation type: its fully qualified name, its meta-annotations and its methods. */
  datatype AnnoType = AnnoType(name: string, meta: seq<Annotation>, methods: seq<AttrMethod>)

  /** What `value()` of an annotation returns, as far as repetition is concerned. */
  datatype ValueArray =
    | NoArray                           // no `value()`, or it does not return an `Annotation[]`
    | AnnotationArray(items: seq<Annotation>)

  /** An annotation instance: its type, its attribute values and its `value()` array. */
  datatype Annotation = Annotation(atype: AnnoType, attrs: map<string, Value>, elements: ValueArray)

  /** `ExpandedAnnotation`: the (possibly rewritten) annotation, the composed flag, index and children. */
  datatype Expanded = Expanded(original: Annotation, composed: bool, index: int, children: seq<Expanded>)

  /** The exceptions the expander raises. */
  datatype ExpandError =
    | NullPointer                                   // NullPointerException from Objects.requireNonNull
    | AttributeNotFound(composition: string, target: string, attrName: string, attrKind: Kind)
                                                    // SuperCsvInvalidAnnotationException
    | AttributeAccess(composition: string, attrName: string)
                                                    // SuperCsvReflectionException
    | RepeatedValueFailure(cause: ExpandError)      // RuntimeException "fail get repeated value attribute."

  /** `Comparator<Annotation>` as "orders before or with". */
  type Comparator = (Annotation, Annotation) -> bool

  /** The comparator on expanded annotations: it compares their originals. */
  function ExpandedOrder(le: Comparator): (Expanded, Expanded) -> bool {
    (x: Expanded, y: Expanded) => le(x.original, y.original)
  }

  lemma ExpandedOrderIsPreorder(le: Comparator)
    requires TotalPreorder(le)
    ensures TotalPreorder(ExpandedOrder(le))
  {
    var e := ExpandedOrder(le);
    forall x: Expanded, y: Expanded ensures e(x, y) || e(y, x) {
      assert le(x.original, y.original) || le(y.original, x.original);
    }
    forall x: Expanded, y: Expanded, z: Expanded | e(x, y) && e(y, z) ensures e(x, z) {
      assert le(x.original, y.original) && le(y.original, z.original);
    }
  }

  /** The constructor's null check of the comparator. */
  function NewAnnotationExpander(comparator: Option<Comparator>): (r: Result<Comparator, ExpandError>)
    ensures r.Failure? <==> comparator.None?
    ensures r.Failure? ==> r.error == NullPointer
  {
    match comparator
    case None => Failure(NullPointer)
    case Some(c) => Success(c)
  }

  function KindOf(v: Value): Kind {
    match v
    case Str(_) => StringKind
    case ClassArray(_) => ClassArrayKind
    case BuildCaseArray(_) => BuildCaseArrayKind
    case OtherValue(t, _) => OtherKind(t)
  }

  predicate StartsWith(s: string, prefix: string) {
    |prefix| <= |s| && s[..|prefix|] == prefix
  }

  /** `annotationType().getAnnotation(X.class) != null`, X given by name. */
  predicate HasMeta(t: AnnoType, name: string) {
    exists i :: 0 <= i < |t.meta| && t.meta[i].atype.name == name
  }

  /** `value()` returns a non-empty annotation array whose first element's type is `@Repeatable`. */
  predicate IsRepeated(a: Annotation) {
    a.elements.AnnotationArray? && |a.elements.items| > 0 && HasMeta(a.elements.items[0].atype, RepeatableName)
  }

  /** The type is meta-annotated with `@CsvComposition`. */
  predicate IsComposed(a: Annotation) {
    HasMeta(a.atype, CompositionName)
  }

  /** Constraint, conversion and format annotations may have their attributes overridden. */
  predicate IsOverridableAnnotation(a: Annotation) {
    || HasMeta(a.atype, ConstraintName)
    || HasMeta(a.atype, ConversionName)
    || StartsWith(a.atype.name, FormatPackage)
  }

  /** `Utils.hasAnnotationAttribute`: the attribute exists with the given type. */
  predicate HasAttribute(a: Annotation, name: string, kind: Kind) {
    name in a.attrs && KindOf(a.attrs[name]) == kind
  }

  /** `Utils.isNotEmpty` on a String or an array. */
  predicate IsNotEmpty(v: Value) {
    match v
    case Str(s) => s != ""
    case ClassArray(cs) => cs != []
    case BuildCaseArray(cs) => cs != []
    case OtherValue(_, _) => true
  }

  /** The binding concerns this target: same annotation type, and any index or the target's index. */
  predicate Applies(b: Binding, target: Expanded) {
    b.annotation == target.original.atype.name && (b.index < 0 || b.index == target.index)
  }

  /** The attribute a binding names: its `name`, or the method's own name when that is empty. */
  function AttrNameOf(m: AttrMethod, b: Binding): string {
    if b.name == "" then m.name else b.name
  }

  // ---------------------------------------------------------------------------------------------
  // buildOverrideAttribute, as functions

  /** What `buildOverrideAttribute` accumulates: the override map and the names of bound methods. */
  datatype Overrides = Overrides(attrs: map<string, Value>, methodNames: set<string>)

  /** One binding of method `m` of the composed annotation `comp`, applied to `acc`. */
  function ApplyBinding(comp: Annotation, target: Expanded, m: AttrMethod, b: Binding,
                        acc: map<string, Value>): Result<map<string, Value>, ExpandError>
  {
    if !Applies(b, target) then Success(acc)
    else
      var attrName := AttrNameOf(m, b);
      if !HasAttribute(target.original, attrName, m.returnKind) then
        Failure(AttributeNotFound(comp.atype.name, target.original.atype.name, attrName, m.returnKind))
      else if m.name !in comp.attrs then
        Failure(AttributeAccess(comp.atype.name, attrName))
      else
        Success(acc[attrName := comp.attrs[m.name]])
  }

  /** The bindings of `m` from the `j`-th on, applied in order. */
  function ApplyBindings(comp: Annotation, target: Expanded, m: AttrMethod, j: nat,
                         acc: map<string, Value>): Result<map<string, Value>, ExpandError>
    decreases |m.bindings| - j
  {
    if j >= |m.bindings| then Success(acc)
    else
      match ApplyBinding(comp, target, m, m.bindings[j], acc)
      case Failure(e) => Failure(e)
      case Success(acc') => ApplyBindings(comp, target, m, j + 1, acc')
  }

  /** The methods of `comp` from the `i`-th on; methods without bindings are skipped. */
  function CollectBindings(comp: Annotation, target: Expanded, i: nat, st: Overrides): Result<Overrides, ExpandError>
    decreases |comp.atype.methods| - i
  {
    if i >= |comp.atype.methods| then Success(st)
    else
      var m := comp.atype.methods[i];
      if m.bindings == [] then CollectBindings(comp, target, i + 1, st)
      else
        match ApplyBindings(comp, target, m, 0, st.attrs)
        case Failure(e) => Failure(e)
        case Success(attrs) => CollectBindings(comp, target, i + 1, Overrides(attrs, st.methodNames + {m.name}))
  }

  /** Copies a common attribute (`message`, `groups`, `cases`) of `comp` when the rules allow it. */
  function Inherit(comp: Annotation, target: Annotation, st: Overrides, name: string, kind: Kind): Overrides {
    if && name !in st.attrs
       && name !in st.methodNames
       && HasAttribute(target, name, kind)
       && HasAttribute(comp, name, kind)
       && IsNotEmpty(comp.attrs[name])
    then Overrides(st.attrs[name := comp.attrs[name]], st.methodNames)
    else st
  }

  /** The attributes of `target` that the composed annotation `comp` overrides. */
  function OverrideAttrsOf(comp: Annotation, target: Expanded): Result<map<string, Value>, ExpandError> {
    match CollectBindings(comp, target, 0, Overrides(map[], {}))
    case Failure(e) => Failure(e)
    case Success(st) => Success(InheritCommon(comp, target.original, st).attrs)
  }

  /** `message`, then `groups`, then `cases`. */
  function InheritCommon(comp: Annotation, target: Annotation, st: Overrides): Overrides {
    var st1 := Inherit(comp, target, st, "message", StringKind);
    var st2 := Inherit(comp, target, st1, "groups", ClassArrayKind);
    Inherit(comp, target, st2, "cases", BuildCaseArrayKind)
  }

  /** `overrideAttribute`: the nested entry with the overridden attributes, or unchanged. */
  function OverriddenOf(comp: Annotation, nested: Expanded): Result<Expanded, ExpandError> {
    if !IsOverridableAnnotation(nested.original) then Success(nested)
    else
      match OverrideAttrsOf(comp, nested)
      case Failure(e) => Failure(e)
      case Success(o) =>
        if o == map[] then Success(nested)
        else Success(nested.(original := nested.original.(attrs := nested.original.attrs + o)))
  }

  // ---------------------------------------------------------------------------------------------
  // expand, as functions

  function Prepend(xs: seq<Expanded>, r: Result<seq<Expanded>, ExpandError>): Result<seq<Expanded>, ExpandError> {
    match r
    case Failure(e) => Failure(e)
    case Success(ys) => Success(xs + ys)
  }

  lemma PrependNil(r: Result<seq<Expanded>, ExpandError>)
    ensures Prepend([], r) == r
  {
    if r.Success? {
      assert [] + r.value == r.value;
    }
  }

  lemma PrependPrepend(xs: seq<Expanded>, ys: seq<Expanded>, r: Result<seq<Expanded>, ExpandError>)
    ensures Prepend(xs, Prepend(ys, r)) == Prepend(xs + ys, r)
  {
    if r.Success? {
      assert xs + (ys + r.value) == (xs + ys) + r.value;
    }
  }

  /** `setIndex(k)` on every entry. */
  function WithIndex(xs: seq<Expanded>, k: int): (r: seq<Expanded>)
    ensures |r| == |xs|
    ensures forall i :: 0 <= i < |xs| ==> r[i] == xs[i].(index := k)
  {
    seq(|xs|, i requires 0 <= i < |xs| => xs[i].(index := k))
  }

  /** `overrideAttribute` mapped over a list, stopping at the first failure. */
  function OverrideAll(comp: Annotation, xs: seq<Expanded>): Result<seq<Expanded>, ExpandError> {
    if xs == [] then Success([])
    else
      match OverriddenOf(comp, xs[0])
      case Failure(e) => Failure(e)
      case Success(y) => Prepend([y], OverrideAll(comp, xs[1..]))
  }

  /** `expand(Annotation)`. */
  function ExpansionOf(le: Comparator, a: Annotation): Result<seq<Expanded>, ExpandError>
    decreases a, 2, 0
  {
    if IsRepeated(a) then
      match ElementExpansions(le, a, 0)
      case Failure(e) => Failure(RepeatedValueFailure(e))
      case Success(xs) => Success(SortBy(ExpandedOrder(le), xs))
    else if IsComposed(a) then
      match ChildExpansions(le, a, 0)
      case Failure(e) => Failure(e)
      case Success(cs) => Success(SortBy(ExpandedOrder(le), [Expanded(a, true, 0, SortBy(ExpandedOrder(le), cs))]))
    else
      Success(SortBy(ExpandedOrder(le), [Expanded(a, false, 0, [])]))
  }

  /** The elements of a repeated container from the `k`-th on, each entry carrying its element's index. */
  function ElementExpansions(le: Comparator, a: Annotation, k: nat): Result<seq<Expanded>, ExpandError>
    requires a.elements.AnnotationArray?
    decreases a, 1, |a.elements.items| - k
  {
    if k >= |a.elements.items| then Success([])
    else
      match ExpansionOf(le, a.elements.items[k])
      case Failure(e) => Failure(e)
      case Success(xs) => Prepend(WithIndex(xs, k), ElementExpansions(le, a, k + 1))
  }

  /** The meta-annotations of a composed annotation from the `k`-th on, expanded and overridden. */
  function ChildExpansions(le: Comparator, a: Annotation, k: nat): Result<seq<Expanded>, ExpandError>
    decreases a, 1, |a.atype.meta| - k
  {
    if k >= |a.atype.meta| then Success([])
    else
      match ExpansionOf(le, a.atype.meta[k])
      case Failure(e) => Failure(e)
      case Success(xs) =>
        match OverrideAll(a, xs)
        case Failure(e) => Failure(e)
        case Success(ys) => Prepend(ys, ChildExpansions(le, a, k + 1))
  }

  /** The annotations of an array from the `i`-th on, expanded and concatenated; null is an error. */
  function ConcatExpansions(le: Comparator, annos: seq<Option<Annotation>>, i: nat): Result<seq<Expanded>, ExpandError>
    decreases |annos| - i
  {
    if i >= |annos| then Success([])
    else if annos[i].None? then Failure(NullPointer)
    else
      match ExpansionOf(le, annos[i].value)
      case Failure(e) => Failure(e)
      case Success(xs) => Prepend(xs, ConcatExpansions(le, annos, i + 1))
  }

  /** `expand(Annotation[])`. */
  function ExpansionOfAll(le: Comparator, annos: Option<seq<Option<Annotation>>>): Result<seq<Expanded>, ExpandError> {
    if annos.None? then Failure(NullPointer)
    else
      match ConcatExpansions(le, annos.value, 0)
      case Failure(e) => Failure(e)
      case Success(xs) => Success(SortBy(ExpandedOrder(le), xs))
  }

  // ---------------------------------------------------------------------------------------------
  // Properties of the expansion

  /** The entries an annotation expands to, or none when its expansion fails. */
  function Entries(le: Comparator, a: Annotation): seq<Expanded> {
    match ExpansionOf(le, a)
    case Success(xs) => xs
    case Failure(_) => []
  }

  /** Every level of an expanded tree is sorted. */
  ghost predicate LevelsSorted(le: Comparator, x: Expanded)
    decreases x
  {
    && SortedBy(ExpandedOrder(le), x.children)
    && forall c :: c in x.children ==> LevelsSorted(le, c)
  }

  lemma {:induction false} OverrideAllFacts(comp: Annotation, xs: seq<Expanded>)
    ensures OverrideAll(comp, xs).Success? <==> forall i :: 0 <= i < |xs| ==> OverriddenOf(comp, xs[i]).Success?
    ensures OverrideAll(comp, xs).Success? ==>
      && |OverrideAll(comp, xs).value| == |xs|
      && forall i :: 0 <= i < |xs| ==> OverrideAll(comp, xs).value[i] == OverriddenOf(comp, xs[i]).value
    decreases |xs|
  {
    if xs != [] {
      OverrideAllFacts(comp, xs[1..]);
      assert forall i :: 0 < i < |xs| ==> xs[1..][i - 1] == xs[i];
      if OverriddenOf(comp, xs[0]).Success? && !OverrideAll(comp, xs[1..]).Success? {
        var i :| 0 <= i < |xs[1..]| && !OverriddenOf(comp, xs[1..][i]).Success?;
        assert !OverriddenOf(comp, xs[i + 1]).Success?;
      }
    }
  }

  lemma ElementExpansionsStep(le: Comparator, a: Annotation, k: nat)
    requires a.elements.AnnotationArray?
    requires k < |a.elements.items|
    ensures ElementExpansions(le, a, k).Success? <==>
      ExpansionOf(le, a.elements.items[k]).Success? && ElementExpansions(le, a, k + 1).Success?
    ensures ElementExpansions(le, a, k).Success? ==>
      ElementExpansions(le, a, k).value
        == WithIndex(Entries(le, a.elements.items[k]), k) + ElementExpansions(le, a, k + 1).value
  {
  }

  lemma {:induction false} ElementExpansionsSuccess(le: Comparator, a: Annotation, k: nat)
    requires a.elements.AnnotationArray?
    requires k <= |a.elements.items|
    ensures ElementExpansions(le, a, k).Success? <==>
      forall j :: k <= j < |a.elements.items| ==> ExpansionOf(le, a.elements.items[j]).Success?
    decreases |a.elements.items| - k
  {
    if k < |a.elements.items| {
      ElementExpansionsStep(le, a, k);
      ElementExpansionsSuccess(le, a, k + 1);
    }
  }

  lemma {:induction false} ElementExpansionsMembers(le: Comparator, a: Annotation, k: nat)
    requires a.elements.AnnotationArray?
    requires k <= |a.elements.items|
    requires ElementExpansions(le, a, k).Success?
    ensures forall j, y :: k <= j < |a.elements.items| && y in Entries(le, a.elements.items[j]) ==>
      y.(index := j) in ElementExpansions(le, a, k).value
    ensures forall x :: x in ElementExpansions(le, a, k).value ==>
      && k <= x.index < |a.elements.items|
      && exists y :: y in Entries(le, a.elements.items[x.index]) && x == y.(index := x.index)
    decreases |a.elements.items| - k
  {
    var items := a.elements.items;
    if k < |items| {
      ElementExpansionsStep(le, a, k);
      ElementExpansionsMembers(le, a, k + 1);
      var es := Entries(le, items[k]);
      var w := WithIndex(es, k);
      var rest := ElementExpansions(le, a, k + 1).value;
      assert ElementExpansions(le, a, k).value == w + rest;
      forall j, y | k <= j < |items| && y in Entries(le, items[j]) ensures y.(index := j) in w + rest {
        if j == k {
          var i :| 0 <= i < |es| && es[i] == y;
          assert w[i] == y.(index := k);
        }
      }
      forall x | x in w + rest
        ensures k <= x.index < |items| && exists y :: y in Entries(le, items[x.index]) && x == y.(index := x.index)
      {
        if x in w {
          var i :| 0 <= i < |w| && w[i] == x;
          assert es[i] in Entries(le, items[x.index]) && x == es[i].(index := x.index);
        }
      }
    }
  }

  lemma ChildExpansionsStep(le: Comparator, a: Annotation, k: nat)
    requires k < |a.atype.meta|
    ensures ChildExpansions(le, a, k).Success? <==>
      && ExpansionOf(le, a.atype.meta[k]).Success?
      && OverrideAll(a, Entries(le, a.atype.meta[k])).Success?
      && ChildExpansions(le, a, k + 1).Success?
    ensures ChildExpansions(le, a, k).Success? ==>
      ChildExpansions(le, a, k).value
        == OverrideAll(a, Entries(le, a.atype.meta[k])).value + ChildExpansions(le, a, k + 1).value
  {
  }

  lemma {:induction false} ChildExpansionsSuccess(le: Comparator, a: Annotation, k: nat)
    requires k <= |a.atype.meta|
    ensures ChildExpansions(le, a, k).Success? <==>
      forall j :: k <= j < |a.atype.meta| ==>
        && ExpansionOf(le, a.atype.meta[j]).Success?
        && forall y :: y in Entries(le, a.atype.meta[j]) ==> OverriddenOf(a, y).Success?
    decreases |a.atype.meta| - k
  {
    var meta := a.atype.meta;
    if k < |meta| {
      ChildExpansionsStep(le, a, k);
      ChildExpansionsSuccess(le, a, k + 1);
      var es := Entries(le, meta[k]);
      OverrideAllFacts(a, es);
      if ExpansionOf(le, meta[k]).Success? && !OverrideAll(a, es).Success? {
        var i :| 0 <= i < |es| && !OverriddenOf(a, es[i]).Success?;
        assert es[i] in Entries(le, meta[k]);
      }
    }
  }

  lemma {:induction false} ChildExpansionsMembers(le: Comparator, a: Annotation, k: nat)
    requires k <= |a.atype.meta|
    requires ChildExpansions(le, a, k).Success?
    ensures forall j, y :: k <= j < |a.atype.meta| && y in Entries(le, a.atype.meta[j]) ==>
      OverriddenOf(a, y).Success? && OverriddenOf(a, y).value in ChildExpansions(le, a, k).value
    ensures forall x :: x in ChildExpansions(le, a, k).value ==>
      exists j, y :: k <= j < |a.atype.meta| && y in Entries(le, a.atype.meta[j]) && OverriddenOf(a, y) == Success(x)
    decreases |a.atype.meta| - k
  {
    var meta := a.atype.meta;
    if k < |meta| {
      ChildExpansionsStep(le, a, k);
      ChildExpansionsMembers(le, a, k + 1);
      var es := Entries(le, meta[k]);
      OverrideAllFacts(a, es);
      var w := OverrideAll(a, es).value;
      var rest := ChildExpansions(le, a, k + 1).value;
      forall j, y | k <= j < |meta| && y in Entries(le, meta[j])
        ensures OverriddenOf(a, y).Success? && OverriddenOf(a, y).value in w + rest
      {
        if j == k {
          var i :| 0 <= i < |es| && es[i] == y;
          assert w[i] == OverriddenOf(a, y).value;
        }
      }
      forall x | x in w + rest
        ensures exists j, y :: k <= j < |meta| && y in Entries(le, meta[j]) && OverriddenOf(a, y) == Success(x)
      {
        if x in w {
          var i :| 0 <= i < |w| && w[i] == x;
          assert es[i] in Entries(le, meta[k]) && OverriddenOf(a, es[i]) == Success(x);
        }
      }
    }
  }

  lemma ConcatExpansionsStep(le: Comparator, annos: seq<Option<Annotation>>, i: nat)
    requires i < |annos|
    ensures ConcatExpansions(le, annos, i).Success? <==>
      annos[i].Some? && ExpansionOf(le, annos[i].value).Success? && ConcatExpansions(le, annos, i + 1).Success?
    ensures ConcatExpansions(le, annos, i).Success? ==>
      ConcatExpansions(le, annos, i).value == Entries(le, annos[i].value) + ConcatExpansions(le, annos, i + 1).value
  {
  }

  lemma {:induction false} ConcatExpansionsSuccess(le: Comparator, annos: seq<Option<Annotation>>, i: nat)
    requires i <= |annos|
    ensures ConcatExpansions(le, annos, i).Success? <==>
      forall j :: i <= j < |annos| ==> annos[j].Some? && ExpansionOf(le, annos[j].value).Success?
    decreases |annos| - i
  {
    if i < |annos| {
      ConcatExpansionsStep(le, annos, i);
      ConcatExpansionsSuccess(le, annos, i + 1);
    }
  }

  /** `x` is an entry of the expansion of some annotation from `i` on. */
  ghost predicate InEntriesFrom(le: Comparator, annos: seq<Option<Annotation>>, i: nat, x: Expanded) {
    exists j :: i <= j < |annos| && annos[j].Some? && x in Entries(le, annos[j].value)
  }

  lemma {:induction false} ConcatExpansionsMember(le: Comparator, annos: seq<Option<Annotation>>, i: nat, x: Expanded)
    requires i <= |annos|
    requires ConcatExpansions(le, annos, i).Success?
    ensures x in ConcatExpansions(le, annos, i).value <==> InEntriesFrom(le, annos, i, x)
    decreases |annos| - i
  {
    if i < |annos| {
      ConcatExpansionsStep(le, annos, i);
      ConcatExpansionsMember(le, annos, i + 1, x);
      var head := Entries(le, annos[i].value);
      var rest := ConcatExpansions(le, annos, i + 1).value;
      assert ConcatExpansions(le, annos, i).value == head + rest;
      if x in head {
        assert annos[i].Some? && x in Entries(le, annos[i].value);
      } else if InEntriesFrom(le, annos, i, x) {
        var j :| i <= j < |annos| && annos[j].Some? && x in Entries(le, annos[j].value);
        assert j != i;
        assert InEntriesFrom(le, annos, i + 1, x);
      }
    }
  }

  lemma ConcatExpansionsMembers(le: Comparator, annos: seq<Option<Annotation>>, i: nat)
    requires i <= |annos|
    requires ConcatExpansions(le, annos, i).Success?
    ensures forall x :: x in ConcatExpansions(le, annos, i).value <==>
      exists j :: i <= j < |annos| && annos[j].Some? && x in Entries(le, annos[j].value)
  {
    forall x
      ensures x in ConcatExpansions(le, annos, i).value <==> InEntriesFrom(le, annos, i, x)
    {
      ConcatExpansionsMember(le, annos, i, x);
    }
  }

  /** A plain annotation expands to itself alone, not composed, with index 0 and no children. */
  lemma PlainExpansion(le: Comparator, a: Annotation)
    requires !IsRepeated(a) && !IsComposed(a)
    ensures ExpansionOf(le, a) == Success([Expanded(a, false, 0, [])])
  {
    SortBySortedIsIdentity(ExpandedOrder(le), [Expanded(a, false, 0, [])]);
  }

  /**
   * A repeatable container expands to the entries of its elements, each carrying the position of
   * the element it came from; it fails, wrapped, exactly when one of its elements fails.
   */
  lemma RepeatedExpansion(le: Comparator, a: Annotation)
    requires TotalPreorder(le)
    requires IsRepeated(a)
    ensures ExpansionOf(le, a).Failure? <==>
      exists j :: 0 <= j < |a.elements.items| && ExpansionOf(le, a.elements.items[j]).Failure?
    ensures ExpansionOf(le, a).Failure? ==> ExpansionOf(le, a).error.RepeatedValueFailure?
    ensures ExpansionOf(le, a).Success? ==>
      && SortedBy(ExpandedOrder(le), ExpansionOf(le, a).value)
      && (forall j, y :: 0 <= j < |a.elements.items| && y in Entries(le, a.elements.items[j]) ==>
            y.(index := j) in ExpansionOf(le, a).value)
      && (forall x :: x in ExpansionOf(le, a).value ==>
            && 0 <= x.index < |a.elements.items|
            && exists y :: y in Entries(le, a.elements.items[x.index]) && x == y.(index := x.index))
    ensures ExpansionOf(le, a).Success? ==>
      && ElementExpansions(le, a, 0).Success?
      && multiset(ExpansionOf(le, a).value) == multiset(ElementExpansions(le, a, 0).value)
  {
    ElementExpansionsSuccess(le, a, 0);
    if ElementExpansions(le, a, 0).Success? {
      ElementExpansionsMembers(le, a, 0);
      var xs := ElementExpansions(le, a, 0).value;
      ExpandedOrderIsPreorder(le);
      SortByCorrect(ExpandedOrder(le), xs);
      var ys := SortBy(ExpandedOrder(le), xs);
      assert forall x :: x in ys <==> x in xs by {
        forall x ensures x in ys <==> x in xs {
          assert x in ys <==> x in multiset(ys);
          assert x in xs <==> x in multiset(xs);
        }
      }
    }
  }

  /**
   * A composed annotation (not a repeatable container) expands to one composed entry at index 0
   * whose children are its meta-annotations' entries, each passed through the attribute override,
   * in sorted order.
   */
  lemma ComposedExpansion(le: Comparator, a: Annotation)
    requires TotalPreorder(le)
    requires !IsRepeated(a) && IsComposed(a)
    ensures ExpansionOf(le, a).Success? <==>
      forall j :: 0 <= j < |a.atype.meta| ==>
        && ExpansionOf(le, a.atype.meta[j]).Success?
        && forall y :: y in Entries(le, a.atype.meta[j]) ==> OverriddenOf(a, y).Success?
    ensures ExpansionOf(le, a).Success? ==>
      && |ExpansionOf(le, a).value| == 1
      && ExpansionOf(le, a).value[0].original == a
      && ExpansionOf(le, a).value[0].composed
      && ExpansionOf(le, a).value[0].index == 0
      && SortedBy(ExpandedOrder(le), ExpansionOf(le, a).value[0].children)
      && (forall j, y :: 0 <= j < |a.atype.meta| && y in Entries(le, a.atype.meta[j]) ==>
            OverriddenOf(a, y).value in ExpansionOf(le, a).value[0].children)
      && (forall c :: c in ExpansionOf(le, a).value[0].children ==>
            exists j, y :: 0 <= j < |a.atype.meta| && y in Entries(le, a.atype.meta[j]) && OverriddenOf(a, y) == Success(c))
    ensures ExpansionOf(le, a).Success? ==>
      && ChildExpansions(le, a, 0).Success?
      && multiset(ExpansionOf(le, a).value[0].children) == multiset(ChildExpansions(le, a, 0).value)
  {
    ChildExpansionsSuccess(le, a, 0);
    if ChildExpansions(le, a, 0).Success? {
      ChildExpansionsMembers(le, a, 0);
      var cs := ChildExpansions(le, a, 0).value;
      ExpandedOrderIsPreorder(le);
      SortByCorrect(ExpandedOrder(le), cs);
      var sorted := SortBy(ExpandedOrder(le), cs);
      SortBySortedIsIdentity(ExpandedOrder(le), [Expanded(a, true, 0, sorted)]);
      assert forall x :: x in sorted <==> x in cs by {
        forall x ensures x in sorted <==> x in cs {
          assert x in sorted <==> x in multiset(sorted);
          assert x in cs <==> x in multiset(cs);
        }
      }
    }
  }

  /** The index does not take part in the sortedness of the levels below. */
  lemma LevelsSortedWithIndex(le: Comparator, x: Expanded, k: int)
    requires LevelsSorted(le, x)
    ensures LevelsSorted(le, x.(index := k))
  {
  }

  /** The override replaces attribute values only: composed flag, index and children are kept. */
  lemma OverriddenKeepsShape(comp: Annotation, x: Expanded)
    requires OverriddenOf(comp, x).Success?
    ensures OverriddenOf(comp, x).value.composed == x.composed
    ensures OverriddenOf(comp, x).value.index == x.index
    ensures OverriddenOf(comp, x).value.children == x.children
    ensures OverriddenOf(comp, x).value.original.atype == x.original.atype
    ensures OverriddenOf(comp, x).value.original.elements == x.original.elements
  {
  }

  /** Every list the expander returns is sorted, at every level of the tree. */
  lemma {:induction false} ExpansionFullySorted(le: Comparator, a: Annotation)
    requires TotalPreorder(le)
    ensures ExpansionOf(le, a).Success? ==>
      && SortedBy(ExpandedOrder(le), ExpansionOf(le, a).value)
      && forall x :: x in ExpansionOf(le, a).value ==> LevelsSorted(le, x)
    decreases a
  {
    ExpandedOrderIsPreorder(le);
    if ExpansionOf(le, a).Success? {
      if IsRepeated(a) {
        RepeatedExpansion(le, a);
        var items := a.elements.items;
        forall x | x in ExpansionOf(le, a).value ensures LevelsSorted(le, x) {
          var y :| y in Entries(le, items[x.index]) && x == y.(index := x.index);
          ExpansionFullySorted(le, items[x.index]);
          LevelsSortedWithIndex(le, y, x.index);
        }
      } else if IsComposed(a) {
        ComposedExpansion(le, a);
        var top := ExpansionOf(le, a).value[0];
        forall c | c in top.children ensures LevelsSorted(le, c) {
          var j, y :| 0 <= j < |a.atype.meta| && y in Entries(le, a.atype.meta[j]) && OverriddenOf(a, y) == Success(c);
          ExpansionFullySorted(le, a.atype.meta[j]);
          OverriddenKeepsShape(a, y);
          assert LevelsSorted(le, y);
        }
        assert LevelsSorted(le, top);
        assert ExpansionOf(le, a).value == [top];
      } else {
        PlainExpansion(le, a);
      }
    }
  }

  /**
   * `expand(Annotation[])`: null arrays and null elements are rejected; otherwise the result is
   * the sorted concatenation of the elements' expansions.
   */
  lemma ExpansionOfAllFacts(le: Comparator, annos: Option<seq<Option<Annotation>>>)
    requires TotalPreorder(le)
    ensures annos.None? ==> ExpansionOfAll(le, annos) == Failure(NullPointer)
    ensures annos.Some? ==>
      (ExpansionOfAll(le, annos).Success? <==>
        forall j :: 0 <= j < |annos.value| ==> annos.value[j].Some? && ExpansionOf(le, annos.value[j].value).Success?)
    ensures ExpansionOfAll(le, annos).Success? ==>
      && SortedBy(ExpandedOrder(le), ExpansionOfAll(le, annos).value)
      && forall x :: x in ExpansionOfAll(le, annos).value <==>
           exists j :: 0 <= j < |annos.value| && annos.value[j].Some? && x in Entries(le, annos.value[j].value)
    ensures ExpansionOfAll(le, annos).Success? ==>
      && annos.Some?
      && ConcatExpansions(le, annos.value, 0).Success?
      && multiset(ExpansionOfAll(le, annos).value) == multiset(ConcatExpansions(le, annos.value, 0).value)
  {
    if annos.Some? {
      ConcatExpansionsSuccess(le, annos.value, 0);
      if ConcatExpansions(le, annos.value, 0).Success? {
        ConcatExpansionsMembers(le, annos.value, 0);
        var xs := ConcatExpansions(le, annos.value, 0).value;
        ExpandedOrderIsPreorder(le);
        SortByCorrect(ExpandedOrder(le), xs);
        var ys := SortBy(ExpandedOrder(le), xs);
        assert forall x :: x in ys <==> x in xs by {
          forall x ensures x in ys <==> x in xs {
            assert x in ys <==> x in multiset(ys);
            assert x in xs <==> x in multiset(xs);
          }
        }
      }
    }
  }

  /** A null element whose predecessors all expand makes `expand(Annotation[])` fail with a null pointer. */
  lemma {:induction false} NullElementRejected(le: Comparator, annos: seq<Option<Annotation>>, j: nat)
    requires j < |annos| && annos[j].None?
    requires forall i :: 0 <= i < j ==> annos[i].Some? && ExpansionOf(le, annos[i].value).Success?
    ensures ExpansionOfAll(le, Some(annos)) == Failure(NullPointer)
  {
    NullElementRejectedFrom(le, annos, j, 0);
  }

  lemma {:induction false} NullElementRejectedFrom(le: Comparator, annos: seq<Option<Annotation>>, j: nat, i: nat)
    requires i <= j < |annos| && annos[j].None?
    requires forall k :: i <= k < j ==> annos[k].Some? && ExpansionOf(le, annos[k].value).Success?
    ensures ConcatExpansions(le, annos, i) == Failure(NullPointer)
    decreases j - i
  {
    if i < j {
      NullElementRejectedFrom(le, annos, j, i + 1);
    }
  }

  // ---------------------------------------------------------------------------------------------
  // Properties of the attribute override

  /** Some binding of `m`, from the `j`-th on, applies to `target` and names attribute `n`. */
  predicate MethodBinds(m: AttrMethod, target: Expanded, j: nat, n: string) {
    exists j' :: j <= j' < |m.bindings| && Applies(m.bindings[j'], target) && AttrNameOf(m, m.bindings[j']) == n
  }

  /**
   * Every binding of `m` from the `j`-th on that applies to `target` names an attribute `target`
   * has with `m`'s return type, and `m` has a value in the composed annotation.
   */
  predicate BindingsValidFrom(comp: Annotation, target: Expanded, m: AttrMethod, j: nat) {
    forall j' :: j <= j' < |m.bindings| && Applies(m.bindings[j'], target) ==>
      HasAttribute(target.original, AttrNameOf(m, m.bindings[j']), m.returnKind) && m.name in comp.attrs
  }

  /** Some method of `comp` from the `i`-th on has a binding that applies to `target` and names `n`. */
  predicate BoundFrom(comp: Annotation, target: Expanded, n: string, i: nat) {
    exists i' :: i <= i' < |comp.atype.methods| && MethodBinds(comp.atype.methods[i'], target, 0, n)
  }

  /** Method `i` is the last method of `comp` with a binding that applies to `target` and names `n`. */
  predicate LastBinder(comp: Annotation, target: Expanded, n: string, i: nat) {
    && i < |comp.atype.methods|
    && MethodBinds(comp.atype.methods[i], target, 0, n)
    && forall i' :: i < i' < |comp.atype.methods| ==> !MethodBinds(comp.atype.methods[i'], target, 0, n)
  }

  /** Some method of `comp` from the `i`-th on, named `n`, carries bindings. */
  predicate BindingMethodFrom(comp: Annotation, n: string, i: nat) {
    exists i' :: i <= i' < |comp.atype.methods| && comp.atype.methods[i'].bindings != [] && comp.atype.methods[i'].name == n
  }

  /** The attribute type under which `message`, `groups` and `cases` are inherited. */
  function CommonKind(n: string): Option<Kind> {
    if n == "message" then Some(StringKind)
    else if n == "groups" then Some(ClassArrayKind)
    else if n == "cases" then Some(BuildCaseArrayKind)
    else None
  }

  /**
   * An attribute inherited from the composed annotation: a common attribute that no binding names
   * and no binding method is named after, which the target has and the composed annotation has non-empty.
   */
  predicate Inherited(comp: Annotation, target: Expanded, n: string) {
    && CommonKind(n).Some?
    && !BoundFrom(comp, target, n, 0)
    && !BindingMethodFrom(comp, n, 0)
    && HasAttribute(target.original, n, CommonKind(n).value)
    && HasAttribute(comp, n, CommonKind(n).value)
    && IsNotEmpty(comp.attrs[n])
  }

  lemma {:induction false} ApplyBindingsFacts(comp: Annotation, target: Expanded, m: AttrMethod, j: nat,
                                              acc: map<string, Value>)
    requires j <= |m.bindings|
    ensures ApplyBindings(comp, target, m, j, acc).Success? <==> BindingsValidFrom(comp, target, m, j)
    ensures ApplyBindings(comp, target, m, j, acc).Success? ==>
      var r := ApplyBindings(comp, target, m, j, acc).value;
      && (forall n :: n in r <==> n in acc || MethodBinds(m, target, j, n))
      && (forall n :: n in r && MethodBinds(m, target, j, n) ==> m.name in comp.attrs && r[n] == comp.attrs[m.name])
      && (forall n :: n in r && !MethodBinds(m, target, j, n) ==> r[n] == acc[n])
    decreases |m.bindings| - j
  {
    if j < |m.bindings| {
      var b := m.bindings[j];
      var step := ApplyBinding(comp, target, m, b, acc);
      if step.Success? {
        ApplyBindingsFacts(comp, target, m, j + 1, step.value);
        forall n ensures MethodBinds(m, target, j, n) <==>
          (Applies(b, target) && AttrNameOf(m, b) == n) || MethodBinds(m, target, j + 1, n)
        {
          if MethodBinds(m, target, j, n) {
            var j' :| j <= j' < |m.bindings| && Applies(m.bindings[j'], target) && AttrNameOf(m, m.bindings[j']) == n;
            if j' > j {
              assert MethodBinds(m, target, j + 1, n);
            }
          }
        }
      } else {
        assert Applies(b, target);
      }
    }
  }

  lemma BoundFromStep(comp: Annotation, target: Expanded, n: string, i: nat)
    requires i < |comp.atype.methods|
    ensures BoundFrom(comp, target, n, i) <==>
      MethodBinds(comp.atype.methods[i], target, 0, n) || BoundFrom(comp, target, n, i + 1)
  {
    if BoundFrom(comp, target, n, i) {
      var i' :| i <= i' < |comp.atype.methods| && MethodBinds(comp.atype.methods[i'], target, 0, n);
      if i' > i {
        assert BoundFrom(comp, target, n, i + 1);
      }
    }
  }

  lemma BindingMethodFromStep(comp: Annotation, n: string, i: nat)
    requires i < |comp.atype.methods|
    ensures BindingMethodFrom(comp, n, i) <==>
      (comp.atype.methods[i].bindings != [] && comp.atype.methods[i].name == n) || BindingMethodFrom(comp, n, i + 1)
  {
    if BindingMethodFrom(comp, n, i) {
      var i' :| i <= i' < |comp.atype.methods| && comp.atype.methods[i'].bindings != [] && comp.atype.methods[i'].name == n;
      if i' > i {
        assert BindingMethodFrom(comp, n, i + 1);
      }
    }
  }

  lemma {:induction false} CollectBindingsSuccess(comp: Annotation, target: Expanded, i: nat, st: Overrides)
    requires i <= |comp.atype.methods|
    ensures CollectBindings(comp, target, i, st).Success? <==>
      forall i' :: i <= i' < |comp.atype.methods| ==> BindingsValidFrom(comp, target, comp.atype.methods[i'], 0)
    decreases |comp.atype.methods| - i
  {
    var ms := comp.atype.methods;
    if i < |ms| {
      var m := ms[i];
      if m.bindings == [] {
        CollectBindingsSuccess(comp, target, i + 1, st);
      } else {
        ApplyBindingsFacts(comp, target, m, 0, st.attrs);
        var step := ApplyBindings(comp, target, m, 0, st.attrs);
        if step.Success? {
          CollectBindingsSuccess(comp, target, i + 1, Overrides(step.value, st.methodNames + {m.name}));
        }
      }
    }
  }

  lemma {:induction false} CollectBindingsResult(comp: Annotation, target: Expanded, i: nat, st: Overrides)
    requires i <= |comp.atype.methods|
    requires CollectBindings(comp, target, i, st).Success?
    ensures var r := CollectBindings(comp, target, i, st).value;
      && (forall n :: n in r.attrs <==> n in st.attrs || BoundFrom(comp, target, n, i))
      && (forall n :: n in r.attrs && !BoundFrom(comp, target, n, i) ==> r.attrs[n] == st.attrs[n])
      && (forall n, i' :: i <= i' && LastBinder(comp, target, n, i') ==>
            && n in r.attrs
            && comp.atype.methods[i'].name in comp.attrs
            && r.attrs[n] == comp.attrs[comp.atype.methods[i'].name])
      && (forall n :: n in r.methodNames <==> n in st.methodNames || BindingMethodFrom(comp, n, i))
    decreases |comp.atype.methods| - i
  {
    var ms := comp.atype.methods;
    if i < |ms| {
      var m := ms[i];
      forall n: string
        ensures BoundFrom(comp, target, n, i) <==>
          MethodBinds(m, target, 0, n) || BoundFrom(comp, target, n, i + 1)
        ensures BindingMethodFrom(comp, n, i) <==>
          (m.bindings != [] && m.name == n) || BindingMethodFrom(comp, n, i + 1)
      {
        BoundFromStep(comp, target, n, i);
        BindingMethodFromStep(comp, n, i);
      }
      if m.bindings == [] {
        CollectBindingsResult(comp, target, i + 1, st);
      } else {
        ApplyBindingsFacts(comp, target, m, 0, st.attrs);
        var st' := Overrides(ApplyBindings(comp, target, m, 0, st.attrs).value, st.methodNames + {m.name});
        CollectBindingsResult(comp, target, i + 1, st');
        var r := CollectBindings(comp, target, i, st).value;
        forall n, i' | i <= i' && LastBinder(comp, target, n, i')
          ensures n in r.attrs && ms[i'].name in comp.attrs && r.attrs[n] == comp.attrs[ms[i'].name]
        {
          if i' == i {
            assert !BoundFrom(comp, target, n, i + 1);
          }
        }
      }
    }
  }

  /**
   * `buildOverrideAttribute` succeeds exactly when every applicable binding names an attribute of
   * the target with the binding method's type. The overridden attributes are those some applicable
   * binding names, whose value is that of the last method naming it, and the inherited common
   * attributes, whose value is the composed annotation's; all of them exist in the target.
   */
  lemma InheritCommonFacts(comp: Annotation, target: Annotation, st: Overrides)
    ensures var o := InheritCommon(comp, target, st).attrs;
      && (forall n :: n in o <==>
            || n in st.attrs
            || (&& CommonKind(n).Some? && n !in st.methodNames
                && HasAttribute(target, n, CommonKind(n).value)
                && HasAttribute(comp, n, CommonKind(n).value)
                && IsNotEmpty(comp.attrs[n])))
      && (forall n :: n in o ==> if n in st.attrs then o[n] == st.attrs[n] else n in comp.attrs && o[n] == comp.attrs[n])
  {
  }

  lemma OverrideAttrsFacts(comp: Annotation, target: Expanded)
    ensures OverrideAttrsOf(comp, target).Success? <==>
      forall i :: 0 <= i < |comp.atype.methods| ==> BindingsValidFrom(comp, target, comp.atype.methods[i], 0)
    ensures OverrideAttrsOf(comp, target).Success? ==>
      var o := OverrideAttrsOf(comp, target).value;
      && (forall n :: n in o <==> BoundFrom(comp, target, n, 0) || Inherited(comp, target, n))
      && (forall n :: n in o ==> n in target.original.attrs)
      && (forall n, i: nat :: LastBinder(comp, target, n, i) ==>
            comp.atype.methods[i].name in comp.attrs && o[n] == comp.attrs[comp.atype.methods[i].name])
      && (forall n :: n in o && !BoundFrom(comp, target, n, 0) ==> n in comp.attrs && o[n] == comp.attrs[n])
  {
    var ms := comp.atype.methods;
    var init := Overrides(map[], {});
    CollectBindingsSuccess(comp, target, 0, init);
    if CollectBindings(comp, target, 0, init).Success? {
      CollectBindingsResult(comp, target, 0, init);
      InheritCommonFacts(comp, target.original, CollectBindings(comp, target, 0, init).value);
      var o := OverrideAttrsOf(comp, target).value;
      forall n | n in o ensures n in target.original.attrs {
        if BoundFrom(comp, target, n, 0) {
          var i :| 0 <= i < |ms| && MethodBinds(ms[i], target, 0, n);
          var j :| 0 <= j < |ms[i].bindings| && Applies(ms[i].bindings[j], target) && AttrNameOf(ms[i], ms[i].bindings[j]) == n;
          assert BindingsValidFrom(comp, target, ms[i], 0);
        }
      }
    }
  }

  /** An applicable binding that names an attribute the target lacks makes the override fail. */
  lemma MissingAttributeFails(comp: Annotation, target: Expanded, i: nat, j: nat)
    requires i < |comp.atype.methods| && j < |comp.atype.methods[i].bindings|
    requires Applies(comp.atype.methods[i].bindings[j], target)
    requires !HasAttribute(target.original,
                           AttrNameOf(comp.atype.methods[i], comp.atype.methods[i].bindings[j]),
                           comp.atype.methods[i].returnKind)
    ensures OverrideAttrsOf(comp, target).Failure?
  {
    OverrideAttrsFacts(comp, target);
  }

  /**
   * An applicable binding whose method has no value on the composed annotation makes the
   * override fail: the reflective call that reads the value fails.
   */
  lemma MissingValueFails(comp: Annotation, target: Expanded, i: nat, j: nat)
    requires i < |comp.atype.methods| && j < |comp.atype.methods[i].bindings|
    requires Applies(comp.atype.methods[i].bindings[j], target)
    requires comp.atype.methods[i].name !in comp.attrs
    ensures OverrideAttrsOf(comp, target).Failure?
  {
    OverrideAttrsFacts(comp, target);
  }

  /**
   * `overrideAttribute`: annotations that are not overridable, and overrides that change nothing,
   * leave the entry as it is; otherwise each attribute takes its overridden value and keeps the
   * rest, and the composed flag, index and children of the entry are kept.
   */
  lemma OverriddenOfFacts(comp: Annotation, x: Expanded)
    ensures !IsOverridableAnnotation(x.original) ==> OverriddenOf(comp, x) == Success(x)
    ensures IsOverridableAnnotation(x.original) ==>
      (OverriddenOf(comp, x).Success? <==> OverrideAttrsOf(comp, x).Success?)
    ensures IsOverridableAnnotation(x.original) && OverrideAttrsOf(comp, x).Success? ==>
      var y := OverriddenOf(comp, x).value;
      var o := OverrideAttrsOf(comp, x).value;
      && y.composed == x.composed && y.index == x.index && y.children == x.children
      && y.original.atype == x.original.atype && y.original.elements == x.original.elements
      && y.original.attrs.Keys == x.original.attrs.Keys
      && forall n :: n in x.original.attrs ==>
           y.original.attrs[n] == if n in o then o[n] else x.original.attrs[n]
  {
    OverrideAttrsFacts(comp, x);
  }

  // ---------------------------------------------------------------------------------------------
  // The expander's methods, proved against the functions above

  /** `buildOverrideAttribute`. */
  method BuildOverrideAttribute(comp: Annotation, target: Expanded) returns (r: Result<map<string, Value>, ExpandError>)
    ensures r == OverrideAttrsOf(comp, target)
  {
    var ms := comp.atype.methods;
    var attrs: map<string, Value> := map[];
    var names: set<string> := {};
    var i := 0;
    while i < |ms|
      invariant 0 <= i <= |ms|
      invariant CollectBindings(comp, target, 0, Overrides(map[], {})) == CollectBindings(comp, target, i, Overrides(attrs, names))
    {
      var m := ms[i];
      if m.bindings != [] {
        var before := attrs;
        var j := 0;
        while j < |m.bindings|
          invariant 0 <= j <= |m.bindings|
          invariant ApplyBindings(comp, target, m, 0, before) == ApplyBindings(comp, target, m, j, attrs)
        {
          var b := m.bindings[j];
          if b.annotation == target.original.atype.name && (b.index < 0 || b.index == target.index) {
            var attrName := if b.name == "" then m.name else b.name;
            if !HasAttribute(target.original, attrName, m.returnKind) {
              return Failure(AttributeNotFound(comp.atype.name, target.original.atype.name, attrName, m.returnKind));
            }
            if m.name !in comp.attrs {
              return Failure(AttributeAccess(comp.atype.name, attrName));
            }
            attrs := attrs[attrName := comp.attrs[m.name]];
          }
          j := j + 1;
        }
        names := names + {m.name};
      }
      i := i + 1;
    }
    var original := target.original;
    if "message" !in attrs && "message" !in names && HasAttribute(original, "message", StringKind) {
      if HasAttribute(comp, "message", StringKind) && IsNotEmpty(comp.attrs["message"]) {
        attrs := attrs["message" := comp.attrs["message"]];
      }
    }
    if "groups" !in attrs && "groups" !in names && HasAttribute(original, "groups", ClassArrayKind) {
      if HasAttribute(comp, "groups", ClassArrayKind) && IsNotEmpty(comp.attrs["groups"]) {
        attrs := attrs["groups" := comp.attrs["groups"]];
      }
    }
    if "cases" !in attrs && "cases" !in names && HasAttribute(original, "cases", BuildCaseArrayKind) {
      if HasAttribute(comp, "cases", BuildCaseArrayKind) && IsNotEmpty(comp.attrs["cases"]) {
        attrs := attrs["cases" := comp.attrs["cases"]];
      }
    }
    return Success(attrs);
  }

  /** `overrideAttribute`. */
  method OverrideAttribute(comp: Annotation, nested: Expanded) returns (r: Result<Expanded, ExpandError>)
    ensures r == OverriddenOf(comp, nested)
  {
    if !IsOverridableAnnotation(nested.original) {
      return Success(nested);
    }
    var overrides := BuildOverrideAttribute(comp, nested);
    if overrides.Failure? {
      return Failure(overrides.error);
    }
    if overrides.value == map[] {
      return Success(nested);
    }
    var proxy := nested.original.(attrs := nested.original.attrs + overrides.value);
    return Success(Expanded(proxy, nested.composed, nested.index, nested.children));
  }

  /** `expand(Annotation)`: a null annotation is rejected, any other is expanded. */
  method Expand(le: Comparator, a: Option<Annotation>) returns (r: Result<seq<Expanded>, ExpandError>)
    ensures a.None? ==> r == Failure(NullPointer)
    ensures a.Some? ==> r == ExpansionOf(le, a.value)
  {
    if a.None? {
      return Failure(NullPointer);
    }
    r := ExpandAnnotation(le, a.value);
  }

  /** The body of `expand(Annotation)` after its null check. */
  method ExpandAnnotation(le: Comparator, a: Annotation) returns (r: Result<seq<Expanded>, ExpandError>)
    ensures r == ExpansionOf(le, a)
    decreases a
  {
    var expanded: seq<Expanded> := [];
    if IsRepeated(a) {
      var items := a.elements.items;
      var index := 0;
      PrependNil(ElementExpansions(le, a, 0));
      while index < |items|
        invariant 0 <= index <= |items|
        invariant ElementExpansions(le, a, 0) == Prepend(expanded, ElementExpansions(le, a, index))
      {
        var repeated := ExpandAnnotation(le, items[index]);
        if repeated.Failure? {
          return Failure(RepeatedValueFailure(repeated.error));
        }
        PrependPrepend(expanded, WithIndex(repeated.value, index), ElementExpansions(le, a, index + 1));
        expanded := expanded + WithIndex(repeated.value, index);
        index := index + 1;
      }
      assert expanded + [] == expanded;
    } else if IsComposed(a) {
      var childs: seq<Expanded> := [];
      var meta := a.atype.meta;
      var k := 0;
      PrependNil(ChildExpansions(le, a, 0));
      while k < |meta|
        invariant 0 <= k <= |meta|
        invariant ChildExpansions(le, a, 0) == Prepend(childs, ChildExpansions(le, a, k))
      {
        var sub := ExpandAnnotation(le, meta[k]);
        if sub.Failure? {
          return Failure(sub.error);
        }
        var nested := sub.value;
        var overridden: seq<Expanded> := [];
        var t := 0;
        PrependNil(OverrideAll(a, nested));
        while t < |nested|
          invariant 0 <= t <= |nested|
          invariant OverrideAll(a, nested) == Prepend(overridden, OverrideAll(a, nested[t..]))
        {
          var one := OverrideAttribute(a, nested[t]);
          if one.Failure? {
            return Failure(one.error);
          }
          assert nested[t..][1..] == nested[t + 1..];
          PrependPrepend(overridden, [one.value], OverrideAll(a, nested[t + 1..]));
          overridden := overridden + [one.value];
          t := t + 1;
        }
        assert nested[|nested|..] == [];
        assert overridden + [] == overridden;
        assert OverrideAll(a, nested) == Success(overridden);
        assert ChildExpansions(le, a, k) == Prepend(overridden, ChildExpansions(le, a, k + 1));
        PrependPrepend(childs, overridden, ChildExpansions(le, a, k + 1));
        childs := childs + overridden;
        k := k + 1;
      }
      assert childs + [] == childs;
      expanded := [Expanded(a, true, 0, SortBy(ExpandedOrder(le), childs))];
    } else {
      expanded := [Expanded(a, false, 0, [])];
    }
    return Success(SortBy(ExpandedOrder(le), expanded));
  }

  /** `expand(Annotation[])`. */
  method ExpandAll(le: Comparator, annos: Option<seq<Option<Annotation>>>) returns (r: Result<seq<Expanded>, ExpandError>)
    ensures r == ExpansionOfAll(le, annos)
  {
    if annos.None? {
      return Failure(NullPointer);
    }
    var expanded: seq<Expanded> := [];
    var i := 0;
    PrependNil(ConcatExpansions(le, annos.value, 0));
    while i < |annos.value|
      invariant 0 <= i <= |annos.value|
      invariant ConcatExpansions(le, annos.value, 0) == Prepend(expanded, ConcatExpansions(le, annos.value, i))
    {
      var sub := Expand(le, annos.value[i]);
      if sub.Failure? {
        return Failure(sub.error);
      }
      PrependPrepend(expanded, sub.value, ConcatExpansions(le, annos.value, i + 1));
      expanded := expanded + sub.value;
      i := i + 1;
    }
    assert expanded + [] == expanded;
    return Success(SortBy(ExpandedOrder(le), expanded));
  }
}
