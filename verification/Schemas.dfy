/** The three passes over JSON-schema trees: Claude's sanitiser, OpenRouter's flattener, strict hardening. */
module Schemas {
  import opened Text

  /** JSON trees; an object keeps its keys in insertion order, as a Python dict does. */
  datatype Json =
    | Object(fields: Fields)
    | Array(items: Items)
    | Str(text: string)
    | Bool(b: bool)
    | Other(n: int)

  datatype Fields = NoFields | Field(key: string, value: Json, rest: Fields)
  datatype Items = NoItems | Item(head: Json, tail: Items)

  /** A measure that strictly grows with every level and entry. */
  function Size(j: Json): nat {
    match j
    case Object(f) => 1 + FieldsSize(f)
    case Array(items) => 1 + ItemsSize(items)
    case _ => 1
  }

  function FieldsSize(f: Fields): nat {
    if f.Field? then 1 + Size(f.value) + FieldsSize(f.rest) else 0
  }

  function ItemsSize(items: Items): nat {
    if items.Item? then 1 + Size(items.head) + ItemsSize(items.tail) else 0
  }

  function Lookup(f: Fields, key: string): Option<Json> {
    match f
    case NoFields => None
    case Field(k, v, rest) => if k == key then Some(v) else Lookup(rest, key)
  }

  /** Assigning a key keeps its place, or appends it. */
  function Assign(f: Fields, key: string, v: Json): Fields {
    match f
    case NoFields => Field(key, v, NoFields)
    case Field(k, w, rest) => if k == key then Field(k, v, rest) else Field(k, w, Assign(rest, key, v))
  }

  lemma {:induction false} LookupAssign(f: Fields, key: string, v: Json, k: string)
    ensures Lookup(Assign(f, key, v), k) == if k == key then Some(v) else Lookup(f, k)
  {
    if f.Field? { LookupAssign(f.rest, key, v, k); }
  }

  lemma {:induction false} AssignSame(f: Fields, key: string, v: Json)
    ensures Lookup(f, key) == Some(v) <==> Assign(f, key, v) == f
  {
    if f.Field? { AssignSame(f.rest, key, v); }
  }

  // ---- type lists ------------------------------------------------------------------------------------

  const NULL := Str("null")

  function WithoutNull(items: Items): (r: Items)
    ensures ItemsSize(r) <= ItemsSize(items)
  {
    match items
    case NoItems => NoItems
    case Item(x, rest) => if x == NULL then WithoutNull(rest) else Item(x, WithoutNull(rest))
  }

  predicate AllStrings(items: Items) {
    items.Item? ==> items.head.Str? && AllStrings(items.tail)
  }

  /** Wherever a pass reads a "type" list, it lists strings only. */
  predicate StringTypes(j: Json) {
    match j
    case Object(f) => StringTypesFields(f)
    case Array(items) => StringTypesItems(items)
    case _ => true
  }

  predicate StringTypesFields(f: Fields) {
    f.Field? ==>
      && (f.key == "type" && f.value.Array? ==> AllStrings(f.value.items))
      && StringTypes(f.value) && StringTypesFields(f.rest)
  }

  predicate StringTypesItems(items: Items) {
    items.Item? ==> StringTypes(items.head) && StringTypesItems(items.tail)
  }

  // ---- sanitising ---------------------------------------------------------------------------------------

  predicate Rejected(key: string) {
    key == "minimum" || key == "maximum" || key == "exclusiveMinimum" || key == "exclusiveMaximum"
  }

  predicate InstanceData(key: string) {
    key == "default" || key == "const" || key == "enum" || key == "example" || key == "examples"
  }

  /** The replacement of a "type" list whose entries are sanitised already. */
  function NarrowType(v: Json): Json {
    if !v.Array? then v
    else
      match WithoutNull(v.items)
      case NoItems => Str("string")
      case Item(only, NoItems) => only
      case several => Array(several)
  }

  /** `_sanitize_node`. */
  function Sanitize(j: Json): Json {
    match j
    case Object(f) => Object(SanitizeFields(f))
    case Array(items) => Array(SanitizeItems(items))
    case _ => j
  }

  function SanitizeFields(f: Fields): Fields {
    match f
    case NoFields => NoFields
    case Field(k, v, rest) =>
      if Rejected(k) then SanitizeFields(rest)
      else
        var w := if InstanceData(k) then v else if k == "type" then NarrowType(Sanitize(v)) else Sanitize(v);
        Field(k, w, SanitizeFields(rest))
  }

  function SanitizeItems(items: Items): Items {
    match items
    case NoItems => NoItems
    case Item(x, rest) => Item(Sanitize(x), SanitizeItems(rest))
  }

  /** What Anthropic's validator accepts: no rejected keyword, no "null" or shorter list as a type. */
  predicate Clean(j: Json) {
    match j
    case Object(f) => CleanFields(f)
    case Array(items) => CleanItems(items)
    case _ => true
  }

  predicate CleanFields(f: Fields) {
    f.Field? ==>
      && !Rejected(f.key)
      && (InstanceData(f.key) || (Clean(f.value) && (f.key == "type" ==> CleanType(f.value))))
      && CleanFields(f.rest)
  }

  predicate CleanItems(items: Items) {
    items.Item? ==> Clean(items.head) && CleanItems(items.tail)
  }

  predicate CleanType(v: Json) {
    v.Array? ==> NoNull(v.items) && v.items.Item? && v.items.tail.Item?
  }

  predicate NoNull(items: Items) {
    items.Item? ==> items.head != NULL && NoNull(items.tail)
  }

  lemma {:induction false} WithoutNullIs(items: Items)
    ensures NoNull(WithoutNull(items)) && (WithoutNull(items) == items <==> NoNull(items))
    ensures ItemsSize(WithoutNull(items)) == ItemsSize(items) ==> NoNull(items)
  {
    if items.Item? { WithoutNullIs(items.tail); }
  }

  lemma SanitizeKeepsShape(j: Json)
    ensures Sanitize(j).Array? == j.Array? && (Sanitize(j) == NULL <==> j == NULL)
  {
  }

  lemma {:induction false} SanitizeSkipsNull(items: Items)
    ensures WithoutNull(SanitizeItems(items)) == SanitizeItems(WithoutNull(items))
    ensures NoNull(SanitizeItems(items)) <==> NoNull(items)
  {
    if items.Item? {
      SanitizeSkipsNull(items.tail);
      SanitizeKeepsShape(items.head);
    }
  }

  // Sanitising never makes a tree larger.

  lemma {:induction false} SanitizeShrinks(j: Json)
    ensures Size(Sanitize(j)) <= Size(j)
    decreases j
  {
    match j {
      case Object(f) => SanitizeFieldsShrinks(f);
      case Array(items) => SanitizeItemsShrinks(items);
      case _ =>
    }
  }

  lemma {:induction false} SanitizeItemsShrinks(items: Items)
    ensures ItemsSize(SanitizeItems(items)) <= ItemsSize(items)
    decreases items
  {
    if items.Item? {
      SanitizeShrinks(items.head);
      SanitizeItemsShrinks(items.tail);
    }
  }

  lemma {:induction false} SanitizeFieldsShrinks(f: Fields)
    ensures FieldsSize(SanitizeFields(f)) <= FieldsSize(f)
    ensures f.Field? && Rejected(f.key) ==> FieldsSize(SanitizeFields(f)) < FieldsSize(f)
    decreases f
  {
    if f.Field? {
      SanitizeShrinks(f.value);
      SanitizeFieldsShrinks(f.rest);
    }
  }

  /** A type list that comes out unchanged was clean. */
  lemma NarrowedSame(items: Items)
    requires NarrowType(Sanitize(Array(items))) == Array(items)
    ensures SanitizeItems(items) == items && CleanType(Array(items))
  {
    var s := SanitizeItems(items);
    SanitizeItemsShrinks(items);
    WithoutNullIs(s);
    assert WithoutNull(s) == items ==> NoNull(s) && s == items;
    assert WithoutNull(s).Item? ==> Size(WithoutNull(s).head) < ItemsSize(items) + 1;
  }

  // Only a clean schema is left as it is.

  lemma {:induction false} FixedIffClean(j: Json)
    ensures Sanitize(j) == j <==> Clean(j)
    decreases j
  {
    match j {
      case Object(f) => FixedFieldsIffClean(f);
      case Array(items) => FixedItemsIffClean(items);
      case _ =>
    }
  }

  lemma {:induction false} FixedFieldsIffClean(f: Fields)
    ensures SanitizeFields(f) == f <==> CleanFields(f)
    decreases f
  {
    if f.Field? {
      FixedFieldsIffClean(f.rest);
      FixedIffClean(f.value);
      SanitizeFieldsShrinks(f);
      if f.key == "type" { FixedTypeIffClean(f.value); }
    }
  }

  lemma FixedTypeIffClean(v: Json)
    requires Sanitize(v) == v <==> Clean(v)
    ensures NarrowType(Sanitize(v)) == v <==> Clean(v) && CleanType(v)
  {
    SanitizeKeepsShape(v);
    if v.Array? {
      if NarrowType(Sanitize(v)) == v { NarrowedSame(v.items); }
      WithoutNullIs(v.items);
    }
  }

  lemma {:induction false} FixedItemsIffClean(items: Items)
    ensures SanitizeItems(items) == items <==> CleanItems(items)
    decreases items
  {
    if items.Item? {
      FixedIffClean(items.head);
      FixedItemsIffClean(items.tail);
    }
  }

  /**
   * One pass settles the schema: no "type" list that is walked consists, nulls aside, of exactly one
   * list which would have to be narrowed itself.
   */
  predicate Settled(j: Json) {
    match j
    case Object(f) => SettledFields(f)
    case Array(items) => SettledItems(items)
    case _ => true
  }

  predicate SettledFields(f: Fields) {
    f.Field? ==>
      && (Rejected(f.key) || InstanceData(f.key) || (Settled(f.value) && (f.key == "type" ==> SettledType(f.value))))
      && SettledFields(f.rest)
  }

  predicate SettledItems(items: Items) {
    items.Item? ==> Settled(items.head) && SettledItems(items.tail)
  }

  predicate SettledType(v: Json) {
    v.Array? ==> match WithoutNull(v.items) case Item(only, NoItems) => CleanType(only) case _ => true
  }

  lemma {:induction false} SettledSkipsNull(items: Items)
    ensures SettledItems(WithoutNull(items)) <==> SettledItems(items)
  {
    if items.Item? { SettledSkipsNull(items.tail); }
  }

  lemma CleanTypeSanitized(v: Json)
    ensures CleanType(Sanitize(v)) <==> CleanType(v)
  {
    SanitizeKeepsShape(v);
    if v.Array? { SanitizeSkipsNull(v.items); }
  }

  // The result is clean exactly for a settled schema.

  lemma {:induction false} CleanedIffSettled(j: Json)
    ensures Clean(Sanitize(j)) <==> Settled(j)
    decreases j, 1
  {
    match j {
      case Object(f) => CleanedFieldsIffSettled(f);
      case Array(items) => CleanedItemsIffSettled(items);
      case _ =>
    }
  }

  lemma {:induction false} CleanedFieldsIffSettled(f: Fields)
    ensures CleanFields(SanitizeFields(f)) <==> SettledFields(f)
    decreases f, 0
  {
    if f.Field? {
      CleanedFieldsIffSettled(f.rest);
      CleanedIffSettled(f.value);
      if f.key == "type" { CleanedTypeIffSettled(f.value); }
    }
  }

  lemma {:induction false} CleanedItemsIffSettled(items: Items)
    ensures CleanItems(SanitizeItems(items)) <==> SettledItems(items)
    decreases items, 0
  {
    if items.Item? {
      CleanedIffSettled(items.head);
      CleanedItemsIffSettled(items.tail);
    }
  }

  lemma {:induction false} CleanSkipsNull(items: Items)
    ensures CleanItems(WithoutNull(items)) <==> CleanItems(items)
  {
    if items.Item? { CleanSkipsNull(items.tail); }
  }

  lemma CleanedTypeIffSettled(v: Json)
    requires Clean(Sanitize(v)) <==> Settled(v)
    ensures Clean(NarrowType(Sanitize(v))) && CleanType(NarrowType(Sanitize(v))) <==> Settled(v) && SettledType(v)
  {
    SanitizeKeepsShape(v);
    if v.Array? {
      var kept := WithoutNull(v.items);
      SanitizeSkipsNull(v.items);
      WithoutNullIs(SanitizeItems(v.items));
      CleanSkipsNull(SanitizeItems(v.items));
      match kept {
        case Item(only, NoItems) => CleanTypeSanitized(only);
        case _ =>
      }
    }
  }

  /** Only a clean schema is left as it is, and the result is clean exactly for a settled one. */
  lemma SanitizeCleans(j: Json)
    ensures Sanitize(j) == j <==> Clean(j)
    ensures Clean(Sanitize(j)) <==> Settled(j)
  {
    FixedIffClean(j);
    CleanedIffSettled(j);
  }

  /** Sanitising twice is sanitising once exactly for the schemas that one pass settles. */
  lemma IdempotentIffSettled(j: Json)
    ensures Sanitize(Sanitize(j)) == Sanitize(j) <==> Settled(j)
  {
    SanitizeCleans(j);
    SanitizeCleans(Sanitize(j));
  }

  lemma {:induction false} StringTypesSettle(j: Json)
    requires StringTypes(j)
    ensures Settled(j) && FlatSettled(j)
    decreases j
  {
    match j {
      case Object(f) => StringTypesFieldsSettle(f);
      case Array(items) => StringTypesItemsSettle(items);
      case _ =>
    }
  }

  lemma {:induction false} StringTypesFieldsSettle(f: Fields)
    requires StringTypesFields(f)
    ensures SettledFields(f) && FlatSettledFields(f)
    decreases f
  {
    if f.Field? {
      StringTypesSettle(f.value);
      StringTypesFieldsSettle(f.rest);
      if f.key == "type" && f.value.Array? { StringsStay(f.value.items); }
    }
  }

  lemma {:induction false} StringTypesItemsSettle(items: Items)
    requires StringTypesItems(items)
    ensures SettledItems(items) && FlatSettledItems(items)
    decreases items
  {
    if items.Item? {
      StringTypesSettle(items.head);
      StringTypesItemsSettle(items.tail);
    }
  }

  lemma {:induction false} StringsStay(items: Items)
    requires AllStrings(items)
    ensures AllStrings(WithoutNull(items))
  {
    if items.Item? { StringsStay(items.tail); }
  }

  /** In particular when type lists hold strings. */
  lemma SanitizeIsIdempotent(j: Json)
    requires StringTypes(j)
    ensures Sanitize(Sanitize(j)) == Sanitize(j)
  {
    StringTypesSettle(j);
    IdempotentIffSettled(j);
  }

  /** A list that is the only type is unwrapped by one pass and, unless it is clean, changed again by the next. */
  lemma NestedTypeListsUnwrap(inner: Items)
    ensures var j := Object(Field("type", Array(Item(Array(inner), NoItems)), NoFields));
            && Sanitize(j) == Object(Field("type", Array(SanitizeItems(inner)), NoFields))
            && (!CleanType(Array(inner)) ==> Sanitize(Sanitize(j)) != Sanitize(j))
  {
    var outer := Item(Array(inner), NoItems);
    var j := Object(Field("type", Array(outer), NoFields));
    assert SanitizeItems(outer) == Item(Array(SanitizeItems(inner)), NoItems);
    assert WithoutNull(SanitizeItems(outer)) == SanitizeItems(outer);
    assert WithoutNull(outer) == outer;
    assert Sanitize(Array(outer)) == Array(SanitizeItems(outer));
    assert NarrowType(Sanitize(Array(outer))) == Array(SanitizeItems(inner));
    assert SanitizeFields(NoFields) == NoFields;
    IdempotentIffSettled(j);
    assert !CleanType(Array(inner)) ==> !SettledType(Array(outer)) && !Settled(j);
  }

  /**
   * Exactly the rejected keys are dropped, also from a `properties` mapping, which is walked like a schema:
   * a tool property that happens to be called `minimum` is lost.
   */
  lemma {:induction false} OnlyRejectedKeysAreLost(f: Fields, key: string)
    ensures Lookup(SanitizeFields(f), key).Some? <==> Lookup(f, key).Some? && !Rejected(key)
    decreases f
  {
    if f.Field? { OnlyRejectedKeysAreLost(f.rest, key); }
  }

  // ---- flattening -------------------------------------------------------------------------------------------

  /** A non-empty "type" list becomes its first entry other than "null", else its first. */
  function FirstType(v: Json): (r: Json)
    ensures v.Array? && v.items.Item? ==> Size(r) < Size(v)
    ensures !(v.Array? && v.items.Item?) ==> r == v
  {
    if v.Array? && v.items.Item?
    then var rest := WithoutNull(v.items); if rest.Item? then rest.head else v.items.head
    else v
  }

  /** `_flatten_in_place`; it walks instance data like any other value. */
  function Flatten(j: Json): Json {
    match j
    case Object(f) => Object(FlattenFields(f))
    case Array(items) => Array(FlattenItems(items))
    case _ => j
  }

  function FlattenFields(f: Fields): Fields {
    match f
    case NoFields => NoFields
    case Field(k, v, rest) =>
      Field(k, if k == "type" then FirstType(Flatten(v)) else Flatten(v), FlattenFields(rest))
  }

  function FlattenItems(items: Items): Items {
    match items
    case NoItems => NoItems
    case Item(x, rest) => Item(Flatten(x), FlattenItems(rest))
  }

  /** No "type" is a non-empty list, anywhere. */
  predicate Flat(j: Json) {
    match j
    case Object(f) => FlatFields(f)
    case Array(items) => FlatItems(items)
    case _ => true
  }

  predicate FlatFields(f: Fields) {
    f.Field? ==>
      && !(f.key == "type" && f.value.Array? && f.value.items.Item?)
      && Flat(f.value) && FlatFields(f.rest)
  }

  predicate FlatItems(items: Items) {
    items.Item? ==> Flat(items.head) && FlatItems(items.tail)
  }

  predicate IsTypeList(v: Json) {
    v.Array? && v.items.Item?
  }

  lemma FlattenKeepsShape(j: Json)
    ensures IsTypeList(Flatten(j)) == IsTypeList(j) && (Flatten(j) == NULL <==> j == NULL)
  {
  }

  lemma {:induction false} FlattenSkipsNull(items: Items)
    ensures WithoutNull(FlattenItems(items)) == FlattenItems(WithoutNull(items))
  {
    if items.Item? {
      FlattenSkipsNull(items.tail);
      FlattenKeepsShape(items.head);
    }
  }

  /** The type a list is narrowed to does not depend on flattening its entries first. */
  lemma FirstTypeFlattened(v: Json)
    ensures FirstType(Flatten(v)) == Flatten(FirstType(v))
  {
    FlattenKeepsShape(v);
    if IsTypeList(v) { FlattenSkipsNull(v.items); }
  }

  lemma {:induction false} FlattenShrinks(j: Json)
    ensures Size(Flatten(j)) <= Size(j)
    decreases j
  {
    match j {
      case Object(f) => FlattenFieldsShrinks(f);
      case Array(items) => FlattenItemsShrinks(items);
      case _ =>
    }
  }

  lemma {:induction false} FlattenFieldsShrinks(f: Fields)
    ensures FieldsSize(FlattenFields(f)) <= FieldsSize(f)
    decreases f
  {
    if f.Field? {
      FlattenShrinks(f.value);
      FlattenFieldsShrinks(f.rest);
    }
  }

  lemma {:induction false} FlattenItemsShrinks(items: Items)
    ensures ItemsSize(FlattenItems(items)) <= ItemsSize(items)
    decreases items
  {
    if items.Item? {
      FlattenShrinks(items.head);
      FlattenItemsShrinks(items.tail);
    }
  }

  // Only a flat schema is left as it is.

  lemma {:induction false} FlattenFixedIffFlat(j: Json)
    ensures Flatten(j) == j <==> Flat(j)
    decreases j
  {
    match j {
      case Object(f) => FlattenFieldsFixedIffFlat(f);
      case Array(items) => FlattenItemsFixedIffFlat(items);
      case _ =>
    }
  }

  lemma {:induction false} FlattenFieldsFixedIffFlat(f: Fields)
    ensures FlattenFields(f) == f <==> FlatFields(f)
    decreases f
  {
    if f.Field? {
      FlattenFixedIffFlat(f.value);
      FlattenFieldsFixedIffFlat(f.rest);
      FlattenKeepsShape(f.value);
      FlattenShrinks(f.value);
    }
  }

  lemma {:induction false} FlattenItemsFixedIffFlat(items: Items)
    ensures FlattenItems(items) == items <==> FlatItems(items)
    decreases items
  {
    if items.Item? {
      FlattenFixedIffFlat(items.head);
      FlattenItemsFixedIffFlat(items.tail);
    }
  }

  /** One pass flattens the schema: no type that is kept is itself a non-empty list. */
  predicate FlatSettled(j: Json)
    decreases Size(j)
  {
    match j
    case Object(f) => FlatSettledFields(f)
    case Array(items) => FlatSettledItems(items)
    case _ => true
  }

  predicate FlatSettledFields(f: Fields)
    decreases FieldsSize(f)
  {
    f.Field? ==>
      && (if f.key == "type" then FlatSettled(FirstType(f.value)) && !IsTypeList(FirstType(f.value))
          else FlatSettled(f.value))
      && FlatSettledFields(f.rest)
  }

  predicate FlatSettledItems(items: Items)
    decreases ItemsSize(items)
  {
    items.Item? ==> FlatSettled(items.head) && FlatSettledItems(items.tail)
  }

  // The result is flat exactly for such a schema.

  lemma {:induction false} FlattenedIffSettled(j: Json)
    ensures Flat(Flatten(j)) <==> FlatSettled(j)
    decreases Size(j)
  {
    match j {
      case Object(f) => FlattenedFieldsIffSettled(f);
      case Array(items) => FlattenedItemsIffSettled(items);
      case _ =>
    }
  }

  lemma {:induction false} FlattenedFieldsIffSettled(f: Fields)
    ensures FlatFields(FlattenFields(f)) <==> FlatSettledFields(f)
    decreases FieldsSize(f)
  {
    if f.Field? {
      FlattenedFieldsIffSettled(f.rest);
      if f.key == "type" {
        FirstTypeFlattened(f.value);
        FlattenedIffSettled(FirstType(f.value));
        FlattenKeepsShape(FirstType(f.value));
      } else {
        FlattenedIffSettled(f.value);
      }
    }
  }

  lemma {:induction false} FlattenedItemsIffSettled(items: Items)
    ensures FlatItems(FlattenItems(items)) <==> FlatSettledItems(items)
    decreases ItemsSize(items)
  {
    if items.Item? {
      FlattenedIffSettled(items.head);
      FlattenedItemsIffSettled(items.tail);
    }
  }

  /** Only a flat schema is left as it is, and the result is flat exactly for a settled one. */
  lemma FlattenFlattens(j: Json)
    ensures Flatten(j) == j <==> Flat(j)
    ensures Flat(Flatten(j)) <==> FlatSettled(j)
  {
    FlattenFixedIffFlat(j);
    FlattenedIffSettled(j);
  }

  /** Flattening twice is flattening once exactly for the schemas that one pass flattens. */
  lemma FlattenIdempotentIffSettled(j: Json)
    ensures Flatten(Flatten(j)) == Flatten(j) <==> FlatSettled(j)
  {
    FlattenFlattens(j);
    FlattenFlattens(Flatten(j));
  }

  /** In particular when type lists hold strings. */
  lemma FlattenIsIdempotent(j: Json)
    requires StringTypes(j)
    ensures Flatten(Flatten(j)) == Flatten(j)
  {
    StringTypesSettle(j);
    FlattenIdempotentIffSettled(j);
  }

  // ---- hardening ----------------------------------------------------------------------------------------------

  predicate NamedChildren(key: string) {
    key == "properties" || key == "$defs" || key == "definitions" || key == "patternProperties"
  }

  predicate DirectChild(key: string) {
    key == "items" || key == "additionalItems" || key == "contains"
  }

  predicate ListedChildren(key: string) {
    key == "anyOf" || key == "oneOf" || key == "allOf" || key == "prefixItems"
  }

  function KeyList(f: Fields): Items {
    if f.Field? then Item(Str(f.key), KeyList(f.rest)) else NoItems
  }

  /** Without an `additionalProperties` of its own, a node is closed. */
  function Close(f: Fields): Fields {
    if Lookup(f, "additionalProperties") == None then Assign(f, "additionalProperties", Bool(false)) else f
  }

  /** The property names of a non-empty `properties` mapping, as a JSON list. */
  function PropertyNames(f: Fields): Option<Json> {
    match Lookup(f, "properties")
    case Some(Object(Field(k, v, rest))) => Some(Array(KeyList(Field(k, v, rest))))
    case _ => None
  }

  /** Every property is required. */
  function RequireAll(f: Fields): Fields {
    match PropertyNames(f)
    case Some(names) => Assign(f, "required", names)
    case None => f
  }

  predicate IsObjectType(f: Fields) {
    Lookup(f, "type") == Some(Str("object"))
  }

  /** What a node of type "object" is given. */
  function AddStrict(f: Fields): Fields {
    if IsObjectType(f) then RequireAll(Close(f)) else f
  }

  /**
   * `_walk`. The source adds the node's own keys before it walks the children; the two do not touch
   * each other's keys (StrictThenWalk).
   */
  function Harden(j: Json): Json
    decreases j, 0
  {
    match j
    case Object(f) => Object(AddStrict(HardenFields(f)))
    case Array(items) => Array(HardenItems(items))
    case _ => j
  }

  function HardenFields(f: Fields): Fields {
    match f
    case NoFields => NoFields
    case Field(k, v, rest) => Field(k, HardenChild(k, v), HardenFields(rest))
  }

  function HardenChild(k: string, v: Json): Json
    decreases v, 1
  {
    match v
    case Object(f) => if NamedChildren(k) then Object(HardenValues(f)) else if DirectChild(k) then Harden(v) else v
    case Array(items) => if DirectChild(k) || ListedChildren(k) then Array(HardenItems(items)) else v
    case _ => v
  }

  function HardenValues(f: Fields): Fields {
    match f
    case NoFields => NoFields
    case Field(k, v, rest) => Field(k, Harden(v), HardenValues(rest))
  }

  function HardenItems(items: Items): Items {
    match items
    case NoItems => NoItems
    case Item(x, rest) => Item(Harden(x), HardenItems(rest))
  }

  /** Strict mode's demand on one object node. */
  predicate Strict(f: Fields) {
    IsObjectType(f) ==>
      && Lookup(f, "additionalProperties").Some?
      && (PropertyNames(f).Some? ==> Lookup(f, "required") == PropertyNames(f))
  }

  /** Every node the walk reaches is strict. */
  predicate Hardened(j: Json)
    decreases j, 0
  {
    match j
    case Object(f) => Strict(f) && HardenedFields(f)
    case Array(items) => HardenedItems(items)
    case _ => true
  }

  predicate HardenedFields(f: Fields) {
    f.Field? ==> HardenedChild(f.key, f.value) && HardenedFields(f.rest)
  }

  predicate HardenedChild(k: string, v: Json)
    decreases v, 1
  {
    match v
    case Object(f) => if NamedChildren(k) then HardenedValues(f) else DirectChild(k) ==> Hardened(v)
    case Array(items) => DirectChild(k) || ListedChildren(k) ==> HardenedItems(items)
    case _ => true
  }

  predicate HardenedValues(f: Fields) {
    f.Field? ==> Hardened(f.value) && HardenedValues(f.rest)
  }

  predicate HardenedItems(items: Items) {
    items.Item? ==> Hardened(items.head) && HardenedItems(items.tail)
  }

  lemma CloseIs(f: Fields, k: string)
    ensures Lookup(Close(f), k)
         == if k == "additionalProperties" && Lookup(f, k) == None then Some(Bool(false)) else Lookup(f, k)
    ensures Close(f) == f <==> Lookup(f, "additionalProperties").Some?
  {
    LookupAssign(f, "additionalProperties", Bool(false), k);
    AssignSame(f, "additionalProperties", Bool(false));
  }

  lemma RequireAllIs(f: Fields, k: string)
    ensures Lookup(RequireAll(f), k) == if k == "required" && PropertyNames(f).Some? then PropertyNames(f) else Lookup(f, k)
    ensures RequireAll(f) == f <==> (PropertyNames(f).Some? ==> Lookup(f, "required") == PropertyNames(f))
  {
    match PropertyNames(f) {
      case Some(names) =>
        LookupAssign(f, "required", names, k);
        AssignSame(f, "required", names);
      case None =>
    }
  }

  /** `AddStrict` changes no other key. */
  lemma AddStrictAt(f: Fields, k: string)
    requires k != "additionalProperties" && k != "required"
    ensures Lookup(AddStrict(f), k) == Lookup(f, k)
  {
    CloseIs(f, k);
    RequireAllIs(Close(f), k);
  }

  /** `AddStrict` makes a node strict, and changes only a node that was not. */
  lemma AddStrictIs(f: Fields)
    ensures Strict(AddStrict(f)) && (Strict(f) ==> AddStrict(f) == f)
  {
    AddStrictAt(f, "type");
    AddStrictAt(f, "properties");
    if IsObjectType(f) {
      CloseIs(f, "properties");
      CloseIs(f, "additionalProperties");
      RequireAllIs(Close(f), "additionalProperties");
      RequireAllIs(Close(f), "required");
      RequireAllIs(f, "required");
    }
  }

  lemma {:induction false} AssignKeepsHardened(f: Fields, key: string, v: Json)
    requires HardenedFields(f) && !NamedChildren(key) && !DirectChild(key) && !ListedChildren(key)
    ensures HardenedFields(Assign(f, key, v))
  {
    if f.Field? && f.key != key { AssignKeepsHardened(f.rest, key, v); }
  }

  lemma AddStrictKeepsHardened(f: Fields)
    requires HardenedFields(f)
    ensures HardenedFields(AddStrict(f))
  {
    AssignKeepsHardened(f, "additionalProperties", Bool(false));
    match PropertyNames(Close(f)) {
      case Some(names) => AssignKeepsHardened(Close(f), "required", names);
      case None =>
    }
  }

  /** The result is hardened, and only a hardened schema is left as it is. */
  lemma {:induction false} HardenHardens(j: Json)
    ensures Hardened(Harden(j)) && (Hardened(j) ==> Harden(j) == j)
    decreases j, 0
  {
    match j {
      case Object(f) =>
        HardenFieldsHardens(f);
        AddStrictIs(HardenFields(f));
        AddStrictKeepsHardened(HardenFields(f));
      case Array(items) => HardenItemsHardens(items);
      case _ =>
    }
  }

  lemma {:induction false} HardenFieldsHardens(f: Fields)
    ensures HardenedFields(HardenFields(f)) && (HardenedFields(f) ==> HardenFields(f) == f)
    decreases f
  {
    if f.Field? {
      HardenFieldsHardens(f.rest);
      HardenChildHardens(f.key, f.value);
    }
  }

  lemma {:induction false} HardenChildHardens(k: string, v: Json)
    ensures HardenedChild(k, HardenChild(k, v)) && (HardenedChild(k, v) ==> HardenChild(k, v) == v)
    decreases v, 1
  {
    match v {
      case Object(f) =>
        HardenHardens(v);
        HardenValuesHardens(f);
      case Array(items) =>
        HardenItemsHardens(items);
      case _ =>
    }
  }

  lemma {:induction false} HardenValuesHardens(f: Fields)
    ensures HardenedValues(HardenValues(f)) && (HardenedValues(f) ==> HardenValues(f) == f)
    decreases f
  {
    if f.Field? {
      HardenHardens(f.value);
      HardenValuesHardens(f.rest);
    }
  }

  lemma {:induction false} HardenItemsHardens(items: Items)
    ensures HardenedItems(HardenItems(items)) && (HardenedItems(items) ==> HardenItems(items) == items)
    decreases items
  {
    if items.Item? {
      HardenHardens(items.head);
      HardenItemsHardens(items.tail);
    }
  }

  /** Hardening leaves a schema alone exactly when it is hardened; so doing it twice is doing it once. */
  lemma HardenedIffFixed(j: Json)
    ensures Hardened(j) <==> Harden(j) == j
    ensures Harden(Harden(j)) == Harden(j)
  {
    HardenHardens(j);
    HardenHardens(Harden(j));
  }

  // ---- the order of hardening ------------------------------------------------------------------------------------

  lemma {:induction false} LookupHardened(f: Fields, key: string)
    ensures Lookup(HardenFields(f), key)
         == match Lookup(f, key) case None => None case Some(v) => Some(HardenChild(key, v))
  {
    if f.Field? { LookupHardened(f.rest, key); }
  }

  lemma {:induction false} AssignThenWalk(f: Fields, key: string, v: Json)
    requires HardenChild(key, v) == v
    ensures HardenFields(Assign(f, key, v)) == Assign(HardenFields(f), key, v)
  {
    if f.Field? { AssignThenWalk(f.rest, key, v); }
  }

  lemma {:induction false} SameKeys(f: Fields)
    ensures KeyList(HardenValues(f)) == KeyList(f)
  {
    if f.Field? { SameKeys(f.rest); }
  }

  /** Adding a node's keys before walking its children, as the source does, gives the same node. */
  lemma StrictThenWalk(f: Fields)
    ensures HardenFields(AddStrict(f)) == AddStrict(HardenFields(f))
  {
    LookupHardened(f, "type");
    if IsObjectType(f) {
      WalkThenClose(f);
      WalkThenRequire(Close(f));
    }
  }

  lemma WalkThenClose(f: Fields)
    ensures HardenFields(Close(f)) == Close(HardenFields(f))
  {
    LookupHardened(f, "additionalProperties");
    AssignThenWalk(f, "additionalProperties", Bool(false));
  }

  lemma WalkThenRequire(f: Fields)
    ensures HardenFields(RequireAll(f)) == RequireAll(HardenFields(f))
  {
    LookupHardened(f, "properties");
    match Lookup(f, "properties") {
      case Some(Object(p)) =>
        SameKeys(p);
        AssignThenWalk(f, "required", Array(KeyList(p)));
      case _ =>
    }
  }

  // ---- the passes, key by key -------------------------------------------------------------------------------------

  /** A type list as it is written. */
  function Listed(entries: seq<Json>): Items {
    if entries == [] then NoItems else Item(entries[0], Listed(entries[1..]))
  }

  predicate NoneIsNull(entries: seq<Json>) {
    forall i | 0 <= i < |entries| :: entries[i] != Str("null")
  }

  lemma {:induction false} OthersStay(entries: seq<Json>)
    requires NoneIsNull(entries)
    ensures WithoutNull(Listed(entries)) == Listed(entries)
  {
    if entries != [] { OthersStay(entries[1..]); }
  }

  lemma {:induction false} NullsVanish(a: seq<Json>, b: seq<Json>)
    ensures WithoutNull(Listed(a + [Str("null")] + b)) == WithoutNull(Listed(a + b))
  {
    if a == [] {
      assert a + [Str("null")] + b == [Str("null")] + b && a + b == b;
      assert ([Str("null")] + b)[1..] == b;
    } else {
      assert (a + [Str("null")] + b)[1..] == a[1..] + [Str("null")] + b && (a + b)[1..] == a[1..] + b;
      NullsVanish(a[1..], b);
    }
  }

  /** Nulls aside, a type list without entries becomes "string", one entry replaces it, and more stay a list. */
  lemma NarrowedTypeIs(v: Json, kept: seq<Json>)
    requires v.Array? && WithoutNull(v.items) == Listed(kept)
    ensures NarrowType(v) == if |kept| == 0 then Str("string") else if |kept| == 1 then kept[0] else Array(Listed(kept))
  {
    assert |kept| > 0 ==> Listed(kept).head == kept[0] && Listed(kept).tail == Listed(kept[1..]);
    assert |kept| == 1 ==> kept[1..] == [];
  }

  /** What sanitising makes of each key of a node. */
  lemma {:induction false} SanitizedAt(f: Fields, key: string)
    ensures Lookup(SanitizeFields(f), key)
         == match Lookup(f, key)
            case None => None
            case Some(v) =>
              if key in {"minimum", "maximum", "exclusiveMinimum", "exclusiveMaximum"} then None
              else if key in {"default", "const", "enum", "example", "examples"} then Some(v)
              else if key == "type" then Some(NarrowType(Sanitize(v)))
              else Some(Sanitize(v))
  {
    if f.Field? { SanitizedAt(f.rest, key); }
  }

  /** The type that flattening picks: the first that is not "null", else the first. */
  lemma PickedTypeIs(entries: seq<Json>, n: nat)
    requires n < |entries| && entries[n] != Str("null") && forall i | 0 <= i < n :: entries[i] == Str("null")
    ensures FirstType(Array(Listed(entries))) == entries[n]
  {
    FirstKept(entries, n);
  }

  lemma {:induction false} FirstKept(entries: seq<Json>, n: nat)
    requires n < |entries| && entries[n] != Str("null") && forall i | 0 <= i < n :: entries[i] == Str("null")
    ensures WithoutNull(Listed(entries)).Item? && WithoutNull(Listed(entries)).head == entries[n]
  {
    if n > 0 {
      assert entries[1..][n - 1] == entries[n];
      FirstKept(entries[1..], n - 1);
    }
  }

  lemma OnlyNullsPicked(entries: seq<Json>)
    requires entries != [] && forall i | 0 <= i < |entries| :: entries[i] == Str("null")
    ensures FirstType(Array(Listed(entries))) == Str("null")
  {
    NothingKept(entries);
  }

  lemma {:induction false} NothingKept(entries: seq<Json>)
    requires forall i | 0 <= i < |entries| :: entries[i] == Str("null")
    ensures WithoutNull(Listed(entries)) == NoItems
  {
    if entries != [] { NothingKept(entries[1..]); }
  }

  lemma {:induction false} FlattenedAt(f: Fields, key: string)
    ensures Lookup(FlattenFields(f), key)
         == match Lookup(f, key)
            case None => None
            case Some(v) => if key == "type" then Some(FirstType(Flatten(v))) else Some(Flatten(v))
  {
    if f.Field? { FlattenedAt(f.rest, key); }
  }

  lemma {:induction false} KeyListHolds(f: Fields, name: string)
    ensures Has(KeyList(f), Str(name)) <==> Lookup(f, name).Some?
  {
    if f.Field? { KeyListHolds(f.rest, name); }
  }

  predicate Has(items: Items, j: Json) {
    items.Item? && (items.head == j || Has(items.tail, j))
  }

  /** An object node is closed unless it says otherwise, requires exactly its properties, and keeps everything else. */
  lemma StrictNodeIs(f: Fields, key: string, name: string)
    ensures Lookup(f, "type") != Some(Str("object")) ==> AddStrict(f) == f
    ensures Lookup(f, "type") == Some(Str("object")) ==>
              && (key != "additionalProperties" && key != "required" ==> Lookup(AddStrict(f), key) == Lookup(f, key))
              && Lookup(AddStrict(f), "additionalProperties")
                 == (if Lookup(f, "additionalProperties") == None then Some(Bool(false))
                     else Lookup(f, "additionalProperties"))
    ensures Lookup(f, "type") == Some(Str("object")) ==>
              var properties, required := Lookup(f, "properties"), Lookup(AddStrict(f), "required");
              if properties.Some? && properties.value.Object? && properties.value.fields.Field? then
                && required.Some? && required.value.Array?
                && (Has(required.value.items, Str(name)) <==> Lookup(properties.value.fields, name).Some?)
              else required == Lookup(f, "required")
  {
    CloseIs(f, "properties");
    CloseIs(f, "required");
    CloseIs(f, "additionalProperties");
    CloseIs(f, key);
    RequireAllIs(Close(f), key);
    RequireAllIs(Close(f), "required");
    RequireAllIs(Close(f), "additionalProperties");
    var properties := Lookup(f, "properties");
    if properties.Some? && properties.value.Object? { KeyListHolds(properties.value.fields, name); }
  }

  /** Which subschemas the walk descends into. */
  lemma {:induction false} WalkedAt(f: Fields, key: string)
    ensures Lookup(HardenFields(f), key)
         == match Lookup(f, key)
            case None => None
            case Some(Object(g)) =>
              if key in {"properties", "$defs", "definitions", "patternProperties"} then Some(Object(HardenValues(g)))
              else if key in {"items", "additionalItems", "contains"} then Some(Harden(Object(g)))
              else Some(Object(g))
            case Some(Array(items)) =>
              if key in {"items", "additionalItems", "contains", "anyOf", "oneOf", "allOf", "prefixItems"}
              then Some(Array(HardenItems(items))) else Some(Array(items))
            case Some(other) => Some(other)
  {
    if f.Field? { WalkedAt(f.rest, key); }
  }

  lemma {:induction false} WalkedValueAt(f: Fields, key: string)
    ensures Lookup(HardenValues(f), key)
         == match Lookup(f, key) case None => None case Some(v) => Some(Harden(v))
  {
    if f.Field? { WalkedValueAt(f.rest, key); }
  }
}
