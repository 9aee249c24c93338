/** The record layer: `first`, attribute reads with stored defaults, the related-value
    lists (identifiers, links, contact details) and the richness ordering. */
module Base {
  import opened Wrappers
  import opened Json
  import opened ApproxDates

  /** `first(l)`: the first item of a list, or None when it is empty. */
  function First<T>(s: seq<T>): (r: Option<T>)
    ensures r.None? <==> |s| == 0
    ensures r.Some? ==> r.value == s[0]
  {
    if |s| == 0 then None else Some(s[0])
  }

  /** The value of an optional item, or None (Python's `x` where `x` may be None). */
  function OrNull(o: Option<Value>): Value {
    if o.Some? then o.value else Null
  }

  // ---------------------------------------------------------------- attributes

  /** An `Attribute` descriptor: the key it reads, its default and whether None is a
      permitted default. */
  datatype Attribute = Attribute(key: string, default: Value, allowNull: bool)

  /** Reads of this attribute return `data.get(key)` and never store anything. */
  predicate ReadsPlain(attr: Attribute) {
    !attr.allowNull && attr.default == Null
  }

  /** `Attribute.__get__`: the value read and the record's data afterwards. A missing key
      with a default (or `null=True`) stores a copy of the default and returns it. */
  function ReadAttribute(data: Data, attr: Attribute): (r: (Value, Data))
    ensures forall k :: k != attr.key ==> (k in r.1 <==> k in data)
    ensures forall k :: k in data ==> k in r.1 && r.1[k] == data[k]
    ensures attr.key in r.1 <==> attr.key in data || !ReadsPlain(attr)
    ensures attr.key in r.1 ==> r.0 == r.1[attr.key]
    ensures attr.key !in data ==> r.0 == if ReadsPlain(attr) then Null else attr.default
  {
    if ReadsPlain(attr) then (Get(data, attr.key), data)
    else if attr.key in data then (data[attr.key], data)
    else (attr.default, data[attr.key := attr.default])
  }

  /** A second read returns what the first returned and changes nothing. */
  lemma ReadAttributeTwice(data: Data, attr: Attribute)
    ensures var (v, d) := ReadAttribute(data, attr); ReadAttribute(d, attr) == (v, d)
  {
  }

  /** `get_date` (and so `DateAttribute.__get__`): a truthy stored value is read with
      `approx_date_getter`, anything falsy or missing yields the default. */
  function DateField(data: Data, key: string, default: ApproxDate): (r: Result<ApproxDate, DateError>)
    ensures !Truthy(Get(data, key)) ==> r == Success(default)
    ensures Truthy(Get(data, key)) && !Get(data, key).Str? ==> r == Failure(NotText)
    ensures Truthy(Get(data, key)) && Get(data, key).Str? ==> r == ApproxDateGetter(Get(data, key).s)
  {
    var d := Get(data, key);
    if !Truthy(d) then Success(default)
    else if d.Str? then ApproxDateGetter(d.s)
    else Failure(NotText)
  }

  /** A date stored in its canonical text form reads back as the same interval. */
  lemma DateFieldOfFormat(data: Data, key: string, a: ApproxDate, default: ApproxDate)
    requires Valid(a)
    requires a.earliest == a.latest || !(IsWholeMonth(a) || IsWholeYear(a)) || a.earliest.year >= 1000
    requires Get(data, key) == Str(Format(a))
    ensures DateField(data, key, default) == Success(a)
  {
    GetterOfFormat(a);
  }

  // ---------------------------------------------------------------- related lists

  /** `o[type_key] == type_name` for an entry `o` of a related list. */
  predicate Matches(entry: Value, typeKey: string, typeName: string) {
    entry.Obj? && typeKey in entry.fields && entry.fields[typeKey] == Str(typeName)
  }

  /** Every entry is a dictionary holding the type key; on any other list the source
      raises KeyError. */
  predicate Keyed(items: seq<Value>, typeKey: string) {
    forall i :: 0 <= i < |items| ==> items[i].Obj? && typeKey in items[i].fields
  }

  /** Every entry of the wanted type holds the value key. */
  predicate Readable(items: seq<Value>, typeKey: string, typeName: string, valueKey: string) {
    forall i :: 0 <= i < |items| && Matches(items[i], typeKey, typeName) ==> valueKey in items[i].fields
  }

  /** The index of the first entry of the wanted type. */
  function FirstMatch(items: seq<Value>, typeKey: string, typeName: string): (r: Option<nat>)
    ensures r.Some? ==> r.value < |items| && Matches(items[r.value], typeKey, typeName)
    ensures r.Some? ==> forall j :: 0 <= j < r.value ==> !Matches(items[j], typeKey, typeName)
    ensures r.None? ==> forall j :: 0 <= j < |items| ==> !Matches(items[j], typeKey, typeName)
  {
    if items == [] then None
    else if Matches(items[0], typeKey, typeName) then Some(0)
    else match FirstMatch(items[1..], typeKey, typeName)
      case None => None
      case Some(i) => Some(i + 1)
  }

  /** `get_related_values`: the value of every entry of the wanted type, in list order. */
  function ValuesOf(items: seq<Value>, typeKey: string, typeName: string, valueKey: string): (r: seq<Value>)
    requires Readable(items, typeKey, typeName, valueKey)
    ensures |r| <= |items|
    ensures forall v :: v in r <==> exists i :: 0 <= i < |items| && HoldsValue(items[i], typeKey, typeName, valueKey, v)
  {
    if items == [] then []
    else
      (if Matches(items[0], typeKey, typeName) then [items[0].fields[valueKey]] else [])
      + ValuesOf(items[1..], typeKey, typeName, valueKey)
  }

  /** Entry `e` is of the wanted type and holds `v` under the value key. */
  predicate HoldsValue(e: Value, typeKey: string, typeName: string, valueKey: string, v: Value) {
    Matches(e, typeKey, typeName) && valueKey in e.fields && e.fields[valueKey] == v
  }

  /** The values are empty exactly when no entry has the type, and otherwise start with
      the value of the first entry that has it. */
  lemma {:induction false} ValuesOfFirst(items: seq<Value>, typeKey: string, typeName: string, valueKey: string)
    requires Readable(items, typeKey, typeName, valueKey)
    ensures var r := ValuesOf(items, typeKey, typeName, valueKey);
      && (r == [] <==> FirstMatch(items, typeKey, typeName).None?)
      && (r != [] ==> r[0] == items[FirstMatch(items, typeKey, typeName).value].fields[valueKey])
  {
    if items != [] && !Matches(items[0], typeKey, typeName) {
      ValuesOfFirst(items[1..], typeKey, typeName, valueKey);
    }
  }

  lemma {:induction false} ValuesOfConcat(a: seq<Value>, b: seq<Value>, typeKey: string, typeName: string, valueKey: string)
    requires Readable(a, typeKey, typeName, valueKey) && Readable(b, typeKey, typeName, valueKey)
    ensures Readable(a + b, typeKey, typeName, valueKey)
    ensures ValuesOf(a + b, typeKey, typeName, valueKey)
         == ValuesOf(a, typeKey, typeName, valueKey) + ValuesOf(b, typeKey, typeName, valueKey)
  {
    if a != [] {
      assert (a + b)[1..] == a[1..] + b;
      ValuesOfConcat(a[1..], b, typeKey, typeName, valueKey);
    } else {
      assert a + b == b;
    }
  }

  /** Drops the first element of a list, if any. */
  function Drop1<T>(s: seq<T>): seq<T> {
    if s == [] then [] else s[1..]
  }

  /** The entry `set_related_values` appends: `{type_key: type_name, value_key: value}`. */
  function NewEntry(typeKey: string, typeName: string, valueKey: string, value: Value): Value {
    Obj(map[typeKey := Str(typeName)][valueKey := value])
  }

  /** `set_related_values` on the list: overwrite the value of the first entry of the
      wanted type, or else append a new entry. */
  function SetEntry(items: seq<Value>, typeKey: string, typeName: string, valueKey: string, value: Value): (r: seq<Value>)
    requires Keyed(items, typeKey)
    ensures Keyed(r, typeKey)
    ensures |r| == |items| + (if FirstMatch(items, typeKey, typeName).Some? then 0 else 1)
    ensures forall j :: 0 <= j < |items| && Some(j) != FirstMatch(items, typeKey, typeName) ==> r[j] == items[j]
    ensures FirstMatch(items, typeKey, typeName).Some? ==>
      var i := FirstMatch(items, typeKey, typeName).value; r[i] == Obj(items[i].fields[valueKey := value])
    ensures FirstMatch(items, typeKey, typeName).None? ==> r[|items|] == NewEntry(typeKey, typeName, valueKey, value)
  {
    match FirstMatch(items, typeKey, typeName)
    case Some(i) => items[i := Obj(items[i].fields[valueKey := value])]
    case None => items + [NewEntry(typeKey, typeName, valueKey, value)]
  }

  /** `del_related_values` on the list: remove the first entry of the wanted type. */
  function DelEntry(items: seq<Value>, typeKey: string, typeName: string): (r: seq<Value>)
    ensures FirstMatch(items, typeKey, typeName).None? ==> r == items
    ensures FirstMatch(items, typeKey, typeName).Some? ==>
      var i := FirstMatch(items, typeKey, typeName).value;
      r == items[..i] + items[i + 1..] && multiset(r) + multiset{items[i]} == multiset(items)
  {
    match FirstMatch(items, typeKey, typeName)
    case Some(i) =>
      assert items == items[..i] + [items[i]] + items[i + 1..];
      items[..i] + items[i + 1..]
    case None => items
  }

  /** An entry list split around position `i`. */
  lemma SplitAt(items: seq<Value>, i: nat)
    requires i < |items|
    ensures items == items[..i] + [items[i]] + items[i + 1..]
  {
  }

  /** Reading back after a set: the new value comes first and the first old value of that
      type is gone (overwritten); with no old value the new entry is the only one. */
  lemma SetThenValues(items: seq<Value>, typeKey: string, typeName: string, valueKey: string, value: Value)
    requires typeKey != valueKey
    requires Keyed(items, typeKey) && Readable(items, typeKey, typeName, valueKey)
    ensures Readable(SetEntry(items, typeKey, typeName, valueKey, value), typeKey, typeName, valueKey)
    ensures ValuesOf(SetEntry(items, typeKey, typeName, valueKey, value), typeKey, typeName, valueKey)
         == [value] + Drop1(ValuesOf(items, typeKey, typeName, valueKey))
  {
    match FirstMatch(items, typeKey, typeName)
    case None =>
      var x := [NewEntry(typeKey, typeName, valueKey, value)];
      assert ValuesOf(x, typeKey, typeName, valueKey) == [value];
      ValuesOfFirst(items, typeKey, typeName, valueKey);
      ValuesOfConcat(items, x, typeKey, typeName, valueKey);
    case Some(i) =>
      OverwriteThenValues(items, i, typeKey, typeName, valueKey, value);
  }

  /** The overwrite half of `SetThenValues`. */
  lemma OverwriteThenValues(items: seq<Value>, i: nat, typeKey: string, typeName: string, valueKey: string, value: Value)
    requires typeKey != valueKey
    requires Readable(items, typeKey, typeName, valueKey)
    requires FirstMatch(items, typeKey, typeName) == Some(i)
    ensures Readable(items[i := Obj(items[i].fields[valueKey := value])], typeKey, typeName, valueKey)
    ensures ValuesOf(items[i := Obj(items[i].fields[valueKey := value])], typeKey, typeName, valueKey)
         == [value] + Drop1(ValuesOf(items, typeKey, typeName, valueKey))
  {
    var e := Obj(items[i].fields[valueKey := value]);
    assert Matches(e, typeKey, typeName);
    ReadableParts(items, i, typeKey, typeName, valueKey);
    NoValuesBefore(items, i, typeKey, typeName, valueKey);
    var vPost := ValuesOf(items[i + 1..], typeKey, typeName, valueKey);
    ReplaceAt(items, i, e, typeKey, typeName, valueKey);
    assert ValuesOf(items[i := e], typeKey, typeName, valueKey) == [value] + vPost;
    ReplaceAt(items, i, items[i], typeKey, typeName, valueKey);
    assert items[i := items[i]] == items;
    assert ValuesOf(items, typeKey, typeName, valueKey) == [items[i].fields[valueKey]] + vPost;
  }

  /** Values of a list with the entry at position `i` replaced by `e`. */
  lemma ReplaceAt(items: seq<Value>, i: nat, e: Value, typeKey: string, typeName: string, valueKey: string)
    requires i < |items| && Readable(items, typeKey, typeName, valueKey)
    requires Matches(e, typeKey, typeName) ==> valueKey in e.fields
    ensures Readable(items[i := e], typeKey, typeName, valueKey)
    ensures ValuesOf(items[i := e], typeKey, typeName, valueKey)
         == ValuesOf(items[..i], typeKey, typeName, valueKey)
            + (if Matches(e, typeKey, typeName) then [e.fields[valueKey]] else [])
            + ValuesOf(items[i + 1..], typeKey, typeName, valueKey)
  {
    assert items[i := e] == items[..i] + [e] + items[i + 1..];
    ReadableParts(items, i, typeKey, typeName, valueKey);
    ValuesAround(items[..i], e, items[i + 1..], typeKey, typeName, valueKey);
  }

  /** Values of a list with one entry singled out. */
  lemma ValuesAround(pre: seq<Value>, e: Value, post: seq<Value>, typeKey: string, typeName: string, valueKey: string)
    requires Readable(pre, typeKey, typeName, valueKey) && Readable(post, typeKey, typeName, valueKey)
    requires Matches(e, typeKey, typeName) ==> valueKey in e.fields
    ensures Readable(pre + [e] + post, typeKey, typeName, valueKey)
    ensures ValuesOf(pre + [e] + post, typeKey, typeName, valueKey)
         == ValuesOf(pre, typeKey, typeName, valueKey)
            + (if Matches(e, typeKey, typeName) then [e.fields[valueKey]] else [])
            + ValuesOf(post, typeKey, typeName, valueKey)
  {
    assert ValuesOf([e], typeKey, typeName, valueKey)
        == (if Matches(e, typeKey, typeName) then [e.fields[valueKey]] else []);
    ValuesOfConcat(pre, [e], typeKey, typeName, valueKey);
    ValuesOfConcat(pre + [e], post, typeKey, typeName, valueKey);
  }

  /** A set of one type leaves the values of every other type as they were. */
  lemma SetKeepsOtherTypes(items: seq<Value>, typeKey: string, typeName: string, other: string,
                           valueKey: string, value: Value)
    requires typeKey != valueKey && other != typeName
    requires Keyed(items, typeKey) && Readable(items, typeKey, other, valueKey)
    ensures Readable(SetEntry(items, typeKey, typeName, valueKey, value), typeKey, other, valueKey)
    ensures ValuesOf(SetEntry(items, typeKey, typeName, valueKey, value), typeKey, other, valueKey)
         == ValuesOf(items, typeKey, other, valueKey)
  {
    match FirstMatch(items, typeKey, typeName)
    case None =>
      var x := [NewEntry(typeKey, typeName, valueKey, value)];
      assert ValuesOf(x, typeKey, other, valueKey) == [];
      ValuesOfConcat(items, x, typeKey, other, valueKey);
    case Some(i) =>
      var e := Obj(items[i].fields[valueKey := value]);
      var pre, post := items[..i], items[i + 1..];
      SplitAt(items, i);
      assert items[i := e] == pre + [e] + post;
      assert !Matches(e, typeKey, other) && !Matches(items[i], typeKey, other);
      ReadableParts(items, i, typeKey, other, valueKey);
      ValuesAround(pre, e, post, typeKey, other, valueKey);
      ValuesAround(pre, items[i], post, typeKey, other, valueKey);
  }

  /** The parts of a readable list around position `i` are readable. */
  lemma ReadableParts(items: seq<Value>, i: nat, typeKey: string, typeName: string, valueKey: string)
    requires i < |items| && Readable(items, typeKey, typeName, valueKey)
    ensures Readable(items[..i], typeKey, typeName, valueKey) && Readable(items[i + 1..], typeKey, typeName, valueKey)
    ensures Matches(items[i], typeKey, typeName) ==> valueKey in items[i].fields
  {
  }

  /** Reading back after a delete: exactly the first value of that type is gone. */
  lemma DelThenValues(items: seq<Value>, typeKey: string, typeName: string, other: string, valueKey: string)
    requires Readable(items, typeKey, other, valueKey)
    ensures Readable(DelEntry(items, typeKey, typeName), typeKey, other, valueKey)
    ensures ValuesOf(DelEntry(items, typeKey, typeName), typeKey, other, valueKey)
         == if other == typeName then Drop1(ValuesOf(items, typeKey, other, valueKey))
            else ValuesOf(items, typeKey, other, valueKey)
  {
    if other == typeName {
      DelSameType(items, typeKey, typeName, valueKey);
    } else {
      DelOtherType(items, typeKey, typeName, other, valueKey);
    }
  }

  lemma DelSameType(items: seq<Value>, typeKey: string, typeName: string, valueKey: string)
    requires Readable(items, typeKey, typeName, valueKey)
    ensures Readable(DelEntry(items, typeKey, typeName), typeKey, typeName, valueKey)
    ensures ValuesOf(DelEntry(items, typeKey, typeName), typeKey, typeName, valueKey)
         == Drop1(ValuesOf(items, typeKey, typeName, valueKey))
  {
    match FirstMatch(items, typeKey, typeName)
    case None =>
      ValuesOfFirst(items, typeKey, typeName, valueKey);
    case Some(i) =>
      var r := DelEntry(items, typeKey, typeName);
      assert r == items[..i] + items[i + 1..];
      DelAt(items, i, typeKey, typeName, valueKey);
      NoValuesBefore(items, i, typeKey, typeName, valueKey);
      var vPost := ValuesOf(items[i + 1..], typeKey, typeName, valueKey);
      assert ValuesOf(r, typeKey, typeName, valueKey) == vPost;
      assert ValuesOf(items, typeKey, typeName, valueKey) == [items[i].fields[valueKey]] + vPost;
  }

  lemma DelOtherType(items: seq<Value>, typeKey: string, typeName: string, other: string, valueKey: string)
    requires other != typeName && Readable(items, typeKey, other, valueKey)
    ensures Readable(DelEntry(items, typeKey, typeName), typeKey, other, valueKey)
    ensures ValuesOf(DelEntry(items, typeKey, typeName), typeKey, other, valueKey)
         == ValuesOf(items, typeKey, other, valueKey)
  {
    var fm := FirstMatch(items, typeKey, typeName);
    if fm.Some? {
      var i := fm.value;
      var r := DelEntry(items, typeKey, typeName);
      assert r == items[..i] + items[i + 1..];
      DelAt(items, i, typeKey, other, valueKey);
      assert !Matches(items[i], typeKey, other);
    }
  }

  /** No value is read before the first match. */
  lemma NoValuesBefore(items: seq<Value>, i: nat, typeKey: string, typeName: string, valueKey: string)
    requires FirstMatch(items, typeKey, typeName) == Some(i)
    requires Readable(items[..i], typeKey, typeName, valueKey)
    ensures ValuesOf(items[..i], typeKey, typeName, valueKey) == []
  {
    assert forall j :: 0 <= j < i ==> items[..i][j] == items[j];
    assert FirstMatch(items[..i], typeKey, typeName).None?;
    ValuesOfFirst(items[..i], typeKey, typeName, valueKey);
  }

  /** Values of a list with position `i` removed. */
  lemma DelAt(items: seq<Value>, i: nat, typeKey: string, typeName: string, valueKey: string)
    requires i < |items| && Readable(items, typeKey, typeName, valueKey)
    ensures Readable(items[..i] + items[i + 1..], typeKey, typeName, valueKey)
    ensures ValuesOf(items[..i] + items[i + 1..], typeKey, typeName, valueKey)
         == ValuesOf(items[..i], typeKey, typeName, valueKey) + ValuesOf(items[i + 1..], typeKey, typeName, valueKey)
    ensures ValuesOf(items, typeKey, typeName, valueKey)
         == ValuesOf(items[..i], typeKey, typeName, valueKey)
            + (if Matches(items[i], typeKey, typeName) then [items[i].fields[valueKey]] else [])
            + ValuesOf(items[i + 1..], typeKey, typeName, valueKey)
  {
    SplitAt(items, i);
    ReadableParts(items, i, typeKey, typeName, valueKey);
    ValuesAround(items[..i], items[i], items[i + 1..], typeKey, typeName, valueKey);
    ValuesOfConcat(items[..i], items[i + 1..], typeKey, typeName, valueKey);
  }

  // ---------------------------------------------------------------- on a record's data

  /** `get_related_object_list`: the list stored under `arr`, or an empty one. */
  function RelatedList(data: Data, arr: string): seq<Value> {
    if arr in data && data[arr].Arr? then data[arr].items else []
  }

  /** The list under `arr`, if any, is a list of entries that carry the type key. */
  predicate ListShaped(data: Data, arr: string, typeKey: string) {
    arr in data ==> data[arr].Arr? && Keyed(data[arr].items, typeKey)
  }

  predicate ListReadable(data: Data, arr: string, typeKey: string, typeName: string, valueKey: string) {
    ListShaped(data, arr, typeKey) && Readable(RelatedList(data, arr), typeKey, typeName, valueKey)
  }

  function RelatedValues(data: Data, arr: string, typeKey: string, typeName: string, valueKey: string): seq<Value>
    requires ListReadable(data, arr, typeKey, typeName, valueKey)
  {
    ValuesOf(RelatedList(data, arr), typeKey, typeName, valueKey)
  }

  /** The record's data after `set_related_values`. */
  function SetRelated(data: Data, arr: string, typeKey: string, typeName: string, valueKey: string, value: Value): (r: Data)
    requires ListShaped(data, arr, typeKey)
    ensures ListShaped(r, arr, typeKey)
    ensures forall k :: k != arr ==> (k in r <==> k in data) && (k in data ==> r[k] == data[k])
  {
    data[arr := Arr(SetEntry(RelatedList(data, arr), typeKey, typeName, valueKey, value))]
  }

  /** The record's data after `del_related_values`. */
  function DelRelated(data: Data, arr: string, typeKey: string, typeName: string): (r: Data)
    requires ListShaped(data, arr, typeKey)
    ensures ListShaped(r, arr, typeKey)
    ensures forall k :: k != arr ==> (k in r <==> k in data) && (k in data ==> r[k] == data[k])
  {
    var items := RelatedList(data, arr);
    match FirstMatch(items, typeKey, typeName)
    case None => data
    case Some(i) =>
      KeyedWithout(items, i, typeKey);
      data[arr := Arr(DelEntry(items, typeKey, typeName))]
  }

  /** Removing one entry keeps a keyed list keyed. */
  lemma KeyedWithout(items: seq<Value>, i: nat, typeKey: string)
    requires i < |items| && Keyed(items, typeKey)
    ensures Keyed(items[..i] + items[i + 1..], typeKey)
  {
    var r := items[..i] + items[i + 1..];
    forall j | 0 <= j < |r|
      ensures r[j].Obj? && typeKey in r[j].fields
    {
      assert r[j] == if j < i then items[j] else items[j + 1];
    }
  }

  /** Everything one may read back after a set, at record level. */
  lemma SetRelatedThenValues(data: Data, arr: string, typeKey: string, typeName: string, other: string,
                             valueKey: string, value: Value)
    requires typeKey != valueKey
    requires ListReadable(data, arr, typeKey, other, valueKey)
    ensures ListReadable(SetRelated(data, arr, typeKey, typeName, valueKey, value), arr, typeKey, other, valueKey)
    ensures RelatedValues(SetRelated(data, arr, typeKey, typeName, valueKey, value), arr, typeKey, other, valueKey)
         == if other == typeName then [value] + Drop1(RelatedValues(data, arr, typeKey, other, valueKey))
            else RelatedValues(data, arr, typeKey, other, valueKey)
  {
    var items := RelatedList(data, arr);
    if other == typeName {
      SetThenValues(items, typeKey, typeName, valueKey, value);
    } else {
      SetKeepsOtherTypes(items, typeKey, typeName, other, valueKey, value);
    }
  }

  /** Everything one may read back after a delete, at record level. */
  lemma DelRelatedThenValues(data: Data, arr: string, typeKey: string, typeName: string, other: string, valueKey: string)
    requires ListReadable(data, arr, typeKey, other, valueKey)
    ensures ListReadable(DelRelated(data, arr, typeKey, typeName), arr, typeKey, other, valueKey)
    ensures RelatedValues(DelRelated(data, arr, typeKey, typeName), arr, typeKey, other, valueKey)
         == if other == typeName then Drop1(RelatedValues(data, arr, typeKey, other, valueKey))
            else RelatedValues(data, arr, typeKey, other, valueKey)
  {
    DelThenValues(RelatedList(data, arr), typeKey, typeName, other, valueKey);
  }

  /** `first(get_related_values(...))`: the value of the first entry of the wanted type. */
  function RelatedValue(data: Data, arr: string, typeKey: string, typeName: string, valueKey: string): (r: Option<Value>)
    requires ListReadable(data, arr, typeKey, typeName, valueKey)
    ensures r.Some? <==> FirstMatch(RelatedList(data, arr), typeKey, typeName).Some?
    ensures r.Some? ==>
      r.value == RelatedList(data, arr)[FirstMatch(RelatedList(data, arr), typeKey, typeName).value].fields[valueKey]
  {
    ValuesOfFirst(RelatedList(data, arr), typeKey, typeName, valueKey);
    First(RelatedValues(data, arr, typeKey, typeName, valueKey))
  }

  // The typed views: identifiers by scheme, links by note, contact details by type.

  function IdentifierValues(data: Data, scheme: string): seq<Value>
    requires ListReadable(data, "identifiers", "scheme", scheme, "identifier")
  {
    RelatedValues(data, "identifiers", "scheme", scheme, "identifier")
  }

  function LinkValues(data: Data, note: string): seq<Value>
    requires ListReadable(data, "links", "note", note, "url")
  {
    RelatedValues(data, "links", "note", note, "url")
  }

  function ContactDetailValues(data: Data, contactType: string): seq<Value>
    requires ListReadable(data, "contact_details", "type", contactType, "value")
  {
    RelatedValues(data, "contact_details", "type", contactType, "value")
  }

  function IdentifierValue(data: Data, scheme: string): Option<Value>
    requires ListReadable(data, "identifiers", "scheme", scheme, "identifier")
  {
    RelatedValue(data, "identifiers", "scheme", scheme, "identifier")
  }

  function LinkValue(data: Data, note: string): Option<Value>
    requires ListReadable(data, "links", "note", note, "url")
  {
    RelatedValue(data, "links", "note", note, "url")
  }

  function ContactDetailValue(data: Data, contactType: string): Option<Value>
    requires ListReadable(data, "contact_details", "type", contactType, "value")
  {
    RelatedValue(data, "contact_details", "type", contactType, "value")
  }

  /** The record's data after `set_contact_detail_values`: a falsy value deletes. */
  function SetContactDetail(data: Data, contactType: string, value: Value): (r: Data)
    requires ListShaped(data, "contact_details", "type")
    ensures ListShaped(r, "contact_details", "type")
    ensures forall k :: k != "contact_details" ==> (k in r <==> k in data) && (k in data ==> r[k] == data[k])
  {
    if !Truthy(value) then DelRelated(data, "contact_details", "type", contactType)
    else SetRelated(data, "contact_details", "type", contactType, "value", value)
  }

  /** After setting a contact detail, a truthy value is read back first; a falsy one
      removes the first stored value of that type. */
  lemma SetContactDetailThenValues(data: Data, contactType: string, value: Value)
    requires ListReadable(data, "contact_details", "type", contactType, "value")
    ensures ListReadable(SetContactDetail(data, contactType, value), "contact_details", "type", contactType, "value")
    ensures ContactDetailValues(SetContactDetail(data, contactType, value), contactType)
         == (if Truthy(value) then [value] else []) + Drop1(ContactDetailValues(data, contactType))
  {
    if Truthy(value) {
      SetRelatedThenValues(data, "contact_details", "type", contactType, contactType, "value", value);
    } else {
      DelRelatedThenValues(data, "contact_details", "type", contactType, contactType, "value");
    }
  }

  // ---------------------------------------------------------------- the record object

  /** A Popolo record: a dictionary of JSON values that its methods update in place. */
  class PopoloObject {
    var data: Data

    /** `PopoloObject(data, **kwargs)`: the keyword arguments are merged into `data`. */
    constructor (data: Data, kwargs: Data)
      ensures this.data == data + kwargs
    {
      this.data := data + kwargs;
    }

    /** `Attribute.__get__` on this record. */
    method ReadAttr(attr: Attribute) returns (v: Value)
      modifies this
      ensures (v, data) == ReadAttribute(old(data), attr)
    {
      if !attr.allowNull && attr.default == Null {
        v := Get(data, attr.key);
      } else if attr.key in data {
        v := data[attr.key];
      } else {
        v := attr.default;
        data := data[attr.key := v];
      }
    }

    /** `set_related_values`: scan for the first entry of the type and overwrite its
        value, or append a new entry. */
    method SetRelatedValues(arr: string, typeKey: string, typeName: string, valueKey: string, value: Value)
      requires ListShaped(data, arr, typeKey)
      modifies this
      ensures data == SetRelated(old(data), arr, typeKey, typeName, valueKey, value)
    {
      var objList := RelatedList(data, arr);
      var i := 0;
      while i < |objList|
        invariant 0 <= i <= |objList|
        invariant forall j :: 0 <= j < i ==> !Matches(objList[j], typeKey, typeName)
      {
        if Matches(objList[i], typeKey, typeName) {
          data := data[arr := Arr(objList[i := Obj(objList[i].fields[valueKey := value])])];
          return;
        }
        i := i + 1;
      }
      data := data[arr := Arr(objList + [NewEntry(typeKey, typeName, valueKey, value)])];
    }

    /** `del_related_values`: find the first entry of the type (the scan stops at the
        last entry when none matches) and delete it if it is of that type. */
    method DelRelatedValues(arr: string, typeKey: string, typeName: string)
      requires ListShaped(data, arr, typeKey)
      modifies this
      ensures data == DelRelated(old(data), arr, typeKey, typeName)
    {
      var objList := RelatedList(data, arr);
      if objList != [] {
        var x := 0;
        while !Matches(objList[x], typeKey, typeName) && x + 1 < |objList|
          invariant 0 <= x < |objList|
          invariant forall j :: 0 <= j < x ==> !Matches(objList[j], typeKey, typeName)
        {
          x := x + 1;
        }
        if Matches(objList[x], typeKey, typeName) {
          data := data[arr := Arr(objList[..x] + objList[x + 1..])];
        }
      }
    }

    method SetIdentifierValues(scheme: string, value: Value)
      requires ListShaped(data, "identifiers", "scheme")
      modifies this
      ensures data == SetRelated(old(data), "identifiers", "scheme", scheme, "identifier", value)
    {
      SetRelatedValues("identifiers", "scheme", scheme, "identifier", value);
    }

    method SetLinkValues(note: string, value: Value)
      requires ListShaped(data, "links", "note")
      modifies this
      ensures data == SetRelated(old(data), "links", "note", note, "url", value)
    {
      SetRelatedValues("links", "note", note, "url", value);
    }

    method DelLinkValues(note: string)
      requires ListShaped(data, "links", "note")
      modifies this
      ensures data == DelRelated(old(data), "links", "note", note)
    {
      DelRelatedValues("links", "note", note);
    }

    method DelContactDetailValues(contactType: string)
      requires ListShaped(data, "contact_details", "type")
      modifies this
      ensures data == DelRelated(old(data), "contact_details", "type", contactType)
    {
      DelRelatedValues("contact_details", "type", contactType);
    }

    method SetContactDetailValues(contactType: string, value: Value)
      requires ListShaped(data, "contact_details", "type")
      modifies this
      ensures data == SetContactDetail(old(data), contactType, value)
    {
      if !Truthy(value) {
        DelContactDetailValues(contactType);
      } else {
        SetRelatedValues("contact_details", "type", contactType, "value", value);
      }
    }
  }

  // ---------------------------------------------------------------- comparisons

  /** `__lt__`: strictly less serialized content; `size` stands for `len(json.dumps(data))`. */
  predicate LessRich(a: Data, b: Data, size: Data -> nat)
    ensures LessRich(a, b, size) ==> a != b
  {
    size(a) < size(b)
  }

  /** `__gt__`: strictly more serialized content. */
  predicate MoreRich(a: Data, b: Data, size: Data -> nat)
    ensures MoreRich(a, b, size) <==> LessRich(b, a, size)
  {
    size(a) > size(b)
  }

  /** `__eq__`: records are equal when their `id` attributes are. */
  predicate SameRecord(a: Data, b: Data)
    ensures a == b ==> SameRecord(a, b)
  {
    Get(a, "id") == Get(b, "id")
  }

  /** `__ne__`. */
  predicate DifferentRecord(a: Data, b: Data)
    ensures DifferentRecord(a, b) <==> !SameRecord(a, b)
  {
    Get(a, "id") != Get(b, "id")
  }

  /** The richness comparisons form a strict order and `>` is `<` flipped. */
  lemma RichnessIsStrictOrder(a: Data, b: Data, c: Data, size: Data -> nat)
    ensures !(LessRich(a, b, size) && LessRich(b, a, size))
    ensures !LessRich(a, a, size)
    ensures MoreRich(a, b, size) <==> LessRich(b, a, size)
    ensures LessRich(a, b, size) && LessRich(b, c, size) ==> LessRich(a, c, size)
  {
  }

  /** Equality by id is an equivalence and `!=` is its negation. */
  lemma RecordEqualityIsEquivalence(a: Data, b: Data, c: Data)
    ensures SameRecord(a, a)
    ensures SameRecord(a, b) <==> SameRecord(b, a)
    ensures SameRecord(a, b) && SameRecord(b, c) ==> SameRecord(a, c)
    ensures DifferentRecord(a, b) <==> !SameRecord(a, b)
  {
  }
}
