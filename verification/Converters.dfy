/** The converters between UBJ values, which clients send, and BSON, which the database stores.

    An object is a list of entries with distinct keys in the order in which it is walked; the model
    never depends on what that order is. */
module Converters {
  import opened Wrappers

  /** A UBJ value. A buffer is a UBJ array of bytes. `Other` stands for every type the conversion to
      BSON has no case for. */
  datatype Value =
    | Obj(fields: seq<Field>)
    | Arr(items: seq<Value>)
    | Buf(bytes: seq<byte>)
    | Str(s: string)
    | Int32(i: int)
    | Int64(l: int)
    | Bool(b: bool)
    | Other(tag: nat)

  datatype Field = Field(key: string, val: Value)

  /** A BSON element's value; documents and arrays are sequences of named elements. */
  datatype Bson =
    | BObj(doc: seq<Element>)
    | BArr(doc: seq<Element>)
    | BBin(bytes: seq<byte>)
    | BStr(s: string)
    | BInt(i: int)
    | BLong(l: int)
    | BBool(b: bool)

  datatype Element = Element(name: string, val: Bson)

  type Document = seq<Element>

  // ---------- To BSON ----------

  /** `ubjValToBson`: appends the value under the key, or nothing if it has no BSON form. Only a
      buffer that is not empty counts as binary data. */
  function UbjValToBson(key: string, val: Value): Document
    decreases val, 1
  {
    match val
    case Obj(_) => [Element(key, BObj(UbjToBson(val)))]
    case Arr(_) => [Element(key, BArr(UbjToBson(val)))]
    case Buf(bytes) => [Element(key, if |bytes| > 0 then BBin(bytes) else BArr(UbjToBson(val)))]
    case Str(s) => [Element(key, BStr(s))]
    case Int32(i) => [Element(key, BInt(i))]
    case Int64(l) => [Element(key, BLong(l))]
    case Bool(b) => [Element(key, BBool(b))]
    case Other(_) => []
  }

  /** `ubjToBson`: the members of an object under their names, the items of an array under the
      empty name, nothing for any other value. */
  function UbjToBson(val: Value): Document
    decreases val, 0
  {
    match val
    case Obj(fields) => FieldsToBson(fields)
    case Arr(items) => ItemsToBson(items)
    case _ => []
  }

  function FieldsToBson(fields: seq<Field>): Document
    decreases fields, 0
  {
    if fields == [] then [] else UbjValToBson(fields[0].key, fields[0].val) + FieldsToBson(fields[1..])
  }

  function ItemsToBson(items: seq<Value>): Document
    decreases items, 0
  {
    if items == [] then [] else UbjValToBson("", items[0]) + ItemsToBson(items[1..])
  }

  // ---------- From BSON ----------

  const Undefined := Other(0)

  function BsonToUbj(ele: Bson): Value
    decreases ele, 1
  {
    match ele
    case BObj(doc) => Obj(BsonObjToUbj(doc))
    case BArr(doc) => Arr(BsonArrToUbj(doc))
    case BStr(s) => Str(s)
    case BInt(i) => Int32(i)
    case BLong(l) => Int64(l)
    case BBool(b) => Bool(b)
    case BBin(bytes) => if |bytes| > 0 then Buf(bytes) else Undefined
  }

  /** Assignment to a member: replaces it if it is there, adds it otherwise. */
  function Put(fields: seq<Field>, key: string, v: Value): seq<Field> {
    if fields == [] then [Field(key, v)]
    else if fields[0].key == key then [Field(key, v)] + fields[1..]
    else [fields[0]] + Put(fields[1..], key, v)
  }

  /** The loop of `bsonObjToUbj`, which assigns the elements one after the other. */
  function BsonObjToUbj(doc: Document): seq<Field>
    decreases doc, 0
  {
    if doc == [] then []
    else
      var last := doc[|doc| - 1];
      Put(BsonObjToUbj(doc[..|doc| - 1]), last.name, BsonToUbj(last.val))
  }

  function BsonArrToUbj(doc: Document): seq<Value>
    decreases doc, 0
  {
    if doc == [] then [] else [BsonToUbj(doc[0].val)] + BsonArrToUbj(doc[1..])
  }

  // ---------- What survives ----------

  /** The value without the members and items that BSON cannot hold, at any depth. An empty buffer
      is an empty array. */
  function Prune(val: Value): Value
    decreases val, 1
  {
    match val
    case Obj(fields) => Obj(PruneFields(fields))
    case Arr(items) => Arr(PruneItems(items))
    case Buf(bytes) => if bytes == [] then Arr([]) else val
    case _ => val
  }

  function PruneFields(fields: seq<Field>): seq<Field>
    decreases fields, 0
  {
    if fields == [] then []
    else if fields[0].val.Other? then PruneFields(fields[1..])
    else [Field(fields[0].key, Prune(fields[0].val))] + PruneFields(fields[1..])
  }

  function PruneItems(items: seq<Value>): seq<Value>
    decreases items, 0
  {
    if items == [] then []
    else if items[0].Other? then PruneItems(items[1..])
    else [Prune(items[0])] + PruneItems(items[1..])
  }

  /** Every object in the tree has distinct keys. */
  predicate Proper(val: Value)
    decreases val, 1
  {
    match val
    case Obj(fields) => ProperFields(fields)
    case Arr(items) => ProperItems(items)
    case _ => true
  }

  predicate ProperFields(fields: seq<Field>)
    decreases fields, 0
  {
    fields == [] ||
    (!HasKey(fields[1..], fields[0].key) && Proper(fields[0].val) && ProperFields(fields[1..]))
  }

  predicate ProperItems(items: seq<Value>)
    decreases items, 0
  {
    items == [] || (Proper(items[0]) && ProperItems(items[1..]))
  }

  predicate HasKey(fields: seq<Field>, key: string) {
    exists i :: 0 <= i < |fields| && fields[i].key == key
  }

  /** Nothing in the tree has to be pruned. */
  predicate Supported(val: Value)
    decreases val, 1
  {
    match val
    case Obj(fields) => SupportedFields(fields)
    case Arr(items) => SupportedItems(items)
    case Buf(bytes) => bytes != []
    case Other(_) => false
    case _ => true
  }

  predicate SupportedFields(fields: seq<Field>)
    decreases fields, 0
  {
    fields == [] || (Supported(fields[0].val) && SupportedFields(fields[1..]))
  }

  predicate SupportedItems(items: seq<Value>)
    decreases items, 0
  {
    items == [] || (Supported(items[0]) && SupportedItems(items[1..]))
  }

  // ---------- The object loop as a fold from the left ----------

  /** The document's elements in order, as entries; what the assignments amount to when no name
      occurs twice. */
  function Plain(doc: Document): seq<Field>
    decreases doc, 0
  {
    if doc == [] then [] else [Field(doc[0].name, BsonToUbj(doc[0].val))] + Plain(doc[1..])
  }

  predicate DistinctNames(doc: Document) {
    forall i, j :: 0 <= i < j < |doc| ==> doc[i].name != doc[j].name
  }

  lemma {:induction false} PutFresh(fields: seq<Field>, key: string, v: Value)
    requires !HasKey(fields, key)
    ensures Put(fields, key, v) == fields + [Field(key, v)]
  {
    if fields != [] {
      assert fields[0].key != key;
      assert !HasKey(fields[1..], key) by {
        assert forall i :: 0 <= i < |fields| - 1 ==> fields[1..][i] == fields[i + 1];
      }
      PutFresh(fields[1..], key, v);
    }
  }

  lemma {:induction false} PlainAppend(doc: Document, e: Element)
    ensures Plain(doc + [e]) == Plain(doc) + [Field(e.name, BsonToUbj(e.val))]
  {
    if doc == [] {
      assert doc + [e] == [e];
    } else {
      assert (doc + [e])[1..] == doc[1..] + [e];
      PlainAppend(doc[1..], e);
    }
  }

  lemma {:induction false} PlainKeys(doc: Document)
    ensures |Plain(doc)| == |doc| && forall i :: 0 <= i < |doc| ==> Plain(doc)[i].key == doc[i].name
  {
    if doc != [] {
      PlainKeys(doc[1..]);
    }
  }

  lemma NotAKey(doc: Document, key: string)
    requires forall i :: 0 <= i < |doc| ==> doc[i].name != key
    ensures !HasKey(Plain(doc), key)
  {
    PlainKeys(doc);
  }

  lemma LastIsNew(doc: Document)
    requires doc != [] && DistinctNames(doc)
    ensures var front, last := doc[..|doc| - 1], doc[|doc| - 1];
            doc == front + [last] && DistinctNames(front) && forall i :: 0 <= i < |front| ==> front[i].name != last.name
  {
  }

  lemma {:induction false} ObjectLoop(doc: Document)
    requires DistinctNames(doc)
    ensures BsonObjToUbj(doc) == Plain(doc)
    decreases |doc|
  {
    if doc != [] {
      var front, last := doc[..|doc| - 1], doc[|doc| - 1];
      LastIsNew(doc);
      hide DistinctNames, HasKey, BsonToUbj;
      ObjectLoop(front);
      NotAKey(front, last.name);
      PutFresh(Plain(front), last.name, BsonToUbj(last.val));
      PlainAppend(front, last);
    }
  }

  /** The member under a key. */
  function Get(fields: seq<Field>, key: string): Option<Value> {
    if fields == [] then None
    else if fields[0].key == key then Some(fields[0].val)
    else Get(fields[1..], key)
  }

  predicate KeysOnce(fields: seq<Field>) {
    fields == [] || (Get(fields[1..], fields[0].key).None? && KeysOnce(fields[1..]))
  }

  /** An assignment leaves the member with the new value and every other member as it was. */
  lemma {:induction false} PutAssigns(fields: seq<Field>, key: string, v: Value, k: string)
    ensures Get(Put(fields, key, v), k) == if k == key then Some(v) else Get(fields, k)
  {
    if fields == [] {
      assert [Field(key, v)][1..] == [];
    } else if fields[0].key == key {
      assert Put(fields, key, v)[1..] == fields[1..];
    } else {
      PutAssigns(fields[1..], key, v, k);
      assert Put(fields, key, v)[1..] == Put(fields[1..], key, v);
    }
  }

  lemma {:induction false} PutKeepsKeysOnce(fields: seq<Field>, key: string, v: Value)
    requires KeysOnce(fields)
    ensures KeysOnce(Put(fields, key, v))
  {
    if fields == [] {
      assert [Field(key, v)][1..] == [];
    } else if fields[0].key == key {
      assert Put(fields, key, v)[1..] == fields[1..];
    } else {
      PutKeepsKeysOnce(fields[1..], key, v);
      PutAssigns(fields[1..], key, v, fields[0].key);
      assert Put(fields, key, v)[1..] == Put(fields[1..], key, v);
    }
  }

  /** The value that a document gives to a name: that of the last element with the name. */
  function LastUnder(doc: Document, name: string): Option<Value> {
    if doc == [] then None
    else if doc[|doc| - 1].name == name then Some(BsonToUbj(doc[|doc| - 1].val))
    else LastUnder(doc[..|doc| - 1], name)
  }

  /** For any document, also one with repeated names: the object has each name once, with the value of
      the last element that has it. */
  lemma {:induction false} LastAssignmentWins(doc: Document, name: string)
    ensures KeysOnce(BsonObjToUbj(doc)) && Get(BsonObjToUbj(doc), name) == LastUnder(doc, name)
    decreases |doc|
  {
    if doc != [] {
      var front, last := doc[..|doc| - 1], doc[|doc| - 1];
      LastAssignmentWins(front, name);
      PutAssigns(BsonObjToUbj(front), last.name, BsonToUbj(last.val), name);
      PutKeepsKeysOnce(BsonObjToUbj(front), last.name, BsonToUbj(last.val));
    }
  }

  /** An empty buffer is stored as an empty array, and binary data of length 0 is not read back. */
  lemma EmptyBuffers(key: string)
    ensures UbjValToBson(key, Buf([])) == [Element(key, BArr([]))]
    ensures BsonToUbj(BBin([])) == Undefined && BsonToUbj(BArr([])) == Arr([])
  {
  }

  // ---------- The round trip ----------

  /** The names in the converted document are the keys of the members kept, in order. */
  lemma {:induction false} NamesAreKeys(fields: seq<Field>, key: string)
    requires !HasKey(fields, key)
    ensures forall i :: 0 <= i < |FieldsToBson(fields)| ==> FieldsToBson(fields)[i].name != key
    decreases |fields|
  {
    if fields != [] {
      assert fields[0].key != key;
      assert !HasKey(fields[1..], key) by {
        assert forall i :: 0 <= i < |fields| - 1 ==> fields[1..][i] == fields[i + 1];
      }
      NamesAreKeys(fields[1..], key);
    }
  }

  lemma {:induction false} ConvertedNamesDistinct(fields: seq<Field>)
    requires ProperFields(fields)
    ensures DistinctNames(FieldsToBson(fields))
    decreases |fields|
  {
    if fields != [] {
      NamesAreKeys(fields[1..], fields[0].key);
      ConvertedNamesDistinct(fields[1..]);
    }
  }

  /** One value: it converts to no element if it is unsupported, and to one element that converts
      back to the pruned value otherwise. */
  lemma {:induction false} ValueRoundTrip(key: string, val: Value)
    requires Proper(val)
    ensures val.Other? ==> UbjValToBson(key, val) == []
    ensures !val.Other? ==>
              var d := UbjValToBson(key, val);
              |d| == 1 && d[0].name == key && BsonToUbj(d[0].val) == Prune(val)
    decreases val, 1
  {
    match val
    case Obj(fields) =>
      FieldsRoundTrip(fields);
      ConvertedNamesDistinct(fields);
      ObjectLoop(FieldsToBson(fields));
    case Arr(items) => ItemsRoundTrip(items);
    case _ =>
  }

  lemma {:induction false} FieldsRoundTrip(fields: seq<Field>)
    requires ProperFields(fields)
    ensures Plain(FieldsToBson(fields)) == PruneFields(fields)
    decreases fields, 0
  {
    if fields != [] {
      var Field(key, val) := fields[0];
      ValueRoundTrip(key, val);
      FieldsRoundTrip(fields[1..]);
      var d, rest := UbjValToBson(key, val), FieldsToBson(fields[1..]);
      if d == [] {
        assert d + rest == rest;
      } else {
        assert (d + rest)[1..] == rest;
      }
    }
  }

  lemma {:induction false} ItemsRoundTrip(items: seq<Value>)
    requires ProperItems(items)
    ensures BsonArrToUbj(ItemsToBson(items)) == PruneItems(items)
    decreases items, 0
  {
    if items != [] {
      ValueRoundTrip("", items[0]);
      ItemsRoundTrip(items[1..]);
      var d, rest := UbjValToBson("", items[0]), ItemsToBson(items[1..]);
      if d == [] {
        assert d + rest == rest;
      } else {
        assert (d + rest)[1..] == rest;
      }
    }
  }

  /** An object stored in the database and read back is the object without its unsupported members,
      at every depth, with array order and binary data kept. */
  lemma ObjectRoundTrip(val: Value)
    requires val.Obj? && Proper(val)
    ensures Obj(BsonObjToUbj(UbjToBson(val))) == Prune(val)
  {
    FieldsRoundTrip(val.fields);
    ConvertedNamesDistinct(val.fields);
    ObjectLoop(FieldsToBson(val.fields));
  }

  // ---------- The form of what is stored ----------

  /** Document `d` holds the tree `val` member by member: strings as strings, 32-bit and 64-bit numbers
      as such, booleans, binary data; the members of an object under their names, the items of an array
      under no name, in order. */
  ghost predicate Holds(b: Bson, val: Value)
    decreases val
  {
    match val
    case Obj(fields) =>
      && b.BObj? && |b.doc| == |fields|
      && forall i :: 0 <= i < |fields| ==> b.doc[i].name == fields[i].key && Holds(b.doc[i].val, fields[i].val)
    case Arr(items) =>
      && b.BArr? && |b.doc| == |items|
      && forall i :: 0 <= i < |items| ==> b.doc[i].name == "" && Holds(b.doc[i].val, items[i])
    case Buf(bytes) => b == BBin(bytes)
    case Str(s) => b == BStr(s)
    case Int32(i) => b == BInt(i)
    case Int64(l) => b == BLong(l)
    case Bool(x) => b == BBool(x)
    case Other(_) => false
  }

  /** A supported value is stored in that form, under its key. */
  lemma {:induction false} StoredInForm(key: string, val: Value)
    requires Supported(val)
    ensures var d := UbjValToBson(key, val);
            |d| == 1 && d[0].name == key && Holds(d[0].val, val)
    decreases val, 1
  {
    match val
    case Obj(fields) => FieldsInForm(fields);
    case Arr(items) => ItemsInForm(items);
    case _ =>
  }

  lemma {:induction false} FieldsInForm(fields: seq<Field>)
    requires SupportedFields(fields)
    ensures var doc := FieldsToBson(fields);
            |doc| == |fields|
            && forall i :: 0 <= i < |fields| ==> doc[i].name == fields[i].key && Holds(doc[i].val, fields[i].val)
    decreases fields, 0
  {
    if fields != [] {
      var rest, doc := fields[1..], FieldsToBson(fields);
      StoredInForm(fields[0].key, fields[0].val);
      FieldsInForm(rest);
      forall i | 0 <= i < |fields|
        ensures doc[i].name == fields[i].key && Holds(doc[i].val, fields[i].val)
      {
        assert i > 0 ==> doc[i] == FieldsToBson(rest)[i - 1] && fields[i] == rest[i - 1];
      }
    }
  }

  lemma {:induction false} ItemsInForm(items: seq<Value>)
    requires SupportedItems(items)
    ensures var doc := ItemsToBson(items);
            |doc| == |items|
            && forall i :: 0 <= i < |items| ==> doc[i].name == "" && Holds(doc[i].val, items[i])
    decreases items, 0
  {
    if items != [] {
      var rest, doc := items[1..], ItemsToBson(items);
      StoredInForm("", items[0]);
      ItemsInForm(rest);
      forall i | 0 <= i < |items|
        ensures doc[i].name == "" && Holds(doc[i].val, items[i])
      {
        assert i > 0 ==> doc[i] == ItemsToBson(rest)[i - 1] && items[i] == rest[i - 1];
      }
    }
  }

  /** And nothing but the value itself is stored in that form: what holds a value with distinct keys
      reads back as it. */
  lemma {:induction false} ReadsBackWhatItHolds(b: Bson, val: Value)
    requires Holds(b, val) && Supported(val) && Proper(val)
    ensures BsonToUbj(b) == val
    decreases val, 1
  {
    match val
    case Obj(fields) => ObjectReadsBack(b.doc, fields);
    case Arr(items) => ItemsReadBack(b.doc, items);
    case _ =>
  }

  lemma {:induction false} ObjectReadsBack(doc: Document, fields: seq<Field>)
    requires |doc| == |fields| && SupportedFields(fields) && ProperFields(fields)
    requires forall i :: 0 <= i < |fields| ==> doc[i].name == fields[i].key && Holds(doc[i].val, fields[i].val)
    ensures BsonObjToUbj(doc) == fields
    decreases fields, 1
  {
    KeysDistinct(fields);
    FieldsReadBack(doc, fields);
    ObjectLoop(doc);
  }

  lemma {:induction false} FieldsReadBack(doc: Document, fields: seq<Field>)
    requires |doc| == |fields| && SupportedFields(fields) && ProperFields(fields)
    requires forall i :: 0 <= i < |fields| ==> doc[i].name == fields[i].key && Holds(doc[i].val, fields[i].val)
    ensures Plain(doc) == fields
    decreases fields, 0
  {
    if fields != [] {
      ReadsBackWhatItHolds(doc[0].val, fields[0].val);
      FieldsReadBack(doc[1..], fields[1..]);
    }
  }

  lemma {:induction false} ItemsReadBack(doc: Document, items: seq<Value>)
    requires |doc| == |items| && SupportedItems(items) && ProperItems(items)
    requires forall i :: 0 <= i < |items| ==> doc[i].name == "" && Holds(doc[i].val, items[i])
    ensures BsonArrToUbj(doc) == items
    decreases items, 0
  {
    if items != [] {
      ReadsBackWhatItHolds(doc[0].val, items[0]);
      ItemsReadBack(doc[1..], items[1..]);
    }
  }

  lemma {:induction false} KeysDistinct(fields: seq<Field>)
    requires ProperFields(fields)
    ensures forall i, j :: 0 <= i < j < |fields| ==> fields[i].key != fields[j].key
    decreases |fields|
  {
    if fields != [] {
      KeysDistinct(fields[1..]);
      assert forall j :: 0 < j < |fields| ==> fields[j] == fields[1..][j - 1];
    }
  }

  // ---------- When nothing is lost ----------

  lemma {:induction false} PruneIdentity(val: Value)
    requires !val.Other?
    ensures Prune(val) == val <==> Supported(val)
    decreases val, 1
  {
    match val
    case Obj(fields) => PruneFieldsIdentity(fields);
    case Arr(items) => PruneItemsIdentity(items);
    case _ =>
  }

  lemma {:induction false} PruneFieldsIdentity(fields: seq<Field>)
    ensures |PruneFields(fields)| <= |fields|
    ensures PruneFields(fields) == fields <==> SupportedFields(fields)
    decreases fields, 0
  {
    if fields != [] {
      PruneFieldsIdentity(fields[1..]);
      if !fields[0].val.Other? {
        PruneIdentity(fields[0].val);
        var p := PruneFields(fields);
        assert p[1..] == PruneFields(fields[1..]);
        assert p == fields <==> p[0] == fields[0] && p[1..] == fields[1..] by {
          assert p == [p[0]] + p[1..] && fields == [fields[0]] + fields[1..];
        }
      }
    }
  }

  lemma {:induction false} PruneItemsIdentity(items: seq<Value>)
    ensures |PruneItems(items)| <= |items|
    ensures PruneItems(items) == items <==> SupportedItems(items)
    decreases items, 0
  {
    if items != [] {
      PruneItemsIdentity(items[1..]);
      if !items[0].Other? {
        PruneIdentity(items[0]);
        var p := PruneItems(items);
        assert p[1..] == PruneItems(items[1..]);
        assert p == items <==> p[0] == items[0] && p[1..] == items[1..] by {
          assert p == [p[0]] + p[1..] && items == [items[0]] + items[1..];
        }
      }
    }
  }

  /** The round trip is the identity on an object if and only if no value in it, at any depth, is of
      an unsupported type or an empty buffer. */
  lemma LosslessExactlyWhenSupported(val: Value)
    requires val.Obj? && Proper(val)
    ensures Obj(BsonObjToUbj(UbjToBson(val))) == val <==> Supported(val)
  {
    ObjectRoundTrip(val);
    PruneIdentity(val);
  }

  // ---------- The second trip ----------

  lemma {:induction false} PruneSupports(val: Value)
    requires !val.Other? && Proper(val)
    ensures Supported(Prune(val)) && Proper(Prune(val))
    decreases val, 1
  {
    match val
    case Obj(fields) => PruneFieldsSupports(fields);
    case Arr(items) => PruneItemsSupports(items);
    case _ =>
  }

  lemma {:induction false} PruneNoNewKeys(fields: seq<Field>, key: string)
    requires !HasKey(fields, key)
    ensures !HasKey(PruneFields(fields), key)
    decreases |fields|
  {
    if fields != [] {
      assert fields[0].key != key;
      assert !HasKey(fields[1..], key) by {
        assert forall i :: 0 <= i < |fields| - 1 ==> fields[1..][i] == fields[i + 1];
      }
      PruneNoNewKeys(fields[1..], key);
    }
  }

  lemma {:induction false} PruneFieldsSupports(fields: seq<Field>)
    requires ProperFields(fields)
    ensures SupportedFields(PruneFields(fields)) && ProperFields(PruneFields(fields))
    decreases fields, 0
  {
    if fields != [] {
      PruneFieldsSupports(fields[1..]);
      if !fields[0].val.Other? {
        PruneSupports(fields[0].val);
        PruneNoNewKeys(fields[1..], fields[0].key);
        assert PruneFields(fields)[1..] == PruneFields(fields[1..]);
      }
    }
  }

  lemma {:induction false} PruneItemsSupports(items: seq<Value>)
    requires ProperItems(items)
    ensures SupportedItems(PruneItems(items)) && ProperItems(PruneItems(items))
    decreases items, 0
  {
    if items != [] {
      PruneItemsSupports(items[1..]);
      if !items[0].Other? {
        PruneSupports(items[0]);
        assert PruneItems(items)[1..] == PruneItems(items[1..]);
      }
    }
  }

  /** What has been through the database once goes through it again unchanged. */
  lemma SecondTripChangesNothing(val: Value)
    requires val.Obj? && Proper(val)
    ensures var once := Obj(BsonObjToUbj(UbjToBson(val)));
            Obj(BsonObjToUbj(UbjToBson(once))) == once
  {
    ObjectRoundTrip(val);
    PruneSupports(val);
    LosslessExactlyWhenSupported(Prune(val));
  }
}
