/** The lookup tables the extension derives from the configuration's JSON schema
    (src/schema/validation.ts): the properties of each section type and their kinds, the
    enumerations, the default values, the properties that name Python functions or classes.
    Each table is filled on first use and kept for later calls. */
module Schema {
  import opened Js

  /** `PropType`: how a property's value is edited. */
  datatype PropType = String | Array | Object

  /** The outcome of evaluating a JavaScript expression on a JSON value: a thrown
      `TypeError`, `undefined`, or a value. */
  datatype Val = Throws | Undef | Is(j: Json)

  /** Property access `v[key]`: an error on `undefined` and `null`; `undefined` when an
      object lacks the key or the value is not an object. Objects have distinct keys, as
      `JSON.parse` makes them. */
  function Field(v: Val, key: string): (r: Val)
    ensures r.Throws? <==> v.Throws? || v.Undef? || v == Is(JNull)
  {
    match v
    case Throws => Throws
    case Undef => Throws
    case Is(j) =>
      match j
      case JNull => Throws
      case JObj(fs) => FieldIn(fs, key)
      case _ => Undef
  }

  function FieldIn(fs: seq<(string, Json)>, key: string): (r: Val)
    ensures r.Undef? <==> forall i | 0 <= i < |fs| :: fs[i].0 != key
    ensures r.Is? ==> exists i | 0 <= i < |fs| :: fs[i] == (key, r.j)
    ensures !r.Throws?
  {
    if |fs| == 0 then Undef
    else if fs[0].0 == key then Is(fs[0].1)
    else
      var r := FieldIn(fs[1..], key);
      assert forall i | 1 <= i < |fs| :: fs[1..][i - 1] == fs[i];
      r
  }

  /** Optional access `v?.[key]`: `undefined` on `undefined` and `null`. */
  function OptField(v: Val, key: string): (r: Val)
    ensures (v.Undef? || v == Is(JNull)) ==> r == Undef
  {
    if v.Undef? || v == Is(JNull) then Undef else Field(v, key)
  }

  predicate ValTruthy(v: Val)
  {
    v.Is? && Truthy(v.j)
  }

  /** `v || {}`. */
  function OrEmpty(v: Val): (r: Val)
    ensures !v.Throws? ==> r.Is?
  {
    if v.Throws? then Throws else if ValTruthy(v) then v else Is(JObj([]))
  }

  /** `Object.entries(v)`: `None` when it throws (on `undefined` and `null`). */
  function Entries(v: Val): (r: Option<seq<(string, Json)>>)
    ensures r.None? <==> v.Throws? || v.Undef? || v == Is(JNull)
    ensures v.Is? && v.j.JObj? ==> r == Some(v.j.fields)
  {
    match v
    case Throws => None
    case Undef => None
    case Is(j) =>
      match j
      case JNull => None
      case JObj(fs) => Some(fs)
      case JArr(items) => Some(seq(|items|, i requires 0 <= i < |items| => (NatToString(i), items[i])))
      case JStr(s) => Some(seq(|s|, i requires 0 <= i < |s| => (NatToString(i), JStr([s[i]]))))
      case _ => Some([])
  }

  /** The property keys of a list of entries, in order. */
  function KeysOf(entries: seq<(string, Json)>): (r: seq<string>)
    ensures |r| == |entries| && forall i | 0 <= i < |entries| :: r[i] == entries[i].0
  {
    seq(|entries|, i requires 0 <= i < |entries| => entries[i].0)
  }

  // ---------------------------------------------------------------------------
  // Properties and their kinds (getProperties)

  /** The kind of a property from its schema `obj`: an error when `obj` is `null`. */
  function PropTypeOf(obj: Json): (r: Option<PropType>)
    ensures r.None? <==> obj == JNull
    ensures r == Some(Array) <==> Field(Is(obj), "type") == Is(JStr("array"))
    ensures r == Some(Object) <==> Field(Is(obj), "type") == Is(JStr("object"))
  {
    match Field(Is(obj), "type")
    case Throws => None
    case Undef => Some(String)
    case Is(t) => if t == JStr("array") then Some(Array) else if t == JStr("object") then Some(Object) else Some(String)
  }

  /** The additional property keys that are listed: not empty and not `if`, `then`, `else`. */
  predicate KeptKey(key: string)
  {
    key != "" && key != "if" && key != "then" && key != "else"
  }

  function Kept(entries: seq<(string, Json)>): (r: seq<(string, Json)>)
    ensures forall i | 0 <= i < |r| :: KeptKey(r[i].0)
    ensures forall e | e in r :: e in entries
    ensures forall e | e in entries && KeptKey(e.0) :: e in r
  {
    if |entries| == 0 then []
    else Kept(entries[..|entries| - 1]) + (if KeptKey(entries[|entries| - 1].0) then [entries[|entries| - 1]] else [])
  }

  /** The keys pushed and the kinds recorded for a list of property entries. */
  function AddKeys(keys: seq<string>, types: map<string, PropType>, entries: seq<(string, Json)>)
    : (r: Option<(seq<string>, map<string, PropType>)>)
  {
    if |entries| == 0 then Some((keys, types))
    else
      match AddKeys(keys, types, entries[..|entries| - 1])
      case None => None
      case Some(acc) =>
        var (key, obj) := entries[|entries| - 1];
        match PropTypeOf(obj)
        case None => None
        case Some(t) => Some((acc.0 + [key], acc.1[key := t]))
  }

  /** Pushing keys fails exactly on a `null` property schema. */
  lemma {:induction false} AddKeysFails(keys: seq<string>, types: map<string, PropType>, entries: seq<(string, Json)>)
    ensures AddKeys(keys, types, entries).None? <==> exists i | 0 <= i < |entries| :: entries[i].1 == JNull
  {
    if |entries| > 0 {
      var n := |entries| - 1;
      AddKeysFails(keys, types, entries[..n]);
      assert forall i | 0 <= i < n :: entries[..n][i] == entries[i];
    }
  }

  /** Pushing keys lists them in order after those already there, each with a kind; a key
      takes the kind of its last entry, and keys not pushed keep theirs. */
  lemma AddKeysMeaning(keys: seq<string>, types: map<string, PropType>, entries: seq<(string, Json)>)
    requires AddKeys(keys, types, entries).Some?
    ensures var (ks, ts) := AddKeys(keys, types, entries).value;
      && ks == keys + KeysOf(entries)
      && (forall k | k in types :: k in ts)
      && (forall i | 0 <= i < |entries| :: entries[i].0 in ts)
      && (forall i | 0 <= i < |entries| && LastFor(entries, i) :: Some(ts[entries[i].0]) == PropTypeOf(entries[i].1))
      && (forall k | k in types && k !in KeysOf(entries) :: ts[k] == types[k])
  {
    AddKeysList(keys, types, entries);
    var ts := AddKeys(keys, types, entries).value.1;
    forall i | 0 <= i < |entries| && LastFor(entries, i) ensures Some(ts[entries[i].0]) == PropTypeOf(entries[i].1) {
      AddKeysLast(keys, types, entries, i);
    }
    forall k | k in types && k !in KeysOf(entries) ensures ts[k] == types[k] {
      AddKeysKeep(keys, types, entries, k);
    }
  }

  lemma {:induction false} AddKeysKeep(keys: seq<string>, types: map<string, PropType>, entries: seq<(string, Json)>, k: string)
    requires AddKeys(keys, types, entries).Some? && k in types && k !in KeysOf(entries)
    ensures k in AddKeys(keys, types, entries).value.1 && AddKeys(keys, types, entries).value.1[k] == types[k]
  {
    if |entries| > 0 {
      var n := |entries| - 1;
      assert KeysOf(entries)[n] == entries[n].0;
      assert k != entries[n].0;
      assert k !in KeysOf(entries[..n]) by {
        forall i | 0 <= i < n ensures KeysOf(entries[..n])[i] != k {
          assert KeysOf(entries[..n])[i] == entries[i].0 == KeysOf(entries)[i];
        }
      }
      AddKeysKeep(keys, types, entries[..n], k);
    }
  }

  lemma {:induction false} AddKeysList(keys: seq<string>, types: map<string, PropType>, entries: seq<(string, Json)>)
    requires AddKeys(keys, types, entries).Some?
    ensures var (ks, ts) := AddKeys(keys, types, entries).value;
      && ks == keys + KeysOf(entries)
      && (forall k | k in types :: k in ts)
      && (forall i | 0 <= i < |entries| :: entries[i].0 in ts)
  {
    if |entries| > 0 {
      var n := |entries| - 1;
      AddKeysList(keys, types, entries[..n]);
      assert forall i | 0 <= i < n :: entries[..n][i] == entries[i];
      assert KeysOf(entries) == KeysOf(entries[..n]) + [entries[n].0];
    }
  }

  lemma {:induction false} AddKeysLast(keys: seq<string>, types: map<string, PropType>, entries: seq<(string, Json)>, i: nat)
    requires AddKeys(keys, types, entries).Some? && i < |entries| && LastFor(entries, i)
    ensures entries[i].0 in AddKeys(keys, types, entries).value.1
    ensures Some(AddKeys(keys, types, entries).value.1[entries[i].0]) == PropTypeOf(entries[i].1)
  {
    var n := |entries| - 1;
    if i < n {
      var front := entries[..n];
      assert front[i] == entries[i];
      assert LastFor(front, i) by {
        forall j | i < j < |front| ensures front[j].0 != front[i].0 {
          assert front[j] == entries[j];
        }
      }
      AddKeysLast(keys, types, front, i);
    }
  }

  /** The keys and kinds recorded for one section type's schema `v`: its own properties,
      then the kept `additionalProperties.properties`. */
  function NodeTables(v: Json): (r: Option<(seq<string>, map<string, PropType>)>)
  {
    match Entries(OrEmpty(Field(Is(v), "properties")))
    case None => None
    case Some(base) =>
      match Entries(OrEmpty(OptField(Field(Is(v), "additionalProperties"), "properties")))
      case None => None
      case Some(extra) => TablesOf(base, extra)
  }

  /** The keys and kinds recorded from a type's own property entries and its additional
      ones. */
  function TablesOf(base: seq<(string, Json)>, extra: seq<(string, Json)>): (r: Option<(seq<string>, map<string, PropType>)>)
  {
    match AddKeys([], map[], base)
    case None => None
    case Some(acc) => AddKeys(acc.0, acc.1, Kept(extra))
  }

  /** Building a type's tables fails exactly on a `null` property schema among its own
      properties or its kept additional ones. */
  lemma TablesOfFails(base: seq<(string, Json)>, extra: seq<(string, Json)>)
    ensures TablesOf(base, extra).None? <==>
      (exists i | 0 <= i < |base| :: base[i].1 == JNull) || (exists i | 0 <= i < |Kept(extra)| :: Kept(extra)[i].1 == JNull)
  {
    var kept := Kept(extra);
    AddKeysFails([], map[], base);
    var first := AddKeys([], map[], base);
    if first.None? {
      assert TablesOf(base, extra).None?;
    } else {
      var acc := first.value;
      AddKeysFails(acc.0, acc.1, kept);
      assert TablesOf(base, extra) == AddKeys(acc.0, acc.1, kept);
    }
  }

  /** The listed properties of a type are its own property keys then its kept additional
      ones, in schema order, each with a kind; an own property has the kind of its last
      entry unless a kept additional property of that name fixes it. */
  lemma TablesOfMeaning(base: seq<(string, Json)>, extra: seq<(string, Json)>)
    requires TablesOf(base, extra).Some?
    ensures var (keys, types) := TablesOf(base, extra).value;
      && keys == KeysOf(base) + KeysOf(Kept(extra))
      && (forall k | k in keys :: k in types)
      && (forall i | 0 <= i < |Kept(extra)| && LastFor(Kept(extra), i) :: Some(types[Kept(extra)[i].0]) == PropTypeOf(Kept(extra)[i].1))
      && (forall i | 0 <= i < |base| && LastFor(base, i) && base[i].0 !in KeysOf(Kept(extra)) :: Some(types[base[i].0]) == PropTypeOf(base[i].1))
  {
    TablesOfKeys(base, extra);
    TablesOfKinds(base, extra);
    TablesOfOwnKinds(base, extra);
  }

  lemma TablesOfOwnKinds(base: seq<(string, Json)>, extra: seq<(string, Json)>)
    requires TablesOf(base, extra).Some?
    ensures var types := TablesOf(base, extra).value.1;
      forall i | 0 <= i < |base| && LastFor(base, i) && base[i].0 !in KeysOf(Kept(extra)) ::
        base[i].0 in types && Some(types[base[i].0]) == PropTypeOf(base[i].1)
  {
    var kept := Kept(extra);
    var acc := AddKeys([], map[], base).value;
    assert TablesOf(base, extra) == AddKeys(acc.0, acc.1, kept);
    forall i | 0 <= i < |base| && LastFor(base, i) && base[i].0 !in KeysOf(kept)
      ensures base[i].0 in AddKeys(acc.0, acc.1, kept).value.1
      ensures Some(AddKeys(acc.0, acc.1, kept).value.1[base[i].0]) == PropTypeOf(base[i].1) {
      AddKeysLast([], map[], base, i);
      AddKeysKeep(acc.0, acc.1, kept, base[i].0);
    }
  }

  lemma TablesOfKeys(base: seq<(string, Json)>, extra: seq<(string, Json)>)
    requires TablesOf(base, extra).Some?
    ensures var (keys, types) := TablesOf(base, extra).value;
      && keys == KeysOf(base) + KeysOf(Kept(extra))
      && (forall k | k in keys :: k in types)
  {
    var kept := Kept(extra);
    var first := AddKeys([], map[], base);
    assert first.Some?;
    var acc := first.value;
    AddKeysList([], map[], base);
    assert acc.0 == KeysOf(base);
    var second := AddKeys(acc.0, acc.1, kept);
    assert TablesOf(base, extra) == second;
    AddKeysList(acc.0, acc.1, kept);
    TablesCover(base, kept, acc, second.value);
  }

  lemma TablesOfKinds(base: seq<(string, Json)>, extra: seq<(string, Json)>)
    requires TablesOf(base, extra).Some?
    ensures var types := TablesOf(base, extra).value.1;
      forall i | 0 <= i < |Kept(extra)| && LastFor(Kept(extra), i) ::
        Kept(extra)[i].0 in types && Some(types[Kept(extra)[i].0]) == PropTypeOf(Kept(extra)[i].1)
  {
    var kept := Kept(extra);
    var acc := AddKeys([], map[], base).value;
    assert TablesOf(base, extra) == AddKeys(acc.0, acc.1, kept);
    forall i | 0 <= i < |kept| && LastFor(kept, i)
      ensures kept[i].0 in AddKeys(acc.0, acc.1, kept).value.1
      ensures Some(AddKeys(acc.0, acc.1, kept).value.1[kept[i].0]) == PropTypeOf(kept[i].1) {
      AddKeysLast(acc.0, acc.1, kept, i);
    }
  }

  lemma TablesCover(base: seq<(string, Json)>, kept: seq<(string, Json)>,
                    acc: (seq<string>, map<string, PropType>), r: (seq<string>, map<string, PropType>))
    requires acc.0 == KeysOf(base) && (forall i | 0 <= i < |base| :: base[i].0 in acc.1)
    requires r.0 == acc.0 + KeysOf(kept) && (forall k | k in acc.1 :: k in r.1)
    requires forall i | 0 <= i < |kept| :: kept[i].0 in r.1
    ensures forall k | k in r.0 :: k in r.1
  {
    forall k | k in r.0 ensures k in r.1 {
      var i :| 0 <= i < |r.0| && r.0[i] == k;
      if i < |base| {
        assert r.0[i] == base[i].0;
      } else {
        assert r.0[i] == kept[i - |base|].0;
      }
    }
  }

  /** The tables built from the section types' schemas by `scan`, one per type, in order;
      a failing scan fails the whole. */
  function BuildEach<T>(nodes: seq<(string, Json)>, scan: Json -> Option<T>): (r: Option<map<string, T>>)
  {
    if |nodes| == 0 then Some(map[])
    else
      match BuildEach(nodes[..|nodes| - 1], scan)
      case None => None
      case Some(acc) =>
        match scan(nodes[|nodes| - 1].1)
        case None => None
        case Some(t) => Some(acc[nodes[|nodes| - 1].0 := t])
  }

  /** Entry `i` is the last one for its key. */
  predicate LastFor(entries: seq<(string, Json)>, i: nat)
    requires i < |entries|
  {
    forall j | i < j < |entries| :: entries[j].0 != entries[i].0
  }

  /** Building fails exactly when one type's scan fails. */
  lemma {:induction false} BuildEachFails<T>(nodes: seq<(string, Json)>, scan: Json -> Option<T>)
    ensures BuildEach(nodes, scan).None? <==> exists i | 0 <= i < |nodes| :: scan(nodes[i].1).None?
  {
    if |nodes| > 0 {
      var n := |nodes| - 1;
      BuildEachFails(nodes[..n], scan);
      assert forall i | 0 <= i < n :: nodes[..n][i] == nodes[i];
    }
  }

  /** A built table gives every section type a table, the one of its last schema entry,
      and no other key. */
  lemma BuildEachMeaning<T>(nodes: seq<(string, Json)>, scan: Json -> Option<T>)
    requires BuildEach(nodes, scan).Some?
    ensures forall k :: k in BuildEach(nodes, scan).value <==> k in KeysOf(nodes)
    ensures forall i | 0 <= i < |nodes| && LastFor(nodes, i) ::
      nodes[i].0 in BuildEach(nodes, scan).value && Some(BuildEach(nodes, scan).value[nodes[i].0]) == scan(nodes[i].1)
  {
    BuildEachKeys(nodes, scan);
    forall i | 0 <= i < |nodes| && LastFor(nodes, i)
      ensures nodes[i].0 in BuildEach(nodes, scan).value && Some(BuildEach(nodes, scan).value[nodes[i].0]) == scan(nodes[i].1)
    {
      BuildEachLast(nodes, scan, i);
    }
  }

  lemma {:induction false} BuildEachKeys<T>(nodes: seq<(string, Json)>, scan: Json -> Option<T>)
    requires BuildEach(nodes, scan).Some?
    ensures forall k :: k in BuildEach(nodes, scan).value <==> k in KeysOf(nodes)
  {
    if |nodes| > 0 {
      var n := |nodes| - 1;
      BuildEachKeys(nodes[..n], scan);
      assert KeysOf(nodes) == KeysOf(nodes[..n]) + [nodes[n].0];
    }
  }

  lemma {:induction false} BuildEachLast<T>(nodes: seq<(string, Json)>, scan: Json -> Option<T>, i: nat)
    requires BuildEach(nodes, scan).Some? && i < |nodes| && LastFor(nodes, i)
    ensures nodes[i].0 in BuildEach(nodes, scan).value && Some(BuildEach(nodes, scan).value[nodes[i].0]) == scan(nodes[i].1)
  {
    var n := |nodes| - 1;
    if i < n {
      var front := nodes[..n];
      assert front[i] == nodes[i];
      assert nodes[n].0 != nodes[i].0;
      assert LastFor(front, i) by {
        forall j | i < j < |front| ensures front[j].0 != front[i].0 {
          assert front[j] == nodes[j];
        }
      }
      BuildEachLast(front, scan, i);
    }
  }

  // ---------------------------------------------------------------------------
  // Enumerations (addPropEnums)

  /** `enum.filter((v) => v)`. */
  function TruthyOnly(items: seq<Json>): (r: seq<Json>)
    ensures forall x | x in r :: Truthy(x) && x in items
    ensures forall x | x in items && Truthy(x) :: x in r
    ensures |r| <= |items|
  {
    if |items| == 0 then []
    else TruthyOnly(items[..|items| - 1]) + (if Truthy(items[|items| - 1]) then [items[|items| - 1]] else [])
  }

  /** `table[key] = value` on an object whose keys are listed, in insertion order, in
      `keys`. */
  function SetKey<T>(keys: seq<string>, table: map<string, T>, key: string, value: T): (r: (seq<string>, map<string, T>))
    ensures r.1 == table[key := value]
    ensures r.0 == if key in table then keys else keys + [key]
  {
    (if key in table then keys else keys + [key], table[key := value])
  }

  /** The enumerations recorded from property entries: those with a truthy `enum`, holding
      its truthy values; an error for a `null` property schema or an `enum` that is not a
      list. */
  function AddEnums(keys: seq<string>, table: map<string, seq<Json>>, entries: seq<(string, Json)>)
    : (r: Option<(seq<string>, map<string, seq<Json>>)>)
  {
    if |entries| == 0 then Some((keys, table))
    else
      match AddEnums(keys, table, entries[..|entries| - 1])
      case None => None
      case Some(acc) => EnumStep(acc.0, acc.1, entries[|entries| - 1])
  }

  /** What one property entry does to the enumerations. */
  function EnumStep(keys: seq<string>, table: map<string, seq<Json>>, entry: (string, Json))
    : (r: Option<(seq<string>, map<string, seq<Json>>)>)
    ensures r.Some? && r.value != (keys, table) ==>
      entry.0 in r.value.1 && r.value == SetKey(keys, table, entry.0, r.value.1[entry.0]) && EnumOf(entry.1, r.value.1[entry.0])
  {
    var (property, p) := entry;
    var e := Field(Is(p), "enum");
    if e.Throws? then None
    else if !ValTruthy(e) then Some((keys, table))
    else if e.j.JArr? then Some(SetKey(keys, table, property, TruthyOnly(e.j.items)))
    else None
  }

  /** The insertion-ordered key list stays a duplicate-free list of the table's keys, and
      a property is added or changed only by an entry with an `enum` list, whose truthy
      values it then holds. */
  lemma AddEnumsKeys(keys: seq<string>, table: map<string, seq<Json>>, entries: seq<(string, Json)>)
    requires Distinct(keys) && (forall k :: k in keys <==> k in table)
    requires AddEnums(keys, table, entries).Some?
    ensures var (ks, t) := AddEnums(keys, table, entries).value;
      && Distinct(ks) && keys <= ks && (forall k :: k in ks <==> k in t)
      && (forall k | k in t && (k !in table || t[k] != table[k]) ::
            exists i | 0 <= i < |entries| :: entries[i].0 == k && EnumOf(entries[i].1, t[k]))
  {
    AddEnumsDistinct(keys, table, entries);
    var t := AddEnums(keys, table, entries).value.1;
    forall k | k in t && (k !in table || t[k] != table[k])
      ensures exists i | 0 <= i < |entries| :: entries[i].0 == k && EnumOf(entries[i].1, t[k])
    {
      AddEnumsFrom(keys, table, entries, k);
    }
  }

  lemma {:induction false} AddEnumsDistinct(keys: seq<string>, table: map<string, seq<Json>>, entries: seq<(string, Json)>)
    requires Distinct(keys) && (forall k :: k in keys <==> k in table)
    requires AddEnums(keys, table, entries).Some?
    ensures var (ks, t) := AddEnums(keys, table, entries).value;
      Distinct(ks) && keys <= ks && (forall k :: k in ks <==> k in t)
  {
    if |entries| > 0 {
      var n := |entries| - 1;
      AddEnumsDistinct(keys, table, entries[..n]);
      var acc := AddEnums(keys, table, entries[..n]).value;
      var property := entries[n].0;
      if property !in acc.1 {
        DistinctAppend(acc.0, property);
      }
    }
  }

  lemma {:induction false} AddEnumsFrom(keys: seq<string>, table: map<string, seq<Json>>, entries: seq<(string, Json)>, k: string)
    requires AddEnums(keys, table, entries).Some?
    requires var t := AddEnums(keys, table, entries).value.1; k in t && (k !in table || t[k] != table[k])
    ensures exists i | 0 <= i < |entries| :: entries[i].0 == k && EnumOf(entries[i].1, AddEnums(keys, table, entries).value.1[k])
  {
    var n := |entries| - 1;
    var front := entries[..n];
    var acc := AddEnums(keys, table, front).value;
    var t := AddEnums(keys, table, entries).value.1;
    if k in acc.1 && t[k] == acc.1[k] && (k !in table || acc.1[k] != table[k]) {
      AddEnumsFrom(keys, table, front, k);
      var i :| 0 <= i < n && front[i].0 == k && EnumOf(front[i].1, acc.1[k]);
      assert entries[i] == front[i];
    } else {
      assert k == entries[n].0 && EnumOf(entries[n].1, t[k]);
    }
  }

  /** The schema `p` of a property has an `enum` list whose truthy values are `values`. */
  predicate EnumOf(p: Json, values: seq<Json>)
  {
    var e := Field(Is(p), "enum");
    e.Is? && e.j.JArr? && values == TruthyOnly(e.j.items)
  }

  predicate Distinct(s: seq<string>)
  {
    forall i, j | 0 <= i < j < |s| :: s[i] != s[j]
  }

  lemma DistinctAppend(s: seq<string>, x: string)
    requires Distinct(s) && x !in s
    ensures Distinct(s + [x])
  {
  }

  /** `step` applied to each section type's schema in order, threading its result; a
      failing step fails the whole (`getEnumProps` threads the enumerations through it). */
  function ThreadEach<A>(acc: A, nodes: seq<(string, Json)>, step: (A, Json) -> Option<A>): (r: Option<A>)
  {
    if |nodes| == 0 then Some(acc)
    else
      match ThreadEach(acc, nodes[..|nodes| - 1], step)
      case None => None
      case Some(a) => step(a, nodes[|nodes| - 1].1)
  }

  /** `EnumNode` on a pair, as the step of `ThreadEach`. */
  function EnumAt(acc: (seq<string>, map<string, seq<Json>>), v: Json): Option<(seq<string>, map<string, seq<Json>>)>
  {
    EnumNode(acc.0, acc.1, v)
  }

  /** The enumerations of one section type's schema `v`: its properties', then its
      additional properties'. */
  function EnumNode(keys: seq<string>, table: map<string, seq<Json>>, v: Json): (r: Option<(seq<string>, map<string, seq<Json>>)>)
  {
    match AddPropEnumsOf(keys, table, Field(Is(v), "properties"))
    case None => None
    case Some(acc) => AddPropEnumsOf(acc.0, acc.1, OptField(Field(Is(v), "additionalProperties"), "properties"))
  }

  /** `addPropEnums(properties)`: nothing for a falsy argument. */
  function AddPropEnumsOf(keys: seq<string>, table: map<string, seq<Json>>, properties: Val)
    : (r: Option<(seq<string>, map<string, seq<Json>>)>)
    ensures !properties.Throws? && !ValTruthy(properties) ==> r == Some((keys, table))
  {
    if properties.Throws? then None
    else if !ValTruthy(properties) then Some((keys, table))
    else
      match Entries(properties)
      case None => None
      case Some(entries) => AddEnums(keys, table, entries)
  }

  // ---------------------------------------------------------------------------
  // Default values and Python references

  /** What one property entry contributes to a table: an error, nothing, or a value. */
  datatype Picked<T> = PickThrows | Skip | Keep(value: T)

  /** `if ((v as any).default) table[prop] = (v as any).default`. */
  function PickDefault(v: Json): (r: Picked<Json>)
    ensures r.Keep? ==> Truthy(r.value) && Field(Is(v), "default") == Is(r.value)
    ensures r.Skip? ==> !ValTruthy(Field(Is(v), "default"))
  {
    var d := Field(Is(v), "default");
    if d.Throws? then PickThrows else if ValTruthy(d) then Keep(d.j) else Skip
  }

  /** A property naming a Python function (`true`) or class (`false`). */
  function PickReference(v: Json): (r: Picked<bool>)
    ensures r.Keep? <==> ValTruthy(Field(Is(v), "taipy_function")) || (v != JNull && ValTruthy(Field(Is(v), "taipy_class")))
    ensures r.Keep? ==> (r.value <==> ValTruthy(Field(Is(v), "taipy_function")))
  {
    var f := Field(Is(v), "taipy_function");
    if f.Throws? then PickThrows
    else if ValTruthy(f) then Keep(true)
    else if ValTruthy(Field(Is(v), "taipy_class")) then Keep(false)
    else Skip
  }

  /** A table filled from property entries by `pick`, in order. */
  function RecordAll<T>(m: map<string, T>, entries: seq<(string, Json)>, pick: Json -> Picked<T>): (r: Option<map<string, T>>)
  {
    if |entries| == 0 then Some(m)
    else
      match RecordAll(m, entries[..|entries| - 1], pick)
      case None => None
      case Some(acc) =>
        match pick(entries[|entries| - 1].1)
        case PickThrows => None
        case Skip => Some(acc)
        case Keep(x) => Some(acc[entries[|entries| - 1].0 := x])
  }

  /** A table holds what was there and the properties `pick` keeps; every new or changed
      value is the one picked from an entry of that property, the last one when a property
      repeats; it fails exactly when some pick fails. */
  lemma RecordAllMeaning<T>(m: map<string, T>, entries: seq<(string, Json)>, pick: Json -> Picked<T>)
    ensures RecordAll(m, entries, pick).None? <==> exists i | 0 <= i < |entries| :: pick(entries[i].1).PickThrows?
    ensures RecordAll(m, entries, pick).Some? ==>
      var r := RecordAll(m, entries, pick).value;
      && (forall k | k in m :: k in r)
      && (forall i | 0 <= i < |entries| && pick(entries[i].1).Keep? :: entries[i].0 in r)
      && (forall k | k in r && (k !in m || r[k] != m[k]) ::
            exists i | 0 <= i < |entries| :: entries[i].0 == k && pick(entries[i].1) == Keep(r[k]))
      && (forall i | 0 <= i < |entries| && pick(entries[i].1).Keep? && LastKept(entries, pick, i) ::
            r[entries[i].0] == pick(entries[i].1).value)
  {
    RecordAllFails(m, entries, pick);
    if RecordAll(m, entries, pick).Some? {
      var r := RecordAll(m, entries, pick).value;
      RecordAllGrows(m, entries, pick);
      forall k | k in r && (k !in m || r[k] != m[k])
        ensures exists i | 0 <= i < |entries| :: entries[i].0 == k && pick(entries[i].1) == Keep(r[k])
      {
        RecordAllFrom(m, entries, pick, k);
      }
      forall i | 0 <= i < |entries| && pick(entries[i].1).Keep? && LastKept(entries, pick, i)
        ensures r[entries[i].0] == pick(entries[i].1).value
      {
        RecordAllLast(m, entries, pick, i);
      }
    }
  }

  /** No later entry of the property of entry `i` is kept. */
  predicate LastKept<T>(entries: seq<(string, Json)>, pick: Json -> Picked<T>, i: nat)
    requires i < |entries|
  {
    forall j | i < j < |entries| && entries[j].0 == entries[i].0 :: !pick(entries[j].1).Keep?
  }

  lemma {:induction false} RecordAllFails<T>(m: map<string, T>, entries: seq<(string, Json)>, pick: Json -> Picked<T>)
    ensures RecordAll(m, entries, pick).None? <==> exists i | 0 <= i < |entries| :: pick(entries[i].1).PickThrows?
  {
    if |entries| > 0 {
      var n := |entries| - 1;
      RecordAllFails(m, entries[..n], pick);
      assert forall i | 0 <= i < n :: entries[..n][i] == entries[i];
    }
  }

  lemma {:induction false} RecordAllGrows<T>(m: map<string, T>, entries: seq<(string, Json)>, pick: Json -> Picked<T>)
    requires RecordAll(m, entries, pick).Some?
    ensures forall k | k in m :: k in RecordAll(m, entries, pick).value
    ensures forall i | 0 <= i < |entries| && pick(entries[i].1).Keep? :: entries[i].0 in RecordAll(m, entries, pick).value
  {
    if |entries| > 0 {
      var n := |entries| - 1;
      RecordAllGrows(m, entries[..n], pick);
      assert forall i | 0 <= i < n :: entries[..n][i] == entries[i];
    }
  }

  lemma {:induction false} RecordAllFrom<T>(m: map<string, T>, entries: seq<(string, Json)>, pick: Json -> Picked<T>, k: string)
    requires RecordAll(m, entries, pick).Some?
    requires k in RecordAll(m, entries, pick).value
    requires k !in m || RecordAll(m, entries, pick).value[k] != m[k]
    ensures exists i | 0 <= i < |entries| :: entries[i].0 == k && pick(entries[i].1) == Keep(RecordAll(m, entries, pick).value[k])
  {
    var n := |entries| - 1;
    var front := entries[..n];
    var acc := RecordAll(m, front, pick).value;
    var r := RecordAll(m, entries, pick).value;
    if pick(entries[n].1).Keep? && entries[n].0 == k {
      assert entries[n].0 == k && pick(entries[n].1) == Keep(r[k]);
    } else {
      assert k in acc && r[k] == acc[k];
      RecordAllFrom(m, front, pick, k);
      var i :| 0 <= i < n && front[i].0 == k && pick(front[i].1) == Keep(acc[k]);
      assert entries[i] == front[i];
    }
  }

  lemma {:induction false} RecordAllLast<T>(m: map<string, T>, entries: seq<(string, Json)>, pick: Json -> Picked<T>, i: nat)
    requires RecordAll(m, entries, pick).Some? && i < |entries|
    requires pick(entries[i].1).Keep? && LastKept(entries, pick, i)
    ensures entries[i].0 in RecordAll(m, entries, pick).value
    ensures RecordAll(m, entries, pick).value[entries[i].0] == pick(entries[i].1).value
  {
    var n := |entries| - 1;
    if i < n {
      var front := entries[..n];
      assert front[i] == entries[i];
      assert LastKept(front, pick, i) by {
        forall j | i < j < |front| && front[j].0 == front[i].0 ensures !pick(front[j].1).Keep? {
          assert front[j] == entries[j];
        }
      }
      RecordAllLast(m, front, pick, i);
    }
  }

  /** The table of one section type: its own properties (`properties` must be present),
      then its additional ones. */
  function NodeRecord<T>(node: Json, pick: Json -> Picked<T>): (r: Option<map<string, T>>)
  {
    match Entries(Field(Is(node), "properties"))
    case None => None
    case Some(base) =>
      match RecordAll(map[], base, pick)
      case None => None
      case Some(m) =>
        match Entries(OrEmpty(OptField(Field(Is(node), "additionalProperties"), "properties")))
        case None => None
        case Some(extra) => RecordAll(m, extra, pick)
  }

  /** A section type's table holds exactly the properties `pick` keeps, own or additional,
      each with a value picked from one of its entries: the last kept additional one, or,
      when there is none, the last kept own one. */
  lemma NodeRecordMeaning<T>(node: Json, pick: Json -> Picked<T>, base: seq<(string, Json)>, extra: seq<(string, Json)>)
    requires Entries(Field(Is(node), "properties")) == Some(base)
    requires Entries(OrEmpty(OptField(Field(Is(node), "additionalProperties"), "properties"))) == Some(extra)
    requires NodeRecord(node, pick).Some?
    ensures forall k | k in NodeRecord(node, pick).value ::
      exists i | 0 <= i < |base + extra| :: (base + extra)[i].0 == k && pick((base + extra)[i].1) == Keep(NodeRecord(node, pick).value[k])
    ensures forall i | 0 <= i < |base| && pick(base[i].1).Keep? :: base[i].0 in NodeRecord(node, pick).value
    ensures forall i | 0 <= i < |extra| && pick(extra[i].1).Keep? :: extra[i].0 in NodeRecord(node, pick).value
    ensures forall i | 0 <= i < |extra| && pick(extra[i].1).Keep? && LastKept(extra, pick, i) ::
      NodeRecord(node, pick).value[extra[i].0] == pick(extra[i].1).value
    ensures forall i | 0 <= i < |base| && pick(base[i].1).Keep? && LastKept(base, pick, i) && NotKept(extra, pick, base[i].0) ::
      NodeRecord(node, pick).value[base[i].0] == pick(base[i].1).value
  {
    RecordAllMeaning(map[], base, pick);
    var m := RecordAll(map[], base, pick).value;
    RecordAllMeaning(m, extra, pick);
    var r := RecordAll(m, extra, pick).value;
    assert NodeRecord(node, pick) == Some(r);
    forall k | k in r
      ensures exists i | 0 <= i < |base + extra| :: (base + extra)[i].0 == k && pick((base + extra)[i].1) == Keep(r[k])
    {
      if k in m && r[k] == m[k] {
        var i :| 0 <= i < |base| && base[i].0 == k && pick(base[i].1) == Keep(m[k]);
        assert (base + extra)[i] == base[i];
      } else {
        var i :| 0 <= i < |extra| && extra[i].0 == k && pick(extra[i].1) == Keep(r[k]);
        assert (base + extra)[|base| + i] == extra[i];
      }
    }
    forall i | 0 <= i < |base| && pick(base[i].1).Keep? && LastKept(base, pick, i) && NotKept(extra, pick, base[i].0)
      ensures r[base[i].0] == pick(base[i].1).value
    {
      assert r[base[i].0] == m[base[i].0];
    }
  }

  /** No entry of `entries` for `key` is kept. */
  predicate NotKept<T>(entries: seq<(string, Json)>, pick: Json -> Picked<T>, key: string)
  {
    forall j | 0 <= j < |entries| && entries[j].0 == key :: !pick(entries[j].1).Keep?
  }

  /** `NodeRecord` with `pick` fixed, as the scan of `BuildEach`. */
  function RecordOf<T>(pick: Json -> Picked<T>): Json -> Option<map<string, T>>
  {
    v => NodeRecord(v, pick)
  }

  // ---------------------------------------------------------------------------
  // Python functions and classes (calculatePythonSymbols)

  /** The keys of the entries whose `flag` is truthy, in order. */
  function FlaggedKeys(entries: seq<(string, Json)>, flag: string): (r: Option<seq<string>>)
  {
    if |entries| == 0 then Some([])
    else
      var n := |entries| - 1;
      var rest := FlaggedKeys(entries[..n], flag);
      var f := Field(Is(entries[n].1), flag);
      if rest.None? || f.Throws? then None
      else Some(rest.value + (if ValTruthy(f) then [entries[n].0] else []))
  }

  /** The flagged keys are exactly the keys of the entries with a truthy `flag`; reading
      the flag fails exactly on a `null` property schema. */
  lemma {:induction false} FlaggedKeysMeaning(entries: seq<(string, Json)>, flag: string)
    ensures FlaggedKeys(entries, flag).None? <==> exists i | 0 <= i < |entries| :: entries[i].1 == JNull
    ensures FlaggedKeys(entries, flag).Some? ==>
      forall k :: k in FlaggedKeys(entries, flag).value <==>
        exists i | 0 <= i < |entries| :: entries[i].0 == k && ValTruthy(Field(Is(entries[i].1), flag))
  {
    FlaggedKeysFails(entries, flag);
    if FlaggedKeys(entries, flag).Some? {
      FlaggedKeysMembers(entries, flag);
    }
  }

  lemma {:induction false} FlaggedKeysFails(entries: seq<(string, Json)>, flag: string)
    ensures FlaggedKeys(entries, flag).None? <==> exists i | 0 <= i < |entries| :: entries[i].1 == JNull
  {
    if |entries| > 0 {
      var n := |entries| - 1;
      FlaggedKeysFails(entries[..n], flag);
      assert forall i | 0 <= i < n :: entries[..n][i] == entries[i];
    }
  }

  lemma {:induction false} FlaggedKeysMembers(entries: seq<(string, Json)>, flag: string)
    requires FlaggedKeys(entries, flag).Some?
    ensures forall k :: k in FlaggedKeys(entries, flag).value <==>
      exists i | 0 <= i < |entries| :: entries[i].0 == k && ValTruthy(Field(Is(entries[i].1), flag))
  {
    if |entries| > 0 {
      var n := |entries| - 1;
      FlaggedKeysMembers(entries[..n], flag);
      assert forall i | 0 <= i < n :: entries[..n][i] == entries[i];
    }
  }

  /** The flagged names of one section type: those of its own properties (which must be
      present), then those of its additional ones. */
  function SymbolNode(v: Json, flag: string): (r: Option<seq<string>>)
  {
    match Entries(Field(Is(v), "properties"))
    case None => None
    case Some(base) =>
      match FlaggedKeys(base, flag)
      case None => None
      case Some(ks) =>
        match Entries(OrEmpty(OptField(Field(Is(v), "additionalProperties"), "properties")))
        case None => None
        case Some(extra) =>
          match FlaggedKeys(extra, flag)
          case None => None
          case Some(ks2) => Some(ks + ks2)
  }

  /** The lists computed by `scan` for each section type's schema, concatenated in order;
      a failing scan fails the whole. */
  function ConcatEach(nodes: seq<Json>, scan: Json -> Option<seq<string>>): (r: Option<seq<string>>)
  {
    if |nodes| == 0 then Some([])
    else
      match ConcatEach(nodes[..|nodes| - 1], scan)
      case None => None
      case Some(a) =>
        match scan(nodes[|nodes| - 1])
        case None => None
        case Some(ks) => Some(a + ks)
  }

  /** `SymbolNode` with `flag` fixed, as the scan of `ConcatEach`. */
  function SymbolsOf(flag: string): Json -> Option<seq<string>>
  {
    v => SymbolNode(v, flag)
  }

  /** One section type flags exactly the properties flagged among its own properties or
      its additional ones. */
  lemma SymbolNodeMeaning(v: Json, flag: string, base: seq<(string, Json)>, extra: seq<(string, Json)>)
    requires Entries(Field(Is(v), "properties")) == Some(base)
    requires Entries(OrEmpty(OptField(Field(Is(v), "additionalProperties"), "properties"))) == Some(extra)
    requires SymbolNode(v, flag).Some?
    ensures forall k :: k in SymbolNode(v, flag).value <==> Flags(base, flag, k) || Flags(extra, flag, k)
  {
    FlaggedKeysMeaning(base, flag);
    FlaggedKeysMeaning(extra, flag);
    assert SymbolNode(v, flag).value == FlaggedKeys(base, flag).value + FlaggedKeys(extra, flag).value;
  }

  /** A concatenation lists a name iff some section type's scan lists it. */
  lemma {:induction false} ConcatEachMeaning(nodes: seq<Json>, scan: Json -> Option<seq<string>>)
    requires ConcatEach(nodes, scan).Some?
    ensures forall k :: k in ConcatEach(nodes, scan).value <==> exists i | 0 <= i < |nodes| :: Lists(scan, nodes[i], k)
  {
    if |nodes| > 0 {
      var n := |nodes| - 1;
      var front := nodes[..n];
      ConcatEachMeaning(front, scan);
      var before := ConcatEach(front, scan).value;
      var ks := scan(nodes[n]).value;
      assert ConcatEach(nodes, scan).value == before + ks;
      forall k | k in before + ks ensures exists i | 0 <= i < |nodes| :: Lists(scan, nodes[i], k) {
        if k in before {
          var i :| 0 <= i < n && Lists(scan, front[i], k);
          assert front[i] == nodes[i];
        } else {
          assert Lists(scan, nodes[n], k);
        }
      }
      forall k, i | 0 <= i < |nodes| && Lists(scan, nodes[i], k) ensures k in before + ks {
        if i < n {
          assert front[i] == nodes[i];
          assert Lists(scan, front[i], k);
        }
      }
    }
  }

  /** The scan of section type `v` lists `k`. */
  predicate Lists(scan: Json -> Option<seq<string>>, v: Json, k: string)
  {
    scan(v).Some? && k in scan(v).value
  }

  /** Some entry of `entries` for property `k` has a truthy `flag`. */
  predicate Flags(entries: seq<(string, Json)>, flag: string, k: string)
  {
    exists i | 0 <= i < |entries| :: entries[i].0 == k && ValTruthy(Field(Is(entries[i].1), flag))
  }

  function ValuesOf(entries: seq<(string, Json)>): (r: seq<Json>)
    ensures |r| == |entries| && forall i | 0 <= i < |entries| :: r[i] == entries[i].1
  {
    seq(|entries|, i requires 0 <= i < |entries| => entries[i].1)
  }

  // ---------------------------------------------------------------------------
  // Loops over one section type's schema

  /** The loops of `getProperties` for one section type. */
  method ScanNodeProperties(v: Json) returns (r: Option<(seq<string>, map<string, PropType>)>)
    ensures r == NodeTables(v)
  {
    var base := Entries(OrEmpty(Field(Is(v), "properties")));
    if base.None? {
      return None;
    }
    var acc := PushKeys([], map[], base.value);
    if acc.None? {
      return None;
    }
    var extra := Entries(OrEmpty(OptField(Field(Is(v), "additionalProperties"), "properties")));
    if extra.None? {
      return None;
    }
    var kept := KeepKeys(extra.value);
    r := PushKeys(acc.value.0, acc.value.1, kept);
  }

  /** `.filter(([key]) => key && key !== "if" && key !== "then" && key !== "else")`. */
  method KeepKeys(entries: seq<(string, Json)>) returns (r: seq<(string, Json)>)
    ensures r == Kept(entries)
  {
    r := [];
    var i := 0;
    while i < |entries|
      invariant 0 <= i <= |entries|
      invariant r == Kept(entries[..i])
    {
      assert entries[..i + 1][..i] == entries[..i];
      if KeptKey(entries[i].0) {
        r := r + [entries[i]];
      }
      i := i + 1;
    }
    assert entries[..i] == entries;
  }

  /** The `forEach` pushing each key and recording its kind. */
  method PushKeys(keys: seq<string>, types: map<string, PropType>, entries: seq<(string, Json)>)
    returns (r: Option<(seq<string>, map<string, PropType>)>)
    ensures r == AddKeys(keys, types, entries)
  {
    var ks, ts := keys, types;
    var i := 0;
    while i < |entries|
      invariant 0 <= i <= |entries|
      invariant AddKeys(keys, types, entries[..i]) == Some((ks, ts))
    {
      assert entries[..i + 1][..i] == entries[..i];
      var t := PropTypeOf(entries[i].1);
      if t.None? {
        AddKeysThrowSticks(keys, types, entries, i + 1);
        return None;
      }
      ks := ks + [entries[i].0];
      ts := ts[entries[i].0 := t.value];
      i := i + 1;
    }
    assert entries[..i] == entries;
    r := Some((ks, ts));
  }

  lemma {:induction false} AddKeysThrowSticks(keys: seq<string>, types: map<string, PropType>, entries: seq<(string, Json)>, k: nat)
    requires k <= |entries| && AddKeys(keys, types, entries[..k]).None?
    ensures AddKeys(keys, types, entries).None?
    decreases |entries| - k
  {
    if k < |entries| {
      assert entries[..k + 1][..k] == entries[..k];
      AddKeysThrowSticks(keys, types, entries, k + 1);
    } else {
      assert entries[..k] == entries;
    }
  }

  /** The `forEach` filling one section type's table. */
  method RecordLoop<T>(m: map<string, T>, entries: seq<(string, Json)>, pick: Json -> Picked<T>) returns (r: Option<map<string, T>>)
    ensures r == RecordAll(m, entries, pick)
  {
    var acc := m;
    var i := 0;
    while i < |entries|
      invariant 0 <= i <= |entries|
      invariant RecordAll(m, entries[..i], pick) == Some(acc)
    {
      assert entries[..i + 1][..i] == entries[..i];
      var p := pick(entries[i].1);
      if p.PickThrows? {
        RecordThrowSticks(m, entries, pick, i + 1);
        return None;
      }
      if p.Keep? {
        acc := acc[entries[i].0 := p.value];
      }
      i := i + 1;
    }
    assert entries[..i] == entries;
    r := Some(acc);
  }

  lemma {:induction false} RecordThrowSticks<T>(m: map<string, T>, entries: seq<(string, Json)>, pick: Json -> Picked<T>, k: nat)
    requires k <= |entries| && RecordAll(m, entries[..k], pick).None?
    ensures RecordAll(m, entries, pick).None?
    decreases |entries| - k
  {
    if k < |entries| {
      assert entries[..k + 1][..k] == entries[..k];
      RecordThrowSticks(m, entries, pick, k + 1);
    } else {
      assert entries[..k] == entries;
    }
  }

  /** One section type's table of defaults or references. */
  method ScanNodeRecord<T>(node: Json, pick: Json -> Picked<T>) returns (r: Option<map<string, T>>)
    ensures r == NodeRecord(node, pick)
  {
    var base := Entries(Field(Is(node), "properties"));
    if base.None? {
      return None;
    }
    var m := RecordLoop(map[], base.value, pick);
    if m.None? {
      return None;
    }
    var extra := Entries(OrEmpty(OptField(Field(Is(node), "additionalProperties"), "properties")));
    if extra.None? {
      return None;
    }
    r := RecordLoop(m.value, extra.value, pick);
  }

  /** `.filter(([_, v]) => !!v[flag]).map(([k, _]) => k)`. */
  method FlagLoop(entries: seq<(string, Json)>, flag: string) returns (r: Option<seq<string>>)
    ensures r == FlaggedKeys(entries, flag)
  {
    var ks: seq<string> := [];
    var i := 0;
    while i < |entries|
      invariant 0 <= i <= |entries|
      invariant FlaggedKeys(entries[..i], flag) == Some(ks)
    {
      assert entries[..i + 1][..i] == entries[..i];
      var f := Field(Is(entries[i].1), flag);
      if f.Throws? {
        FlagThrowSticks(entries, flag, i + 1);
        return None;
      }
      assert FlaggedKeys(entries[..i + 1], flag) == Some(ks + (if ValTruthy(f) then [entries[i].0] else []));
      if ValTruthy(f) {
        ks := ks + [entries[i].0];
      } else {
        assert ks + [] == ks;
      }
      i := i + 1;
    }
    assert entries[..i] == entries;
    r := Some(ks);
  }

  lemma {:induction false} FlagThrowSticks(entries: seq<(string, Json)>, flag: string, k: nat)
    requires k <= |entries| && FlaggedKeys(entries[..k], flag).None?
    ensures FlaggedKeys(entries, flag).None?
    decreases |entries| - k
  {
    if k < |entries| {
      assert entries[..k + 1][..k] == entries[..k];
      FlagThrowSticks(entries, flag, k + 1);
    } else {
      assert entries[..k] == entries;
    }
  }

  // ---------------------------------------------------------------------------
  // The module-level tables

  class Tables {
    var enumKeys: seq<string>
    var enums: map<string, seq<Json>>
    /** `_properties` and `_propertyTypes` together: both are filled for the same section
        types at the same time, so each type maps to its property list and their kinds. */
    var propertyTables: map<string, (seq<string>, map<string, PropType>)>
    var functions: Option<seq<string>>
    var classes: Option<seq<string>>
    var pythonReferences: map<string, map<string, bool>>
    var defaultValues: map<string, map<string, Json>>
    /** How many times the schema was read. */
    var schemaReads: nat

    /** The enumeration keys are listed once each, in insertion order. */
    ghost predicate Valid()
      reads this`enumKeys, this`enums
    {
      Distinct(enumKeys) && (forall k :: k in enumKeys <==> k in enums)
    }

    /** All tables start empty and the Python symbols unknown. */
    constructor ()
      ensures Valid()
      ensures enumKeys == [] && enums == map[] && propertyTables == map[]
      ensures functions == None && classes == None && pythonReferences == map[] && defaultValues == map[] && schemaReads == 0
    {
      enumKeys := [];
      enums := map[];
      propertyTables := map[];
      functions := None;
      classes := None;
      pythonReferences := map[];
      defaultValues := map[];
      schemaReads := 0;
    }

    /** `getProperties(nodeType)`: the property names of a section type, `[]` for an
        unknown type; the tables are built from `schema` while they are empty. `None`
        stands for a thrown error. */
    method GetProperties(schema: Json, nodeType: string) returns (r: Option<seq<string>>)
      modifies this`propertyTables, this`schemaReads
      ensures old(propertyTables) != map[] ==> r == Some(PropertiesOf(nodeType)) && unchanged(this)
      ensures old(propertyTables) == map[] ==>
        var nodes := Entries(OrEmpty(Field(Is(schema), "properties")));
        var built := if nodes.Some? then BuildEach(nodes.value, NodeTables) else None;
        && schemaReads == old(schemaReads) + 1
        && (built.None? ==> r.None?)
        && (built.Some? ==> propertyTables == built.value && r == Some(PropertiesOf(nodeType)))
    {
      if propertyTables == map[] {
        schemaReads := schemaReads + 1;
        var nodes := Entries(OrEmpty(Field(Is(schema), "properties")));
        if nodes.None? {
          return None;
        }
        var ok := BuildPropertyTables(nodes.value);
        if !ok {
          return None;
        }
      }
      r := Some(PropertiesOf(nodeType));
    }

    /** `_properties[nodeType] || []`. */
    function PropertiesOf(nodeType: string): seq<string>
      reads this
    {
      if nodeType in propertyTables then propertyTables[nodeType].0 else []
    }

    /** The outer `forEach` of `getProperties`. */
    method BuildPropertyTables(nodes: seq<(string, Json)>) returns (ok: bool)
      requires propertyTables == map[]
      modifies this`propertyTables
      ensures ok <==> BuildEach(nodes, NodeTables).Some?
      ensures ok ==> propertyTables == BuildEach(nodes, NodeTables).value
    {
      var i := 0;
      while i < |nodes|
        invariant 0 <= i <= |nodes|
        invariant BuildEach(nodes[..i], NodeTables) == Some(propertyTables)
      {
        assert nodes[..i + 1][..i] == nodes[..i];
        var t := ScanNodeProperties(nodes[i].1);
        if t.None? {
          BuildThrowSticks(nodes, NodeTables, i + 1);
          return false;
        }
        propertyTables := propertyTables[nodes[i].0 := t.value];
        i := i + 1;
      }
      assert nodes[..i] == nodes;
      ok := true;
    }

    /** `getPropertyType(nodeType, property)`: the recorded kind, `String` when there is
        none or the type has no properties. */
    method GetPropertyType(schema: Json, nodeType: string, property: string) returns (r: Option<PropType>)
      modifies this`propertyTables, this`schemaReads
      ensures r.Some? ==>
        r.value == (if PropertiesOf(nodeType) != [] && property in propertyTables[nodeType].1
                    then propertyTables[nodeType].1[property] else String)
      ensures old(propertyTables) != map[] ==> r.Some? && unchanged(this)
      ensures old(propertyTables) == map[] ==>
        var nodes := Entries(OrEmpty(Field(Is(schema), "properties")));
        var built := if nodes.Some? then BuildEach(nodes.value, NodeTables) else None;
        && schemaReads == old(schemaReads) + 1
        && (r.None? <==> built.None?)
        && (built.Some? ==> propertyTables == built.value)
    {
      var ps := GetProperties(schema, nodeType);
      if ps.None? {
        return None;
      }
      if |ps.value| > 0 {
        var types := propertyTables[nodeType].1;
        return Some(if property in types then types[property] else String);
      }
      r := Some(String);
    }

    /** `getPropertyTypes(nodeType)`: the kinds of a type's properties, `{}` when it has
        none. */
    method GetPropertyTypes(schema: Json, nodeType: string) returns (r: Option<map<string, PropType>>)
      modifies this`propertyTables, this`schemaReads
      ensures r.Some? ==>
        r.value == (if PropertiesOf(nodeType) != [] then propertyTables[nodeType].1 else map[])
      ensures old(propertyTables) != map[] ==> r.Some? && unchanged(this)
      ensures old(propertyTables) == map[] ==>
        var nodes := Entries(OrEmpty(Field(Is(schema), "properties")));
        var built := if nodes.Some? then BuildEach(nodes.value, NodeTables) else None;
        && schemaReads == old(schemaReads) + 1
        && (r.None? <==> built.None?)
        && (built.Some? ==> propertyTables == built.value)
    {
      var ps := GetProperties(schema, nodeType);
      if ps.None? {
        return None;
      }
      if |ps.value| > 0 {
        return Some(propertyTables[nodeType].1);
      }
      r := Some(map[]);
    }

    /** `addPropEnums(properties)`: every property with an `enum` list records its truthy
        values. `false` stands for a thrown error. */
    method AddPropEnums(props: Val) returns (ok: bool)
      requires Valid()
      modifies this`enumKeys, this`enums
      ensures Valid()
      ensures ok <==> AddPropEnumsOf(old(enumKeys), old(enums), props).Some?
      ensures ok ==> (enumKeys, enums) == AddPropEnumsOf(old(enumKeys), old(enums), props).value
    {
      if props.Throws? {
        return false;
      }
      if !ValTruthy(props) {
        return true;
      }
      var entries := Entries(props);
      if entries.None? {
        return false;
      }
      var es := entries.value;
      var i := 0;
      while i < |es|
        invariant 0 <= i <= |es| && Valid()
        invariant AddEnums(old(enumKeys), old(enums), es[..i]) == Some((enumKeys, enums))
      {
        assert es[..i + 1][..i] == es[..i];
        var e := Field(Is(es[i].1), "enum");
        if e.Throws? || (ValTruthy(e) && !e.j.JArr?) {
          EnumThrowSticks(old(enumKeys), old(enums), es, i + 1);
          return false;
        }
        if ValTruthy(e) {
          if es[i].0 !in enums {
            DistinctAppend(enumKeys, es[i].0);
            enumKeys := enumKeys + [es[i].0];
          }
          enums := enums[es[i].0 := TruthyOnly(e.j.items)];
        }
        assert AddEnums(old(enumKeys), old(enums), es[..i + 1]) == Some((enumKeys, enums));
        i := i + 1;
      }
      assert es[..i] == es;
      ok := true;
    }

    /** `getEnumProps()`: the properties that have an enumeration, in the order they were
        first recorded; the schema is scanned while there are none. */
    method GetEnumProps(schema: Json) returns (r: Option<seq<string>>)
      requires Valid()
      modifies this`enumKeys, this`enums, this`schemaReads
      ensures Valid()
      ensures old(enumKeys) != [] ==> r == Some(old(enumKeys)) && unchanged(this)
      ensures old(enumKeys) == [] ==>
        var nodes := Entries(Field(Is(schema), "properties"));
        var scanned := if nodes.Some? then ThreadEach((old(enumKeys), old(enums)), nodes.value, EnumAt) else None;
        && schemaReads == old(schemaReads) + 1
        && (scanned.None? ==> r.None?)
        && (scanned.Some? ==> (enumKeys, enums) == scanned.value && r == Some(enumKeys))
    {
      if |enumKeys| > 0 {
        return Some(enumKeys);
      }
      schemaReads := schemaReads + 1;
      var nodes := Entries(Field(Is(schema), "properties"));
      if nodes.None? {
        return None;
      }
      var ok := AddEnumNodes(nodes.value);
      r := if ok then Some(enumKeys) else None;
    }

    /** The loop of `getEnumProps` over the section types' schemas. */
    method AddEnumNodes(vs: seq<(string, Json)>) returns (ok: bool)
      requires Valid()
      modifies this`enumKeys, this`enums
      ensures Valid()
      ensures ok <==> ThreadEach((old(enumKeys), old(enums)), vs, EnumAt).Some?
      ensures ok ==> ThreadEach((old(enumKeys), old(enums)), vs, EnumAt) == Some((enumKeys, enums))
    {
      ghost var start := (enumKeys, enums);
      var i := 0;
      while i < |vs|
        invariant 0 <= i <= |vs| && Valid()
        invariant ThreadEach(start, vs[..i], EnumAt) == Some((enumKeys, enums))
      {
        ThreadNext(start, vs, EnumAt, i, (enumKeys, enums));
        ok := AddEnumNode(vs[i].1);
        if !ok {
          ThreadThrowSticks(start, vs, EnumAt, i + 1);
          return;
        }
        i := i + 1;
      }
      assert vs[..i] == vs;
      ok := true;
    }

    /** The body of `getEnumProps`'s loop for one section type. */
    method AddEnumNode(v: Json) returns (ok: bool)
      requires Valid()
      modifies this`enumKeys, this`enums
      ensures Valid()
      ensures ok <==> EnumNode(old(enumKeys), old(enums), v).Some?
      ensures ok ==> (enumKeys, enums) == EnumNode(old(enumKeys), old(enums), v).value
    {
      ok := AddPropEnums(Field(Is(v), "properties"));
      if !ok {
        return;
      }
      ok := AddPropEnums(OptField(Field(Is(v), "additionalProperties"), "properties"));
    }

    /** `getDefaultValues(nodeType)`: the truthy defaults of a type's properties, `{}` for
        an unknown type; built while the table is empty. */
    method GetDefaultValues(schema: Json, nodeType: string) returns (r: Option<map<string, Json>>)
      modifies this`defaultValues, this`schemaReads
      ensures old(defaultValues) != map[] ==>
        r == Some(if nodeType in defaultValues then defaultValues[nodeType] else map[]) && unchanged(this)
      ensures old(defaultValues) == map[] ==>
        var nodes := Entries(Field(Is(schema), "properties"));
        var built := if nodes.Some? then BuildEach(nodes.value, RecordOf(PickDefault)) else None;
        && schemaReads == old(schemaReads) + 1
        && (built.None? ==> r.None?)
        && (built.Some? ==> defaultValues == built.value && r == Some(if nodeType in defaultValues then defaultValues[nodeType] else map[]))
    {
      if defaultValues == map[] {
        schemaReads := schemaReads + 1;
        var nodes := Entries(Field(Is(schema), "properties"));
        if nodes.None? {
          return None;
        }
        var built := BuildTable(nodes.value, PickDefault);
        if built.None? {
          return None;
        }
        defaultValues := built.value;
      }
      r := Some(if nodeType in defaultValues then defaultValues[nodeType] else map[]);
    }

    /** `getPythonReferences()`: type -> property -> whether it names a function (`true`)
        or a class (`false`); built while the table is empty. */
    method GetPythonReferences(schema: Json) returns (r: Option<map<string, map<string, bool>>>)
      modifies this`pythonReferences, this`schemaReads
      ensures old(pythonReferences) != map[] ==> r == Some(pythonReferences) && unchanged(this)
      ensures old(pythonReferences) == map[] ==>
        var nodes := Entries(Field(Is(schema), "properties"));
        var built := if nodes.Some? then BuildEach(nodes.value, RecordOf(PickReference)) else None;
        && schemaReads == old(schemaReads) + 1
        && (built.None? ==> r.None?)
        && (built.Some? ==> pythonReferences == built.value && r == Some(pythonReferences))
    {
      if pythonReferences == map[] {
        schemaReads := schemaReads + 1;
        var nodes := Entries(Field(Is(schema), "properties"));
        if nodes.None? {
          return None;
        }
        var built := BuildTable(nodes.value, PickReference);
        if built.None? {
          return None;
        }
        pythonReferences := built.value;
      }
      r := Some(pythonReferences);
    }

    /** `calculatePythonSymbols()`: the names of the properties flagged `taipy_function`,
        then those flagged `taipy_class`, each list computed once. `false` stands for a
        thrown error. */
    method CalculatePythonSymbols(schema: Json) returns (ok: bool)
      modifies this`functions, this`classes, this`schemaReads
      ensures var nodes := Entries(Field(Is(schema), "properties"));
        var fs := if nodes.Some? then ConcatEach(ValuesOf(nodes.value), SymbolsOf("taipy_function")) else None;
        var cs := if nodes.Some? then ConcatEach(ValuesOf(nodes.value), SymbolsOf("taipy_class")) else None;
        && (ok <==> (old(functions).Some? || fs.Some?) && (old(classes).Some? || cs.Some?))
        && (old(functions).None? && fs.Some? ==> functions == fs)
        && (old(functions).Some? ==> functions == old(functions))
        && (old(functions).None? && fs.None? ==> classes == old(classes))
        // a scan that throws leaves its list empty, so it is not run again
        && (old(functions).None? && fs.None? ==> functions == Some([]))
        && ((old(functions).Some? || fs.Some?) && old(classes).None? && cs.None? ==> classes == Some([]))
        && (ok ==> classes.Some?)
        && (ok && old(classes).None? ==> classes == cs)
        && (old(classes).Some? ==> classes == old(classes))
    {
      if functions.None? {
        functions := Some([]);
        schemaReads := schemaReads + 1;
        var done := ScanSymbols(schema, "taipy_function", true);
        if !done {
          return false;
        }
      }
      if classes.None? {
        classes := Some([]);
        schemaReads := schemaReads + 1;
        var done := ScanSymbols(schema, "taipy_class", false);
        if !done {
          return false;
        }
      }
      ok := true;
    }

    /** The scan behind one list of `calculatePythonSymbols`, stored in `functions` (or
        `classes`) once it completes. */
    method ScanSymbols(schema: Json, flag: string, intoFunctions: bool) returns (ok: bool)
      requires intoFunctions ==> functions == Some([])
      requires !intoFunctions ==> classes == Some([])
      modifies this`functions, this`classes
      ensures var nodes := Entries(Field(Is(schema), "properties"));
        var scan := if nodes.Some? then ConcatEach(ValuesOf(nodes.value), SymbolsOf(flag)) else None;
        && (ok <==> scan.Some?)
        && (ok && intoFunctions ==> functions == scan)
        && (ok && !intoFunctions ==> classes == scan)
        // a scan that throws leaves its list empty
        && (!ok && intoFunctions ==> functions == Some([]))
        && (!ok && !intoFunctions ==> classes == Some([]))
      ensures intoFunctions ==> classes == old(classes) && functions.Some?
      ensures !intoFunctions ==> functions == old(functions) && classes.Some?
    {
      var nodes := Entries(Field(Is(schema), "properties"));
      if nodes.None? {
        return false;
      }
      var found := SymbolLoop(ValuesOf(nodes.value), flag);
      if found.None? {
        return false;
      }
      if intoFunctions {
        functions := found;
      } else {
        classes := found;
      }
      ok := true;
    }

    /** `isFunction(property)`: `undefined` until the functions are known. */
    function IsFunction(property: string): (r: Option<bool>)
      reads this
      ensures r.None? <==> functions.None?
      ensures r.Some? ==> (r.value <==> property in functions.value)
    {
      if functions.None? then None else Some(property in functions.value)
    }

    /** `isClass(property)`: `undefined` until the classes are known. */
    function IsClass(property: string): (r: Option<bool>)
      reads this
      ensures r.None? <==> classes.None?
      ensures r.Some? ==> (r.value <==> property in classes.value)
    {
      if classes.None? then None else Some(property in classes.value)
    }
  }

  /** The loop of `calculatePythonSymbols` over the section types' schemas. */
  method SymbolLoop(vs: seq<Json>, flag: string) returns (r: Option<seq<string>>)
    ensures r == ConcatEach(vs, SymbolsOf(flag))
  {
    var acc: seq<string> := [];
    var i := 0;
    while i < |vs|
      invariant 0 <= i <= |vs|
      invariant ConcatEach(vs[..i], SymbolsOf(flag)) == Some(acc)
    {
      assert vs[..i + 1][..i] == vs[..i];
      var ks := ScanSymbolNode(vs[i], flag);
      assert SymbolsOf(flag)(vs[i]) == ks;
      if ks.None? {
        ConcatThrowSticks(vs, SymbolsOf(flag), i + 1);
        return None;
      }
      acc := acc + ks.value;
      i := i + 1;
    }
    assert vs[..i] == vs;
    r := Some(acc);
  }

  /** The two `forEach` loops of `calculatePythonSymbols` for one section type. */
  method ScanSymbolNode(v: Json, flag: string) returns (r: Option<seq<string>>)
    ensures r == SymbolNode(v, flag)
  {
    var base := Entries(Field(Is(v), "properties"));
    if base.None? {
      return None;
    }
    var ks := FlagLoop(base.value, flag);
    if ks.None? {
      return None;
    }
    var extra := Entries(OrEmpty(OptField(Field(Is(v), "additionalProperties"), "properties")));
    if extra.None? {
      return None;
    }
    var ks2 := FlagLoop(extra.value, flag);
    if ks2.None? {
      return None;
    }
    r := Some(ks.value + ks2.value);
  }

  /** The outer `forEach` of `getDefaultValues` and `getPythonReferences`. */
  method BuildTable<T>(nodes: seq<(string, Json)>, pick: Json -> Picked<T>) returns (r: Option<map<string, map<string, T>>>)
    ensures r == BuildEach(nodes, RecordOf(pick))
  {
    var acc: map<string, map<string, T>> := map[];
    var i := 0;
    while i < |nodes|
      invariant 0 <= i <= |nodes|
      invariant BuildEach(nodes[..i], RecordOf(pick)) == Some(acc)
    {
      assert nodes[..i + 1][..i] == nodes[..i];
      var t := ScanNodeRecord(nodes[i].1, pick);
      if t.None? {
        BuildThrowSticks(nodes, RecordOf(pick), i + 1);
        return None;
      }
      acc := acc[nodes[i].0 := t.value];
      i := i + 1;
    }
    assert nodes[..i] == nodes;
    r := Some(acc);
  }

  lemma {:induction false} BuildThrowSticks<T>(nodes: seq<(string, Json)>, scan: Json -> Option<T>, k: nat)
    requires k <= |nodes| && BuildEach(nodes[..k], scan).None?
    ensures BuildEach(nodes, scan).None?
    decreases |nodes| - k
  {
    if k < |nodes| {
      assert nodes[..k + 1][..k] == nodes[..k];
      BuildThrowSticks(nodes, scan, k + 1);
    } else {
      assert nodes[..k] == nodes;
    }
  }

  lemma {:induction false} EnumThrowSticks(keys: seq<string>, table: map<string, seq<Json>>, entries: seq<(string, Json)>, k: nat)
    requires k <= |entries| && AddEnums(keys, table, entries[..k]).None?
    ensures AddEnums(keys, table, entries).None?
    decreases |entries| - k
  {
    if k < |entries| {
      assert entries[..k + 1][..k] == entries[..k];
      EnumThrowSticks(keys, table, entries, k + 1);
    } else {
      assert entries[..k] == entries;
    }
  }

  lemma ThreadNext<A>(acc: A, nodes: seq<(string, Json)>, step: (A, Json) -> Option<A>, i: nat, a: A)
    requires i < |nodes| && ThreadEach(acc, nodes[..i], step) == Some(a)
    ensures ThreadEach(acc, nodes[..i + 1], step) == step(a, nodes[i].1)
  {
    assert nodes[..i + 1][..i] == nodes[..i];
  }

  lemma {:induction false} ThreadThrowSticks<A>(acc: A, nodes: seq<(string, Json)>, step: (A, Json) -> Option<A>, k: nat)
    requires k <= |nodes| && ThreadEach(acc, nodes[..k], step).None?
    ensures ThreadEach(acc, nodes, step).None?
    decreases |nodes| - k
  {
    if k < |nodes| {
      assert nodes[..k + 1][..k] == nodes[..k];
      ThreadThrowSticks(acc, nodes, step, k + 1);
    } else {
      assert nodes[..k] == nodes;
    }
  }

  lemma {:induction false} ConcatThrowSticks(nodes: seq<Json>, scan: Json -> Option<seq<string>>, k: nat)
    requires k <= |nodes| && ConcatEach(nodes[..k], scan).None?
    ensures ConcatEach(nodes, scan).None?
    decreases |nodes| - k
  {
    if k < |nodes| {
      assert nodes[..k + 1][..k] == nodes[..k];
      ConcatThrowSticks(nodes, scan, k + 1);
    } else {
      assert nodes[..k] == nodes;
    }
  }
}
