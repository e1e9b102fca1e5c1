/**
 * The JSON value tree the router walks (`serde_json::Value`), with numbers
 * kept opaque, and the three `serde_json::Map` operations the router uses:
 * `get`, `insert` and `extend`.  A map is a sequence of entries in iteration
 * order; objects built by serialisation have unique keys.
 */
module JsonValue {
  import opened Wrappers

  datatype Json =
    | Obj(fields: seq<(string, Json)>)
    | Arr(items: seq<Json>)
    | Num(n: int)
    | Str(s: string)
    | Bool(b: bool)
    | Null

  type Fields = seq<(string, Json)>

  function Keys(fs: Fields): (ks: seq<string>)
    ensures |ks| == |fs|
    ensures forall i :: 0 <= i < |fs| ==> ks[i] == fs[i].0
  {
    if fs == [] then [] else [fs[0].0] + Keys(fs[1..])
  }

  /** No key appears twice, as in every `serde_json::Map`. */
  predicate UniqueKeys(fs: Fields) {
    forall i, j :: 0 <= i < j < |fs| ==> fs[i].0 != fs[j].0
  }

  /** `Map::get`: the value of the first entry with `key`. */
  function Lookup(fs: Fields, key: string): Option<Json> {
    if fs == [] then None
    else if fs[0].0 == key then Some(fs[0].1)
    else Lookup(fs[1..], key)
  }

  /** A key is found exactly when it is one of the keys. */
  lemma {:induction false} LookupKeys(fs: Fields, key: string)
    ensures Lookup(fs, key).Some? <==> key in Keys(fs)
  {
    if fs != [] {
      LookupKeys(fs[1..], key);
      assert Keys(fs) == [fs[0].0] + Keys(fs[1..]);
    }
  }

  /** A value found is the value of an entry with that key. */
  lemma {:induction false} LookupFound(fs: Fields, key: string)
    requires Lookup(fs, key).Some?
    ensures exists i :: 0 <= i < |fs| && fs[i] == (key, Lookup(fs, key).value)
  {
    if fs[0].0 == key {
      assert fs[0] == (key, fs[0].1);
    } else {
      LookupFound(fs[1..], key);
      var i :| 0 <= i < |fs[1..]| && fs[1..][i] == (key, Lookup(fs, key).value);
      assert fs[i + 1] == (key, Lookup(fs, key).value);
    }
  }

  /** With unique keys, every entry is what a lookup of its key finds. */
  lemma {:induction false} LookupEntry(fs: Fields, i: nat)
    requires UniqueKeys(fs) && i < |fs|
    ensures Lookup(fs, fs[i].0) == Some(fs[i].1)
  {
    if i > 0 {
      assert fs[0].0 != fs[i].0;
      assert fs[1..][i - 1] == fs[i];
      LookupEntry(fs[1..], i - 1);
    }
  }

  /**
   * `Map::insert`: an existing key keeps its place and takes the new value;
   * a new key is appended.
   */
  function Insert(fs: Fields, key: string, val: Json): (r: Fields)
    ensures Keys(r) == if key in Keys(fs) then Keys(fs) else Keys(fs) + [key]
  {
    if fs == [] then [(key, val)]
    else if fs[0].0 == key then [(key, val)] + fs[1..]
    else [fs[0]] + Insert(fs[1..], key, val)
  }

  /** After an insert, `key` finds the new value and every other key what it found before. */
  lemma {:induction false} InsertLookup(fs: Fields, key: string, val: Json, k: string)
    ensures Lookup(Insert(fs, key, val), k) == if k == key then Some(val) else Lookup(fs, k)
  {
    if fs != [] && fs[0].0 != key {
      InsertLookup(fs[1..], key, val, k);
      assert ([fs[0]] + Insert(fs[1..], key, val))[1..] == Insert(fs[1..], key, val);
    } else if fs != [] {
      assert ([(key, val)] + fs[1..])[1..] == fs[1..];
    }
  }

  /** Inserting keeps keys unique. */
  lemma InsertUnique(fs: Fields, key: string, val: Json)
    requires UniqueKeys(fs)
    ensures UniqueKeys(Insert(fs, key, val))
  {
    var r := Insert(fs, key, val);
    assert forall i :: 0 <= i < |r| ==> r[i].0 == Keys(r)[i];
  }

  /** `Map::extend`: every entry of `more` inserted in order. */
  function Extend(fs: Fields, more: Fields): (r: Fields)
    ensures Keys(fs) <= Keys(r)
    ensures forall k :: k in Keys(r) <==> k in Keys(fs) || k in Keys(more)
    decreases |more|
  {
    if more == [] then fs
    else
      assert Keys(more) == [more[0].0] + Keys(more[1..]);
      Extend(Insert(fs, more[0].0, more[0].1), more[1..])
  }

  /**
   * After extending by a map with unique keys, each of its keys finds its
   * value there, and every other key what it found before.
   */
  lemma {:induction false} ExtendLookup(fs: Fields, more: Fields, k: string)
    requires UniqueKeys(more)
    ensures Lookup(Extend(fs, more), k) == if k in Keys(more) then Lookup(more, k) else Lookup(fs, k)
    decreases |more|
  {
    if more != [] {
      var next := Insert(fs, more[0].0, more[0].1);
      assert UniqueKeys(more[1..]);
      ExtendLookup(next, more[1..], k);
      InsertLookup(fs, more[0].0, more[0].1, k);
      assert Keys(more) == [more[0].0] + Keys(more[1..]);
      if k == more[0].0 {
        assert k !in Keys(more[1..]);
      }
    }
  }

  /** Extending keeps keys unique. */
  lemma {:induction false} ExtendUnique(fs: Fields, more: Fields)
    requires UniqueKeys(fs)
    ensures UniqueKeys(Extend(fs, more))
    decreases |more|
  {
    if more != [] {
      InsertUnique(fs, more[0].0, more[0].1);
      ExtendUnique(Insert(fs, more[0].0, more[0].1), more[1..]);
    }
  }

  /** `Value::get(key)`: an object's value for `key`; nothing for any other value. */
  function Get(v: Json, key: string): Option<Json> {
    if v.Obj? then Lookup(v.fields, key) else None
  }

  /** `v.get("name").and_then(Value::as_str)`: the string under `name`, if any. */
  function NameOf(v: Json): Option<string> {
    if Get(v, "name").Some? && Get(v, "name").value.Str? then Some(Get(v, "name").value.s) else None
  }
}
