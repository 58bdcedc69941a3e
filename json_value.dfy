/** The JSON-like values the serializer builds, and the insertion-ordered map
    (java.util.LinkedHashMap) it fills while walking the tree. */
module JsonValue {
  import opened Outcomes

  /** A string, a list, or a map whose entries keep their insertion order. */
  datatype Json = Str(s: string) | Arr(items: seq<Json>) | Obj(fields: seq<(string, Json)>)

  type Entries = seq<(string, Json)>

  /** The keys of a map, in iteration order. */
  function Keys(fields: Entries): seq<string>
  {
    if fields == [] then [] else [fields[0].0] + Keys(fields[1..])
  }

  predicate Distinct(ks: seq<string>)
  {
    forall i, j :: 0 <= i < j < |ks| ==> ks[i] != ks[j]
  }

  /** Map.get: the value stored under k, if any. */
  function Lookup(fields: Entries, k: string): Option<Json>
  {
    if fields == [] then None
    else if fields[0].0 == k then Some(fields[0].1)
    else Lookup(fields[1..], k)
  }

  /** The entries after put(k, v) on a LinkedHashMap: a key already present keeps
      its position and gets the new value; a new key goes last. */
  function Updated(fields: Entries, k: string, v: Json): (r: Entries)
    ensures Keys(r) == if k in Keys(fields) then Keys(fields) else Keys(fields) + [k]
    ensures Lookup(r, k) == Some(v)
    ensures forall k' :: k' != k ==> Lookup(r, k') == Lookup(fields, k')
  {
    if fields == [] then [(k, v)]
    else if fields[0].0 == k then
      var r := [(k, v)] + fields[1..];
      assert r[1..] == fields[1..];
      r
    else
      var rest := Updated(fields[1..], k, v);
      var r := [fields[0]] + rest;
      assert r[1..] == rest;
      r
  }

  /** put of a key not yet present appends it. */
  lemma {:induction false} UpdatedAppendsNewKey(fields: Entries, k: string, v: Json)
    requires k !in Keys(fields)
    ensures Updated(fields, k, v) == fields + [(k, v)]
  {
    if fields != [] {
      assert Keys(fields) == [fields[0].0] + Keys(fields[1..]);
      UpdatedAppendsNewKey(fields[1..], k, v);
      assert [fields[0]] + (fields[1..] + [(k, v)]) == fields + [(k, v)];
    }
  }

  /** put of the key in the last entry replaces that entry's value in place. */
  lemma {:induction false} UpdatedReplacesLast(fields: Entries, k: string, w: Json, v: Json)
    requires k !in Keys(fields)
    ensures Updated(fields + [(k, w)], k, v) == fields + [(k, v)]
  {
    if fields != [] {
      var f := fields + [(k, w)];
      assert f[0] == fields[0] && f[1..] == fields[1..] + [(k, w)];
      assert Keys(fields) == [fields[0].0] + Keys(fields[1..]);
      UpdatedReplacesLast(fields[1..], k, w, v);
      assert [fields[0]] + (fields[1..] + [(k, v)]) == fields + [(k, v)];
    }
  }

  /** Puts of two distinct keys into an empty map keep them in call order. */
  lemma PutsInOrder2(k1: string, v1: Json, k2: string, v2: Json)
    requires k1 != k2
    ensures Updated(Updated([], k1, v1), k2, v2) == [(k1, v1), (k2, v2)]
  {
    UpdatedAppendsNewKey([(k1, v1)], k2, v2);
  }

  /** Puts of three distinct keys into an empty map keep them in call order. */
  lemma PutsInOrder3(k1: string, v1: Json, k2: string, v2: Json, k3: string, v3: Json)
    requires k1 != k2 && k1 != k3 && k2 != k3
    ensures Updated(Updated(Updated([], k1, v1), k2, v2), k3, v3) == [(k1, v1), (k2, v2), (k3, v3)]
  {
    PutsInOrder2(k1, v1, k2, v2);
    assert Keys([(k1, v1), (k2, v2)]) == [k1, k2] by {
      assert [(k1, v1), (k2, v2)][1..] == [(k2, v2)];
    }
    UpdatedAppendsNewKey([(k1, v1), (k2, v2)], k3, v3);
  }

  /** put never introduces a duplicate key. */
  lemma UpdatedKeepsKeysDistinct(fields: Entries, k: string, v: Json)
    requires Distinct(Keys(fields))
    ensures Distinct(Keys(Updated(fields, k, v)))
  {
    var ks := Keys(fields);
    if k !in ks {
      var ks' := ks + [k];
      forall i, j | 0 <= i < j < |ks'| ensures ks'[i] != ks'[j] {
        if j == |ks| { assert ks'[i] == ks[i]; }
      }
    }
  }

  /** java.util.LinkedHashMap<String, Object> as the serializer uses it. */
  class LinkedMap {
    var entries: Entries

    /** A map holds each key once. */
    ghost predicate Valid()
      reads this
    {
      Distinct(Keys(entries))
    }

    constructor ()
      ensures entries == [] && Valid()
    {
      entries := [];
    }

    /** Map.put: replace the value of a present key in place, otherwise append. */
    method Put(k: string, v: Json)
      requires Valid()
      modifies this
      ensures entries == Updated(old(entries), k, v)
      ensures Valid()
    {
      UpdatedKeepsKeysDistinct(entries, k, v);
      entries := Updated(entries, k, v);
    }
  }
}
