/**
 * The data the extension passes around: a JavaScript object used as a
 * string-keyed dictionary (`Record<string, T>`), whose `Object.keys` order is
 * the order keys were first assigned; the import index built on it; and the
 * unresolved-reference record.
 */
module Records {
  import opened Wrappers

  /** An object used as a dictionary: its keys in insertion order, and its values. */
  datatype Record<V> = Record(keys: seq<string>, values: map<string, V>)
  {
    ghost predicate Valid()
    {
      && (forall i, j :: 0 <= i < j < |keys| ==> keys[i] != keys[j])
      && (forall k :: k in values <==> k in keys)
    }

    /** `record[k]`, `undefined` being None */
    function Get(k: string): (r: Option<V>)
      ensures r.Some? <==> k in values
    {
      if k in values then Some(values[k]) else None
    }

    /** `record[k] = v`: a new key goes to the end of the key order, an existing one keeps its place. */
    function Set(k: string, v: V): (r: Record<V>)
      ensures r.values == values[k := v]
      ensures k in keys ==> r.keys == keys
      ensures k !in keys ==> r.keys == keys + [k]
    {
      if k in keys then Record(keys, values[k := v]) else Record(keys + [k], values[k := v])
    }

    /** Setting a key keeps the keys distinct and in step with the values. */
    lemma SetValid(k: string, v: V)
      requires Valid()
      ensures Set(k, v).Valid()
    {
    }
  }

  function EmptyRecord<V>(): (r: Record<V>)
    ensures r.Valid() && r.keys == []
  {
    Record([], map[])
  }

  predicate NoDuplicates<T(==)>(s: seq<T>)
  {
    forall i, j :: 0 <= i < j < |s| ==> s[i] != s[j]
  }

  /** `Index` (src/importIndex.ts): keyword to the import lines seen for it. */
  type Index = Record<seq<string>>

  /** No keyword's list holds the same line twice. */
  ghost predicate IndexValid(index: Index)
  {
    index.Valid() && forall k :: k in index.values ==> NoDuplicates(index.values[k])
  }

  /** The lines recorded under `k`, empty when the keyword is absent. */
  function Lookup(index: Index, k: string): (r: seq<string>)
    ensures k !in index.values ==> r == []
  {
    if k in index.values then index.values[k] else []
  }

  /** `ImportInfo`: one unresolved reference reported by the compiler. */
  datatype ImportInfo = ImportInfo(keyword: string, filePath: string, locationInFile: string)
}
