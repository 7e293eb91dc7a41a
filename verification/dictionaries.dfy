/** System.Collections.Generic.Dictionary as the engine uses it: keys are
    enumerated in insertion order (nothing is ever removed), the indexer
    overwrites a value in place, and Add throws on a key already present. */
module Dictionaries {
  import opened Wrappers

  datatype Entry<V> = Entry(key: string, value: V)

  function Keys<V>(d: seq<Entry<V>>): (ks: seq<string>)
    ensures |ks| == |d| && forall i :: 0 <= i < |d| ==> ks[i] == d[i].key
  {
    seq(|d|, i requires 0 <= i < |d| => d[i].key)
  }

  /** Every key appears once. */
  predicate DistinctKeys<V>(d: seq<Entry<V>>) {
    forall i, j :: 0 <= i < j < |d| ==> d[i].key != d[j].key
  }

  /** dictionary[key] = value: overwrite in place, or append a new entry. */
  function Put<V>(d: seq<Entry<V>>, key: string, value: V): (r: seq<Entry<V>>)
    requires DistinctKeys(d)
    ensures DistinctKeys(r)
    ensures key in Keys(r) && forall i :: 0 <= i < |r| && r[i].key == key ==> r[i].value == value
    ensures key in Keys(d) ==> Keys(r) == Keys(d)
    ensures key !in Keys(d) ==> Keys(r) == Keys(d) + [key]
    ensures forall i :: 0 <= i < |d| && d[i].key != key ==> r[i] == d[i]
  {
    if key in Keys(d) then
      var i :| 0 <= i < |d| && d[i].key == key;
      assert forall j :: 0 <= j < |d| && d[j].key == key ==> j == i;
      var r := d[i := Entry(key, value)];
      assert Keys(r)[i] == key;
      r
    else
      var r := d + [Entry(key, value)];
      assert Keys(r)[|d|] == key;
      r
  }

  /** dictionary.Add(key, value): throws ArgumentException on a present key. */
  function Add<V>(d: seq<Entry<V>>, key: string, value: V): (r: Result<seq<Entry<V>>>)
    ensures r.Ok? <==> key !in Keys(d)
    ensures r.Ok? ==> r.value == d + [Entry(key, value)]
  {
    if key in Keys(d) then Err(Argument("Dictionary.Add")) else Ok(d + [Entry(key, value)])
  }
}
