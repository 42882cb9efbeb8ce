/**
 * The pages' constant object literals from a key to a list of names
 * (`genre_author`, `author_work`). A JavaScript object keeps its keys in
 * insertion order, which is the order `Object.values` reports, so a table is
 * an ordered list of (key, values) entries.
 */
module Tables {
  import opened Seqs

  type Table = seq<(string, seq<string>)>

  /** No key is declared twice (an object literal has each key once). */
  predicate KeysDistinct(t: Table)
  {
    forall i, j :: 0 <= i < j < |t| ==> t[i].0 != t[j].0
  }

  /** `key` is one of the table's keys. */
  predicate HasKey(t: Table, key: string)
  {
    exists i :: 0 <= i < |t| && t[i].0 == key
  }

  /** `t[key] || []`: the list stored under `key`, or the empty list for an unknown key. */
  function Lookup(t: Table, key: string): (r: seq<string>)
    ensures !HasKey(t, key) ==> r == []
    ensures KeysDistinct(t) ==> forall i :: 0 <= i < |t| && t[i].0 == key ==> r == t[i].1
  {
    if |t| == 0 then []
    else if t[0].0 == key then t[0].1
    else
      var r := Lookup(t[1..], key);
      assert forall i :: 1 <= i < |t| ==> t[1..][i - 1] == t[i];
      r
  }

  /** `Object.values(t)`. */
  function Values(t: Table): (r: seq<seq<string>>)
    ensures |r| == |t| && forall i :: 0 <= i < |t| ==> r[i] == t[i].1
  {
    seq(|t|, i requires 0 <= i < |t| => t[i].1)
  }

  /** `Array.from(new Set(Object.values(t).flat()))`: every name of every entry, once each, in the
      order in which the entries, read in key order, first list them. */
  function AllValues(t: Table): (r: seq<string>)
    ensures NoDup(r)
    ensures forall x :: x in r <==> exists i :: 0 <= i < |t| && x in t[i].1
    ensures forall x :: x in r <==> x in Flatten(Values(t))
    ensures forall i, j :: 0 <= i < j < |r| ==>
      FirstIndex(Flatten(Values(t)), r[i]) < FirstIndex(Flatten(Values(t)), r[j])
  {
    var r := Dedup(Flatten(Values(t)));
    assert forall x :: x in r <==> exists i :: 0 <= i < |t| && x in Values(t)[i];
    DedupKeepsFirstOccurrenceOrder(Flatten(Values(t)));
    r
  }
}
