/**
 * List operations the pages build from JavaScript primitives:
 * `Array.from(new Set(xs))`, `xs.filter(x => pool.includes(x))` and `xss.flat()`.
 */
module Seqs {

  /** No element occurs twice. */
  predicate NoDup<T(==,!new)>(s: seq<T>)
  {
    forall i, j :: 0 <= i < j < |s| ==> s[i] != s[j]
  }

  /** Position of the first occurrence of `x` in `s`. */
  function FirstIndex<T(==,!new)>(s: seq<T>, x: T): (i: nat)
    requires x in s
    ensures i < |s| && s[i] == x && x !in s[..i]
  {
    if s[0] == x then 0
    else
      assert s == [s[0]] + s[1..];
      var j := FirstIndex(s[1..], x);
      assert s[..j + 1] == [s[0]] + s[1..][..j];
      j + 1
  }

  /** The first occurrence of `x` is the same in `s` and in any prefix of `s` that holds `x`. */
  lemma FirstIndexInPrefix<T(!new)>(s: seq<T>, n: nat, x: T)
    requires n <= |s| && x in s[..n]
    ensures FirstIndex(s, x) == FirstIndex(s[..n], x)
  {
    var i, j := FirstIndex(s, x), FirstIndex(s[..n], x);
    assert s[..n][..j] == s[..j];
    assert forall k :: 0 <= k < j ==> s[..j][k] == s[k];
    assert forall k :: 0 <= k < i ==> s[..i][k] == s[k];
  }

  /** `Array.from(new Set(s))`: the elements of `s`, each once, in the order of their first occurrence. */
  function Dedup<T(==,!new)>(s: seq<T>): (r: seq<T>)
    ensures NoDup(r)
    ensures forall x :: x in r <==> x in s
    ensures |r| <= |s|
  {
    if |s| == 0 then []
    else
      var d := Dedup(s[..|s| - 1]);
      var last := s[|s| - 1];
      assert s == s[..|s| - 1] + [last];
      if last in d then d else d + [last]
  }

  /** The elements of `Dedup(s)` stand in the order of their first occurrences in `s`. */
  lemma {:induction false} DedupKeepsFirstOccurrenceOrder<T(!new)>(s: seq<T>)
    ensures forall i, j :: 0 <= i < j < |Dedup(s)| ==>
      FirstIndex(s, Dedup(s)[i]) < FirstIndex(s, Dedup(s)[j])
  {
    if |s| > 0 {
      var p := s[..|s| - 1];
      var last := s[|s| - 1];
      var d := Dedup(p);
      DedupKeepsFirstOccurrenceOrder(p);
      assert p == s[..|p|];
      forall x | x in d ensures FirstIndex(s, x) == FirstIndex(p, x) {
        FirstIndexInPrefix(s, |p|, x);
      }
      if last !in d {
        assert last !in p;
        assert FirstIndex(s, last) == |p| by {
          assert forall k :: 0 <= k < |p| ==> p[k] == s[k];
        }
      }
    }
  }

  /** A list without duplicates is its own deduplication. */
  lemma {:induction false} DedupOfDistinct<T(!new)>(s: seq<T>)
    requires NoDup(s)
    ensures Dedup(s) == s
  {
    if |s| > 0 {
      var p := s[..|s| - 1];
      DedupOfDistinct(p);
      assert s[|s| - 1] !in p;
      assert s == p + [s[|s| - 1]];
    }
  }

  /** `s.filter(x => pool.includes(x))`. */
  function Keep<T(==,!new)>(s: seq<T>, pool: seq<T>): (r: seq<T>)
    ensures forall x :: x in r <==> x in s && x in pool
    ensures |r| <= |s|
  {
    if |s| == 0 then []
    else if s[0] in pool then [s[0]] + Keep(s[1..], pool)
    else Keep(s[1..], pool)
  }

  /** Filtering distributes over concatenation, so it keeps the relative order of what it keeps. */
  lemma {:induction false} KeepAppend<T(!new)>(a: seq<T>, b: seq<T>, pool: seq<T>)
    ensures Keep(a + b, pool) == Keep(a, pool) + Keep(b, pool)
  {
    if |a| > 0 {
      assert (a + b)[0] == a[0];
      assert (a + b)[1..] == a[1..] + b;
      KeepAppend(a[1..], b, pool);
    } else {
      assert a + b == b;
    }
  }

  /** A list whose elements all lie in the pool survives the filter whole. */
  lemma {:induction false} KeepAll<T(!new)>(s: seq<T>, pool: seq<T>)
    requires forall x :: x in s ==> x in pool
    ensures Keep(s, pool) == s
  {
    if |s| > 0 {
      KeepAll(s[1..], pool);
      assert s == [s[0]] + s[1..];
    }
  }

  /** Filtering twice by the same pool is filtering once. */
  lemma KeepIdempotent<T(!new)>(s: seq<T>, pool: seq<T>)
    ensures Keep(Keep(s, pool), pool) == Keep(s, pool)
  {
    KeepAll(Keep(s, pool), pool);
  }

  /** Filtering a list without duplicates yields a list without duplicates. */
  lemma {:induction false} KeepNoDup<T(!new)>(s: seq<T>, pool: seq<T>)
    requires NoDup(s)
    ensures NoDup(Keep(s, pool))
  {
    if |s| > 0 {
      assert NoDup(s[1..]) by {
        forall i, j | 0 <= i < j < |s[1..]| ensures s[1..][i] != s[1..][j] {
          assert s[1..][i] == s[i + 1] && s[1..][j] == s[j + 1];
        }
      }
      KeepNoDup(s[1..], pool);
      assert s[0] !in s[1..] by {
        forall k | 0 <= k < |s[1..]| ensures s[1..][k] != s[0] { assert s[1..][k] == s[k + 1]; }
      }
    }
  }

  /** `ss.flat()`. */
  function Flatten<T(!new)>(ss: seq<seq<T>>): (r: seq<T>)
    ensures forall x :: x in r <==> exists k :: 0 <= k < |ss| && x in ss[k]
  {
    if |ss| == 0 then []
    else
      var init := ss[..|ss| - 1];
      var r := Flatten(init) + ss[|ss| - 1];
      assert forall k :: 0 <= k < |init| ==> init[k] == ss[k];
      r
  }

  /** Flattening distributes over concatenation: the lists' elements stand in list order,
      each as often as it occurs. */
  lemma {:induction false} FlattenAppend<T(!new)>(a: seq<seq<T>>, b: seq<seq<T>>)
    ensures Flatten(a + b) == Flatten(a) + Flatten(b)
  {
    if |b| == 0 {
      assert a + b == a;
    } else {
      var init := b[..|b| - 1];
      assert (a + b)[..|a + b| - 1] == a + init;
      assert (a + b)[|a + b| - 1] == b[|b| - 1];
      FlattenAppend(a, init);
    }
  }

  /** A single list flattens to itself. */
  lemma FlattenOne<T(!new)>(s: seq<T>)
    ensures Flatten([s]) == s
  {
    assert [s][..0] == [];
  }
}
