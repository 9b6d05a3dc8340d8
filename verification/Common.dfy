/** Vocabulary shared by the models: optional values and a few facts about sequences. */
module Common {

  datatype Option<+T> = None | Some(value: T)

  newtype byte = b: int | 0 <= b < 256
  type Bytes = seq<byte>

  const NL: byte := 10

  /** Command ids, runner slugs and points in time. */
  type Id = nat
  type Slug = string
  type Time = int

  /** All parts one after the other. */
  function Flatten<T>(parts: seq<seq<T>>): seq<T>
  {
    if parts == [] then [] else Flatten(parts[..|parts| - 1]) + parts[|parts| - 1]
  }

  lemma FlattenSnoc<T>(parts: seq<seq<T>>, part: seq<T>)
    ensures Flatten(parts + [part]) == Flatten(parts) + part
  {
    assert (parts + [part])[..|parts|] == parts;
  }

  lemma ConcatAssociates<T>(a: seq<T>, b: seq<T>, c: seq<T>)
    ensures a + (b + c) == a + b + c
  {
  }

  lemma ConsThree<T>(a: T, b: T, c: T, rest: seq<T>)
    ensures [a] + ([b] + ([c] + rest)) == [a, b, c] + rest
  {
  }

  /** `a` is what remains of `b` after deleting some of its elements. */
  predicate IsSubsequence<T(==)>(a: seq<T>, b: seq<T>)
  {
    a == [] ||
    (b != [] &&
     ((a[|a| - 1] == b[|b| - 1] && IsSubsequence(a[..|a| - 1], b[..|b| - 1])) ||
      IsSubsequence(a, b[..|b| - 1])))
  }

  lemma SubsequenceKeep<T>(a: seq<T>, b: seq<T>, x: T)
    requires IsSubsequence(a, b)
    ensures IsSubsequence(a + [x], b + [x])
  {
    assert (a + [x])[..|a|] == a && (b + [x])[..|b|] == b;
  }

  lemma SubsequenceDrop<T>(a: seq<T>, b: seq<T>, x: T)
    requires IsSubsequence(a, b)
    ensures IsSubsequence(a, b + [x])
  {
    assert (b + [x])[..|b|] == b;
  }

  /** How often `x` occurs in all parts together. */
  function Tally<T(==)>(parts: seq<seq<T>>, x: T): nat
  {
    if parts == [] then 0 else Tally(parts[..|parts| - 1], x) + multiset(parts[|parts| - 1])[x]
  }

  lemma TallySnoc<T>(parts: seq<seq<T>>, part: seq<T>, x: T)
    ensures Tally(parts + [part], x) == Tally(parts, x) + multiset(part)[x]
  {
    assert (parts + [part])[..|parts|] == parts;
  }

  lemma {:induction false} TallyRemove<T>(parts: seq<seq<T>>, i: nat, x: T)
    requires i < |parts|
    ensures Tally(parts[..i] + parts[i + 1..], x) + multiset(parts[i])[x] == Tally(parts, x)
  {
    var n := |parts| - 1;
    var front := parts[..n];
    if i < n {
      TallyRemove(front, i, x);
      assert parts[..i] + parts[i + 1..] == front[..i] + front[i + 1..] + [parts[n]];
      TallySnoc(front[..i] + front[i + 1..], parts[n], x);
    } else {
      assert parts[..i] + parts[i + 1..] == front;
    }
  }

  // ----- sums over a table -----

  ghost function SomeKey(m: map<Slug, nat>): (k: Slug)
    requires m != map[]
    ensures k in m
  {
    var k :| k in m;
    k
  }

  ghost function Sum(m: map<Slug, nat>): nat
    decreases |m|
  {
    if m == map[] then 0
    else
      var k := SomeKey(m);
      assert (m - {k}).Keys == m.Keys - {k};
      m[k] + Sum(m - {k})
  }

  lemma {:induction false} SumTake(m: map<Slug, nat>, k: Slug)
    requires k in m
    ensures Sum(m) == m[k] + Sum(m - {k})
    decreases |m|
  {
    var j := SomeKey(m);
    if j != k {
      assert (m - {j}).Keys == m.Keys - {j} && (m - {k}).Keys == m.Keys - {k};
      SumTake(m - {j}, k);
      SumTake(m - {k}, j);
      assert m - {j} - {k} == m - {k} - {j};
    }
  }

  lemma SumPut(m: map<Slug, nat>, k: Slug, v: nat)
    ensures Sum(m[k := v]) + (if k in m then m[k] else 0) == Sum(m) + v
  {
    SumTake(m[k := v], k);
    if k in m {
      SumTake(m, k);
      assert m[k := v] - {k} == m - {k};
    } else {
      assert m[k := v] - {k} == m;
    }
  }
}
