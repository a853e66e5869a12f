/** A JavaScript `Set` of ids, as the remote search builds it: an insertion-ordered sequence without
    duplicates. `Array.from(set)` is the sequence itself and `set.has(id)` is membership. */
module IdSets {
  import opened Seqs

  predicate NoDup<T(==)>(s: seq<T>) {
    forall i, j :: 0 <= i < j < |s| ==> s[i] != s[j]
  }

  /** `set.add(x)`: appends `x` unless it is already there. */
  function Add<T(==,!new)>(s: seq<T>, x: T): (r: seq<T>)
    ensures NoDup(s) ==> NoDup(r)
    ensures x in r && s <= r
    ensures forall y :: y in r <==> y in s || y == x
  {
    if x in s then s else s + [x]
  }

  /** `xs.forEach(x => set.add(x))`. */
  function AddAll<T(==,!new)>(s: seq<T>, xs: seq<T>): (r: seq<T>)
    ensures NoDup(s) ==> NoDup(r)
    ensures s <= r
    ensures forall y :: y in r <==> y in s || y in xs
    decreases |xs|
  {
    if xs == [] then s else AddAll(Add(s, xs[0]), xs[1..])
  }

  /** `new Set(xs)`: the distinct elements of `xs`, in order of first occurrence. */
  function FromSeq<T(==,!new)>(xs: seq<T>): (r: seq<T>)
    ensures NoDup(r)
    ensures forall y :: y in r <==> y in xs
  {
    AddAll([], xs)
  }

  /** `id => s.has(id)`. */
  function Has<T(==)>(s: seq<T>): T -> bool {
    id => id in s
  }

  /** `x` belongs to every set of `sets`. */
  predicate InEvery<T(==)>(x: T, sets: seq<seq<T>>) {
    forall j :: 0 <= j < |sets| ==> x in sets[j]
  }

  /** Reference definition of the intersection: the elements of `xs`, in their order, that belong to
      every set of `sets`. */
  function KeepInEvery<T(==)>(xs: seq<T>, sets: seq<seq<T>>): seq<T> {
    if xs == [] then []
    else (if InEvery(xs[0], sets) then [xs[0]] else []) + KeepInEvery(xs[1..], sets)
  }

  /** The intersection holds exactly the elements of `xs` found in every set, keeps their order,
      and repeats nothing when `xs` does not. */
  lemma {:induction false} KeepInEveryMembers<T>(xs: seq<T>, sets: seq<seq<T>>)
    ensures forall y :: y in KeepInEvery(xs, sets) <==> y in xs && InEvery(y, sets)
    ensures IsSubseq(KeepInEvery(xs, sets), xs)
    ensures NoDup(xs) ==> NoDup(KeepInEvery(xs, sets))
  {
    if xs != [] {
      KeepInEveryMembers(xs[1..], sets);
      var tail := KeepInEvery(xs[1..], sets);
      assert xs == [xs[0]] + xs[1..];
      if InEvery(xs[0], sets) {
        assert KeepInEvery(xs, sets) == [xs[0]] + tail;
        assert KeepInEvery(xs, sets)[1..] == tail;
        if NoDup(xs) {
          assert NoDup(xs[1..]) by {
            forall i, j | 0 <= i < j < |xs[1..]| ensures xs[1..][i] != xs[1..][j] {
              assert xs[1..][i] == xs[i + 1] && xs[1..][j] == xs[j + 1];
            }
          }
          assert xs[0] !in xs[1..] by {
            forall k | 0 <= k < |xs[1..]| ensures xs[1..][k] != xs[0] { assert xs[1..][k] == xs[k + 1]; }
          }
          var r := KeepInEvery(xs, sets);
          forall i, j | 0 <= i < j < |r| ensures r[i] != r[j] {
            if i == 0 {
              assert r[j] == tail[j - 1];
            } else {
              assert r[i] == tail[i - 1] && r[j] == tail[j - 1];
            }
          }
        }
      } else {
        assert KeepInEvery(xs, sets) == tail;
        SkipHeadSubseq(tail, xs);
        if NoDup(xs) {
          assert NoDup(xs[1..]) by {
            forall i, j | 0 <= i < j < |xs[1..]| ensures xs[1..][i] != xs[1..][j] {
              assert xs[1..][i] == xs[i + 1] && xs[1..][j] == xs[j + 1];
            }
          }
        }
      }
    }
  }

  lemma {:induction false} KeepInEveryNone<T>(xs: seq<T>)
    ensures KeepInEvery(xs, []) == xs
  {
    if xs != [] {
      KeepInEveryNone(xs[1..]);
      assert xs == [xs[0]] + xs[1..];
    }
  }

  /** Filtering the intersection over `sets` by one more set gives the intersection over all of them. */
  lemma {:induction false} KeepInEveryStep<T>(xs: seq<T>, sets: seq<seq<T>>, s: seq<T>)
    ensures Filter(KeepInEvery(xs, sets), Has(s)) == KeepInEvery(xs, sets + [s])
  {
    if xs != [] {
      KeepInEveryStep(xs[1..], sets, s);
      var x := xs[0];
      assert InEvery(x, sets + [s]) <==> InEvery(x, sets) && x in s by {
        if InEvery(x, sets) && x in s {
          forall j | 0 <= j < |sets + [s]| ensures x in (sets + [s])[j] {
            if j < |sets| { assert (sets + [s])[j] == sets[j]; }
          }
        }
        if InEvery(x, sets + [s]) {
          assert (sets + [s])[|sets|] == s;
          forall j | 0 <= j < |sets| ensures x in sets[j] { assert (sets + [s])[j] == sets[j]; }
        }
      }
      var head := if InEvery(x, sets) then [x] else [];
      FilterAppend(head, KeepInEvery(xs[1..], sets), Has(s));
    }
  }

  /** The `commonIds` loop: starting from the first set, keep the ids that every later set has. */
  method CommonIds<T(==)>(resultSets: seq<seq<T>>) returns (commonIds: seq<T>)
    requires |resultSets| >= 1
    ensures commonIds == KeepInEvery(resultSets[0], resultSets[1..])
  {
    commonIds := resultSets[0];
    KeepInEveryNone(resultSets[0]);
    assert resultSets[1..1] == [];
    var i := 1;
    while i < |resultSets|
      invariant 1 <= i <= |resultSets|
      invariant commonIds == KeepInEvery(resultSets[0], resultSets[1..i])
    {
      KeepInEveryStep(resultSets[0], resultSets[1..i], resultSets[i]);
      assert resultSets[1..i] + [resultSets[i]] == resultSets[1..i + 1];
      commonIds := Filter(commonIds, Has(resultSets[i]));
      i := i + 1;
    }
    assert resultSets[1..i] == resultSets[1..];
  }

  /** `commonIds` holds exactly the ids of the first set that every other set has, in the first
      set's order and without repeats. */
  lemma CommonIdsMembers<T>(resultSets: seq<seq<T>>)
    requires |resultSets| >= 1 && NoDup(resultSets[0])
    ensures var common := KeepInEvery(resultSets[0], resultSets[1..]);
      && (forall y :: y in common <==> forall j :: 0 <= j < |resultSets| ==> y in resultSets[j])
      && IsSubseq(common, resultSets[0])
      && NoDup(common)
  {
    var first, rest := resultSets[0], resultSets[1..];
    KeepInEveryMembers(first, rest);
    forall y ensures y in first && InEvery(y, rest) <==> forall j :: 0 <= j < |resultSets| ==> y in resultSets[j] {
      if y in first && InEvery(y, rest) {
        forall j | 0 <= j < |resultSets| ensures y in resultSets[j] {
          if j > 0 { assert resultSets[j] == rest[j - 1]; }
        }
      }
      if forall j :: 0 <= j < |resultSets| ==> y in resultSets[j] {
        assert y in resultSets[0];
        forall j | 0 <= j < |rest| ensures y in rest[j] { assert rest[j] == resultSets[j + 1]; }
      }
    }
  }
}
