/**
 * Generic sequence helpers shared by every panel: an optional value (the
 * source's `T | null`), duplicate-freedom, the subsequence order, removal of
 * every occurrence of a value (`xs.filter(x => x !== v)`), the add-or-remove
 * toggle used for category selection and favourites, `indexOf`, and the
 * `indexOf(v) === i` first-occurrence de-duplication.
 */
module Basics {

  datatype Option<+T> = None | Some(value: T)

  /** No value occurs twice in `xs`. */
  ghost predicate NoDup<T>(xs: seq<T>) {
    forall i, j :: 0 <= i < j < |xs| ==> xs[i] != xs[j]
  }

  /** `a` can be obtained from `b` by deleting elements, keeping the order of the rest. */
  ghost predicate Subseq<T>(a: seq<T>, b: seq<T>)
    decreases |b|
  {
    if a == [] then true
    else if b == [] then false
    else (a[0] == b[0] && Subseq(a[1..], b[1..])) || Subseq(a, b[1..])
  }

  /** The sequence with every occurrence of `x` deleted, the rest in order. */
  function Remove<T(==,!new)>(xs: seq<T>, x: T): (r: seq<T>)
    ensures forall y :: y in r <==> y in xs && y != x
    ensures Subseq(r, xs)
    decreases |xs|
  {
    if xs == [] then []
    else
      var rest := Remove(xs[1..], x);
      if xs[0] == x then
        assert Subseq(rest, xs) by { assert rest == [] || xs[1..] == xs[1..]; }
        rest
      else
        var r := [xs[0]] + rest;
        assert r[0] == xs[0] && r[1..] == rest;
        r
  }

  /** Removal keeps the multiplicity of every other value. */
  lemma {:induction false} RemoveCounts<T(!new)>(xs: seq<T>, x: T)
    ensures multiset(Remove(xs, x)) == multiset(xs)[x := 0]
    decreases |xs|
  {
    if xs != [] {
      RemoveCounts(xs[1..], x);
      assert xs == [xs[0]] + xs[1..];
    }
  }

  /** Removing an absent value changes nothing. */
  lemma {:induction false} RemoveAbsent<T(!new)>(xs: seq<T>, x: T)
    requires x !in xs
    ensures Remove(xs, x) == xs
    decreases |xs|
  {
    if xs != [] {
      RemoveAbsent(xs[1..], x);
      assert xs == [xs[0]] + xs[1..];
    }
  }

  /** Removal keeps a duplicate-free sequence duplicate-free. */
  lemma {:induction false} RemoveKeepsNoDup<T(!new)>(xs: seq<T>, x: T)
    requires NoDup(xs)
    ensures NoDup(Remove(xs, x))
    decreases |xs|
  {
    if xs != [] {
      assert NoDup(xs[1..]) by {
        forall i, j | 0 <= i < j < |xs[1..]|
          ensures xs[1..][i] != xs[1..][j]
        {
          assert xs[1..][i] == xs[i + 1] && xs[1..][j] == xs[j + 1];
        }
      }
      RemoveKeepsNoDup(xs[1..], x);
      var rest := Remove(xs[1..], x);
      if xs[0] != x {
        var r := [xs[0]] + rest;
        assert xs[0] !in xs[1..] by {
          forall j | 0 <= j < |xs[1..]|
            ensures xs[1..][j] != xs[0]
          {
            assert xs[1..][j] == xs[j + 1];
          }
        }
        forall i, j | 0 <= i < j < |r|
          ensures r[i] != r[j]
        {
          assert r[j] == rest[j - 1];
          if i > 0 {
            assert r[i] == rest[i - 1];
          }
        }
      }
    }
  }

  /**
   * Adds `x` at the end when it is absent and removes every occurrence of
   * it when it is present.
   */
  function Toggle<T(==,!new)>(xs: seq<T>, x: T): (r: seq<T>)
    ensures x in r <==> x !in xs
    ensures forall y :: y != x ==> (y in r <==> y in xs)
    ensures x !in xs ==> |r| == |xs| + 1 && r[..|xs|] == xs && r[|xs|] == x
    ensures x in xs ==> Subseq(r, xs)
  {
    if x in xs then Remove(xs, x) else xs + [x]
  }

  /** A toggle never introduces a duplicate. */
  lemma ToggleKeepsNoDup<T(!new)>(xs: seq<T>, x: T)
    requires NoDup(xs)
    ensures NoDup(Toggle(xs, x))
  {
    if x !in xs {
      var r := xs + [x];
      forall i, j | 0 <= i < j < |r|
        ensures r[i] != r[j]
      {
        if j == |xs| {
          assert r[i] == xs[i];
        }
      }
    } else {
      RemoveKeepsNoDup(xs, x);
    }
  }

  /** Toggling twice always restores the same members. */
  lemma ToggleTwiceSameMembers<T(!new)>(xs: seq<T>, x: T)
    ensures forall y :: y in Toggle(Toggle(xs, x), x) <==> y in xs
  {
  }

  /**
   * On a duplicate-free sequence, toggling the same value twice restores the
   * sequence exactly when the value was absent or was the last element: a
   * present value elsewhere comes back at the end.
   */
  lemma ToggleTwiceRestoresIff<T(!new)>(xs: seq<T>, x: T)
    requires NoDup(xs)
    ensures Toggle(Toggle(xs, x), x) == xs <==> (x !in xs || xs[|xs| - 1] == x)
  {
    if x !in xs {
      assert Toggle(xs, x) == xs + [x];
      RemoveAppended(xs, x);
    } else {
      var once := Remove(xs, x);
      assert Toggle(xs, x) == once;
      assert x !in once;
      assert Toggle(once, x) == once + [x];
      if xs[|xs| - 1] == x {
        var front := xs[..|xs| - 1];
        assert xs == front + [x];
        assert x !in front by {
          forall i | 0 <= i < |front|
            ensures front[i] != x
          {
            assert front[i] == xs[i];
          }
        }
        RemoveAppended(front, x);
        assert once == front;
      } else {
        assert (once + [x])[|once + [x]| - 1] == x;
        if once + [x] == xs {
          assert false;
        }
      }
    }
  }

  /** Removing a value just appended to a sequence that lacked it gives the sequence back. */
  lemma {:induction false} RemoveAppended<T(!new)>(xs: seq<T>, x: T)
    requires x !in xs
    ensures Remove(xs + [x], x) == xs
    decreases |xs|
  {
    if xs == [] {
      assert [x][1..] == [];
    } else {
      assert (xs + [x])[1..] == xs[1..] + [x];
      RemoveAppended(xs[1..], x);
      assert xs == [xs[0]] + xs[1..];
    }
  }

  /** JavaScript `indexOf`: the first index holding `x`, or -1 when there is none. */
  function IndexOf<T(==,!new)>(xs: seq<T>, x: T): (i: int)
    ensures -1 <= i < |xs|
    ensures i == -1 <==> x !in xs
    ensures 0 <= i ==> xs[i] == x && forall j :: 0 <= j < i ==> xs[j] != x
    decreases |xs|
  {
    if xs == [] then -1
    else if xs[0] == x then 0
    else
      var k := IndexOf(xs[1..], x);
      if k == -1 then -1 else k + 1
  }

  /**
   * The elements `xs[j]`, `k <= j`, that sit at their own first index,
   * i.e. `xs.filter((v, j) => xs.indexOf(v) === j)` restricted to `j >= k`.
   */
  function FirstOccurrencesFrom<T(==,!new)>(xs: seq<T>, k: nat): (r: seq<T>)
    requires k <= |xs|
    ensures forall y :: y in r <==> y in xs && k <= IndexOf(xs, y)
    decreases |xs| - k
  {
    if k == |xs| then []
    else
      var rest := FirstOccurrencesFrom(xs, k + 1);
      IndexOfAt(xs, k);
      if IndexOf(xs, xs[k]) == k then [xs[k]] + rest
      else rest
  }

  /** The first index of the value held at `k` is at most `k`, and equals `k` only for that value. */
  lemma IndexOfAt<T(!new)>(xs: seq<T>, k: nat)
    requires k < |xs|
    ensures IndexOf(xs, xs[k]) <= k
    ensures forall y :: y in xs && IndexOf(xs, y) == k ==> y == xs[k]
  {
  }

  /** The elements of `r` occur in `xs`, in strictly increasing order of their first index there. */
  ghost predicate InFirstOccurrenceOrder<T(!new)>(r: seq<T>, xs: seq<T>) {
    forall p, q :: 0 <= p < q < |r| ==> IndexOf(xs, r[p]) < IndexOf(xs, r[q])
  }

  /** The kept elements appear in strictly increasing order of first index. */
  lemma {:induction false} FirstOccurrencesOrdered<T(!new)>(xs: seq<T>, k: nat)
    requires k <= |xs|
    ensures InFirstOccurrenceOrder(FirstOccurrencesFrom(xs, k), xs)
    decreases |xs| - k
  {
    if k < |xs| {
      FirstOccurrencesOrdered(xs, k + 1);
      var rest := FirstOccurrencesFrom(xs, k + 1);
      if IndexOf(xs, xs[k]) == k {
        assert FirstOccurrencesFrom(xs, k) == [xs[k]] + rest;
        ConsOrdered(xs[k], rest, xs);
      } else {
        assert FirstOccurrencesFrom(xs, k) == rest;
      }
    }
  }

  /** Prepending an element whose first index precedes all others keeps the order. */
  lemma ConsOrdered<T(!new)>(x: T, rest: seq<T>, xs: seq<T>)
    requires InFirstOccurrenceOrder(rest, xs)
    requires forall y :: y in rest ==> IndexOf(xs, x) < IndexOf(xs, y)
    ensures InFirstOccurrenceOrder([x] + rest, xs)
  {
    var r := [x] + rest;
    forall p, q | 0 <= p < q < |r|
      ensures IndexOf(xs, r[p]) < IndexOf(xs, r[q])
    {
      assert r[q] == rest[q - 1];
      if p > 0 {
        assert r[p] == rest[p - 1];
      }
    }
  }

  /**
   * Order-preserving first-occurrence de-duplication: no value repeats,
   * the members are exactly those of `xs`, and they appear in the order of
   * their first occurrence in `xs`.
   */
  function Dedupe<T(==,!new)>(xs: seq<T>): (r: seq<T>)
    ensures NoDup(r)
    ensures forall y :: y in r <==> y in xs
    ensures InFirstOccurrenceOrder(r, xs)
  {
    FirstOccurrencesOrdered(xs, 0);
    var r := FirstOccurrencesFrom(xs, 0);
    assert forall p, q :: 0 <= p < q < |r| ==> r[p] != r[q] by {
      forall p, q | 0 <= p < q < |r|
        ensures r[p] != r[q]
      {
        assert IndexOf(xs, r[p]) < IndexOf(xs, r[q]);
      }
    }
    r
  }
}
