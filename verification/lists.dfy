/** Sequence helpers shared by the bill model: duplicate-freedom, removal of
    every occurrence of a value (the `filter((x) => x !== v)` idiom of the
    component), and counting how many elements of one list occur in another. */
module Lists {

  /** No value occurs twice in `s`. */
  predicate NoDup<T(==)>(s: seq<T>) {
    forall i, j :: 0 <= i < j < |s| ==> s[i] != s[j]
  }

  /** `s` with every occurrence of `x` removed, the other elements kept in order. */
  function Without<T(==,!new)>(s: seq<T>, x: T): (r: seq<T>)
    ensures forall y :: y in r <==> y in s && y != x
    ensures |r| <= |s|
    ensures x !in s ==> r == s
    ensures NoDup(s) ==> NoDup(r)
    ensures NoDup(s) && x in s ==> |r| == |s| - 1
  {
    if |s| == 0 then []
    else if s[0] == x then Without(s[1..], x)
    else
      var rest := Without(s[1..], x);
      assert NoDup(s) ==> s[0] !in rest && NoDup([s[0]] + rest) by {
        if NoDup(s) {
          forall k | 0 <= k < |s| - 1 ensures s[1..][k] != s[0] {
            assert s[1..][k] == s[k + 1];
          }
        }
      }
      [s[0]] + rest
  }

  /** Removal distributes over concatenation: it keeps the relative order. */
  lemma {:induction false} WithoutAppend<T(!new)>(a: seq<T>, b: seq<T>, x: T)
    ensures Without(a + b, x) == Without(a, x) + Without(b, x)
  {
    if |a| == 0 {
      assert a + b == b;
    } else {
      assert (a + b)[1..] == a[1..] + b;
      WithoutAppend(a[1..], b, x);
    }
  }

  /** How many elements of `xs` (counted with multiplicity) occur in `ys`. */
  function CountIn<T(==,!new)>(xs: seq<T>, ys: seq<T>): (r: nat)
    ensures r <= |xs|
    ensures (forall y :: y in ys ==> y !in xs) ==> r == 0
  {
    if |xs| == 0 then 0
    else (if xs[0] in ys then 1 else 0) + CountIn(xs[1..], ys)
  }

  /** The count only depends on which elements of `xs` the second list holds. */
  lemma {:induction false} CountInAgree<T(!new)>(xs: seq<T>, ys: seq<T>, zs: seq<T>)
    requires forall x :: x in xs ==> (x in ys <==> x in zs)
    ensures CountIn(xs, ys) == CountIn(xs, zs)
  {
    if |xs| > 0 {
      assert xs[0] in xs;
      CountInAgree(xs[1..], ys, zs);
    }
  }

  /** When `ys` is a duplicate-free list drawn from the duplicate-free list
      `xs`, exactly `|ys|` elements of `xs` occur in `ys`. */
  lemma {:induction false} CountInCovers<T(!new)>(xs: seq<T>, ys: seq<T>)
    requires NoDup(xs) && NoDup(ys)
    ensures (forall y :: y in ys ==> y in xs) ==> CountIn(xs, ys) == |ys|
  {
    if forall y :: y in ys ==> y in xs {
      if |xs| == 0 {
        if |ys| > 0 {
          assert ys[0] in ys;
        }
      } else {
        var x, rest := xs[0], xs[1..];
        assert x !in rest by {
          forall k | 0 <= k < |rest| ensures rest[k] != x {
            assert rest[k] == xs[k + 1];
          }
        }
        assert NoDup(rest);
        if x in ys {
          var ys' := Without(ys, x);
          forall y | y in ys' ensures y in rest {
            assert y in xs && y != x;
          }
          CountInCovers(rest, ys');
          CountInAgree(rest, ys, ys');
        } else {
          forall y | y in ys ensures y in rest {
            assert y in xs && y != x;
          }
          CountInCovers(rest, ys);
        }
      }
    }
  }
}
