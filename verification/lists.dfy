/** Sequence operations behind the Java collections the core mutates. */
module Lists {

  /** No element occurs twice. */
  predicate Distinct<T(==)>(s: seq<T>)
  {
    forall i, j :: 0 <= i < j < |s| ==> s[i] != s[j]
  }

  /** Index of the first occurrence of `x` in `s`. */
  function IndexOf<T(==)>(s: seq<T>, x: T): (i: nat)
    requires x in s
    ensures i < |s| && s[i] == x && x !in s[..i]
  {
    if s[0] == x then 0 else 1 + IndexOf(s[1..], x)
  }

  /**
   * `List.remove(Object)` / `Queue.remove(Object)`: drops the first element equal to `x`,
   * or leaves the list alone when there is none.
   */
  function RemoveFirst<T(==)>(s: seq<T>, x: T): (r: seq<T>)
    ensures x !in s ==> r == s
    ensures x in s ==> |r| == |s| - 1
  {
    if s == [] then []
    else if s[0] == x then s[1..]
    else [s[0]] + RemoveFirst(s[1..], x)
  }

  /** `RemoveFirst` cuts out exactly the first occurrence of `x`. */
  lemma {:induction false} RemoveFirstSplices<T>(s: seq<T>, x: T)
    requires x in s
    ensures RemoveFirst(s, x) == s[..IndexOf(s, x)] + s[IndexOf(s, x) + 1..]
  {
    if s[0] != x {
      RemoveFirstSplices(s[1..], x);
      assert s[..IndexOf(s, x)] == [s[0]] + s[1..][..IndexOf(s[1..], x)];
    }
  }

  /** The elements of `s` that satisfy `f`, in their original order. */
  function Keep<T>(s: seq<T>, f: T -> bool): (r: seq<T>)
    ensures |r| <= |s|
    ensures forall i :: 0 <= i < |r| ==> r[i] in s && f(r[i])
    ensures forall i :: 0 <= i < |s| && f(s[i]) ==> s[i] in r
  {
    if s == [] then [] else (if f(s[0]) then [s[0]] else []) + Keep(s[1..], f)
  }

  lemma {:induction false} KeepAppend<T>(a: seq<T>, b: seq<T>, f: T -> bool)
    ensures Keep(a + b, f) == Keep(a, f) + Keep(b, f)
  {
    if a == [] {
      assert a + b == b;
    } else {
      assert (a + b)[1..] == a[1..] + b;
      KeepAppend(a[1..], b, f);
    }
  }

  /** Removing an element from a list without duplicates keeps it without duplicates, and drops exactly that element. */
  lemma {:induction false} RemoveFirstDistinct<T>(s: seq<T>, x: T)
    requires Distinct(s)
    ensures Distinct(RemoveFirst(s, x))
    ensures forall y :: y in RemoveFirst(s, x) <==> y in s && y != x
  {
    if s != [] {
      assert Distinct(s[1..]) by {
        forall i, j | 0 <= i < j < |s[1..]| ensures s[1..][i] != s[1..][j] {
          assert s[1..][i] == s[i + 1] && s[1..][j] == s[j + 1];
        }
      }
      if s[0] != x {
        RemoveFirstDistinct(s[1..], x);
        var r := RemoveFirst(s, x);
        assert r == [s[0]] + RemoveFirst(s[1..], x);
        assert s[0] !in s[1..] by {
          forall k | 0 <= k < |s[1..]| ensures s[1..][k] != s[0] {
            assert s[1..][k] == s[k + 1];
          }
        }
      } else {
        assert s[0] !in s[1..] by {
          forall k | 0 <= k < |s[1..]| ensures s[1..][k] != s[0] {
            assert s[1..][k] == s[k + 1];
          }
        }
      }
    }
  }

  /** On a list without duplicates, removing `x` is the same as keeping every element other than `x`. */
  lemma {:induction false} RemoveFirstIsKeep<T>(s: seq<T>, x: T)
    requires Distinct(s)
    ensures RemoveFirst(s, x) == Keep(s, y => y != x)
  {
    if s != [] {
      assert Distinct(s[1..]) by {
        forall i, j | 0 <= i < j < |s[1..]| ensures s[1..][i] != s[1..][j] {
          assert s[1..][i] == s[i + 1] && s[1..][j] == s[j + 1];
        }
      }
      RemoveFirstIsKeep(s[1..], x);
      if s[0] == x {
        assert x !in s[1..] by {
          forall k | 0 <= k < |s[1..]| ensures s[1..][k] != s[0] {
            assert s[1..][k] == s[k + 1];
          }
        }
        KeepAll(s[1..], y => y != x);
      }
    }
  }

  /** Keeping with a predicate every element satisfies changes nothing. */
  lemma {:induction false} KeepAll<T>(s: seq<T>, f: T -> bool)
    requires forall x :: x in s ==> f(x)
    ensures Keep(s, f) == s
  {
    if s != [] {
      KeepAll(s[1..], f);
      assert [s[0]] + s[1..] == s;
    }
  }

  /** Removing an element that first occurs right after `a` splices it out. */
  lemma {:induction false} RemoveFirstAfter<T>(a: seq<T>, x: T, b: seq<T>)
    requires x !in a
    ensures RemoveFirst(a + [x] + b, x) == a + b
  {
    if a != [] {
      assert (a + [x] + b)[1..] == a[1..] + [x] + b;
      RemoveFirstAfter(a[1..], x, b);
      assert [a[0]] + (a[1..] + b) == a + b;
    }
  }

  /** Keeping some elements of a list without duplicates gives a list without duplicates. */
  lemma {:induction false} KeepDistinct<T>(s: seq<T>, f: T -> bool)
    requires Distinct(s)
    ensures Distinct(Keep(s, f))
  {
    if s != [] {
      var rest := s[1..];
      assert Distinct(rest) by {
        forall i, j | 0 <= i < j < |rest| ensures rest[i] != rest[j] {
          assert rest[i] == s[i + 1] && rest[j] == s[j + 1];
        }
      }
      KeepDistinct(rest, f);
      assert s[0] !in rest by {
        forall k | 0 <= k < |rest| ensures rest[k] != s[0] {
          assert rest[k] == s[k + 1];
        }
      }
    }
  }

  /** Two lists without duplicates and without common elements concatenate to one without duplicates. */
  lemma DistinctAppend<T>(a: seq<T>, b: seq<T>)
    requires Distinct(a) && Distinct(b)
    requires forall i, k :: 0 <= i < |a| && 0 <= k < |b| ==> a[i] != b[k]
    ensures Distinct(a + b)
  {
    forall i, j | 0 <= i < j < |a + b| ensures (a + b)[i] != (a + b)[j] {
      if j >= |a| && i < |a| {
        assert (a + b)[j] == b[j - |a|] && (a + b)[i] == a[i];
      }
    }
  }

  /** A property every element has is kept by every element that `Keep` keeps. */
  lemma {:induction false} KeepPreserves<T>(s: seq<T>, f: T -> bool, p: T -> bool)
    requires forall i :: 0 <= i < |s| ==> p(s[i])
    ensures forall i :: 0 <= i < |Keep(s, f)| ==> p(Keep(s, f)[i])
  {
    if s != [] {
      KeepPreserves(s[1..], f, p);
    }
  }

  /** In a list without duplicates, an element is not among what `Keep` keeps of the elements before it. */
  lemma KeepBeforeExcludes<T>(s: seq<T>, i: nat, f: T -> bool)
    requires Distinct(s) && i < |s|
    ensures s[i] !in Keep(s[..i], f)
  {
    assert s[i] !in s[..i] by {
      forall k | 0 <= k < i ensures s[..i][k] != s[i] {
        assert s[..i][k] == s[k];
      }
    }
  }

  /** The two halves of a list without repetitions share no element. */
  lemma DistinctApart<T>(a: seq<T>, b: seq<T>)
    requires Distinct(a + b)
    ensures forall k :: 0 <= k < |b| ==> b[k] !in a
  {
    forall k | 0 <= k < |b| ensures b[k] !in a {
      forall i | 0 <= i < |a| ensures a[i] != b[k] {
        assert a[i] == (a + b)[i] && b[k] == (a + b)[|a| + k];
      }
    }
  }

  /** Dropping a prefix of the second half keeps a list free of repetitions. */
  lemma DistinctDrop<T>(a: seq<T>, b: seq<T>, k: nat)
    requires Distinct(a + b) && k <= |b|
    ensures Distinct(a + b[k..])
  {
    var s := a + b;
    assert a + b[k..] == s[..|a|] + s[|a| + k..] by {
      assert a == s[..|a|] && b[k..] == s[|a| + k..];
    }
    DistinctSplice(s, |a|, |a| + k);
  }

  /** Cutting a slice out of a list without duplicates leaves a list without duplicates. */
  lemma DistinctSplice<T>(s: seq<T>, i: nat, j: nat)
    requires Distinct(s) && i <= j <= |s|
    ensures Distinct(s[..i] + s[j..])
  {
    var r := s[..i] + s[j..];
    forall a, b | 0 <= a < b < |r| ensures r[a] != r[b] {
      var a' := if a < i then a else a - i + j;
      var b' := if b < i then b else b - i + j;
      assert r[a] == s[a'] && r[b] == s[b'];
    }
  }

  /**
   * Walking a list without duplicates: once the elements before `i` have been filtered, handling
   * `s[i]` either keeps it or removes its first occurrence.
   */
  lemma KeepStep<T>(s: seq<T>, i: nat, f: T -> bool)
    requires Distinct(s) && i < |s|
    ensures var before := Keep(s[..i], f) + s[i..];
      Keep(s[..i + 1], f) + s[i + 1..] == if f(s[i]) then before else RemoveFirst(before, s[i])
  {
    var x, kept, rest := s[i], Keep(s[..i], f), s[i + 1..];
    assert Keep(s[..i], f) + s[i..] == kept + [x] + rest by {
      assert s[i..] == [x] + rest;
    }
    assert Keep(s[..i + 1], f) == kept + (if f(x) then [x] else []) by {
      assert s[..i + 1] == s[..i] + [x];
      KeepAppend(s[..i], [x], f);
      assert [x][1..] == [];
    }
    if !f(x) {
      KeepBeforeExcludes(s, i, f);
      RemoveFirstAfter(kept, x, rest);
      assert kept + [] == kept;
    } else {
      assert kept + [x] + rest == (kept + [x]) + rest;
    }
  }

  /** Concatenation is associative. */
  lemma AppendAssoc<T>(a: seq<T>, b: seq<T>, c: seq<T>)
    ensures a + b + c == a + (b + c)
  {
  }
}
