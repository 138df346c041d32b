/** Datatypes shared by every part of the model. */
module Base {

  /** A content address. The program writes one as 64 lowercase hexadecimal
      digits; two such strings compare exactly as the numbers they spell, so an
      id is that number and `<` is the program's id order. */
  type Id = int

  datatype Option<+T> = None | Some(value: T)

  datatype Result<+T, +E> = Ok(value: T) | Err(error: E)

  /** Some element of a nonempty set; which one is left open. */
  ghost function Pick<T>(s: set<T>): (x: T)
    requires s != {}
    ensures x in s
  {
    var x :| x in s; x
  }

  method TakeAny<T>(s: set<T>) returns (x: T)
    requires s != {}
    ensures x in s
  {
    x :| x in s;
  }

  function Elements<T>(s: seq<T>): set<T> {
    set x | x in s
  }

  lemma SameKeys<T>(a: set<T>, b: set<T>)
    requires forall x :: x in a <==> x in b
    ensures a == b
  {
  }

  lemma SubsetIsSmaller<T>(a: set<T>, b: set<T>)
    requires a <= b
    ensures |a| <= |b|
  {
    assert b == a + (b - a);
  }

  lemma SubsetOfSameSize<T>(a: set<T>, b: set<T>)
    requires a <= b && |a| == |b|
    ensures a == b
  {
    if a != b {
      var extra :| extra in b && extra !in a;
      SubsetIsSmaller(a, b - {extra});
    }
  }

  /** Moving one element out of what is left shrinks it. */
  lemma OneLessLeft<T>(all: set<T>, done: set<T>, x: T)
    requires x in all && x !in done
    ensures |all - (done + {x})| + 1 == |all - done|
  {
    assert all - done == (all - (done + {x})) + {x};
  }

  lemma SomethingLeft<T>(done: set<T>, all: set<T>)
    requires done <= all && done != all
    ensures all - done != {}
  {
    var x :| x in all && x !in done;
    assert x in all - done;
  }

  lemma KeysOfUpdate<K, V>(m: map<K, V>, k: K, v: V)
    ensures m[k := v].Keys == m.Keys + {k}
  {
  }

  lemma SomeKey<K, V>(m: map<K, V>) returns (k: K)
    requires m != map[]
    ensures k in m
  {
    k :| k in m;
  }

  ghost function SumOver<T>(s: set<T>, weight: T -> nat): nat {
    if s == {} then 0 else
      var x := Pick(s);
      weight(x) + SumOver(s - {x}, weight)
  }

  lemma {:induction false} SumRemove<T>(s: set<T>, weight: T -> nat, y: T)
    requires y in s
    ensures SumOver(s, weight) == weight(y) + SumOver(s - {y}, weight)
    decreases |s|
  {
    var x := Pick(s);
    if x != y {
      SumRemove(s - {x}, weight, y);
      SumRemove(s - {y}, weight, x);
      assert s - {x} - {y} == s - {y} - {x};
    }
  }

  lemma SumInsert<T>(s: set<T>, weight: T -> nat, y: T)
    requires y !in s
    ensures SumOver(s + {y}, weight) == SumOver(s, weight) + weight(y)
  {
    SumRemove(s + {y}, weight, y);
    assert s + {y} - {y} == s;
  }
}
