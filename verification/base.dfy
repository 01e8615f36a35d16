/** Shared result types: Java's `null` becomes `None`, a thrown exception becomes `Err`. */
module Base {

  datatype Option<T> = None | Some(value: T)

  /** The runtime exceptions the modelled Java code can throw on its own inputs. */
  datatype Failure =
    | NumberFormat(input: string)       // Integer.parseInt on a non-number
    | IllegalArgument(input: string)    // Code.comp on an unknown mnemonic
    | IndexOutOfBounds(begin: int, end: int)  // String.substring with begin > end

  datatype Result<T> = Ok(value: T) | Err(failure: Failure)

  /** No element occurs twice. */
  predicate NoDup<T(==)>(s: seq<T>) {
    forall i, j :: 0 <= i < j < |s| ==> s[i] != s[j]
  }

  /** Number of positions holding `x`. */
  function Count<T(==)>(s: seq<T>, x: T): (n: nat)
    ensures n <= |s|
    ensures n == 0 <==> x !in s
  {
    if s == [] then 0 else (if s[0] == x then 1 else 0) + Count(s[1..], x)
  }

  lemma {:induction false} CountAppend<T>(a: seq<T>, b: seq<T>, x: T)
    ensures Count(a + b, x) == Count(a, x) + Count(b, x)
  {
    if a == [] {
      assert a + b == b;
    } else {
      assert (a + b)[1..] == a[1..] + b;
      CountAppend(a[1..], b, x);
    }
  }

  /** Two duplicate-free sequences with no common element concatenate without duplicates. */
  lemma NoDupAppend<T>(a: seq<T>, b: seq<T>)
    requires NoDup(a) && NoDup(b)
    requires forall x :: x in a ==> x !in b
    ensures NoDup(a + b)
  {
    forall i, j | 0 <= i < j < |a + b|
      ensures (a + b)[i] != (a + b)[j]
    {
      if j >= |a| && i < |a| {
        assert (a + b)[i] in a && (a + b)[j] == b[j - |a|];
      }
    }
  }
}
