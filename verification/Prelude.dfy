/** Small datatypes and arithmetic shared by every part of the model. */
module Prelude {

  datatype Option<+T> = None | Some(value: T)

  datatype Result<+T, +E> = Ok(value: T) | Err(error: E)

  function Min(a: int, b: int): int {
    if a <= b then a else b
  }

  function Max(a: int, b: int): int {
    if a <= b then b else a
  }

  function Map<T, U>(f: T -> U, s: seq<T>): (t: seq<U>)
    ensures |t| == |s|
    ensures forall i :: 0 <= i < |s| ==> t[i] == f(s[i])
  {
    seq(|s|, i requires 0 <= i < |s| => f(s[i]))
  }

  lemma Assoc<T>(a: seq<T>, b: seq<T>, c: seq<T>)
    ensures (a + b) + c == a + (b + c)
  {
  }

  lemma PrefixOfPrefix<T>(a: seq<T>, b: seq<T>, c: seq<T>)
    requires a <= b <= c
    ensures a <= c
  {
  }

  lemma {:induction false} PrefixThroughout<T>(s: seq<seq<T>>, i: nat, j: nat)
    requires i <= j < |s| && forall k :: i <= k < j ==> s[k] <= s[k + 1]
    ensures s[i] <= s[j]
  {
    if i < j {
      PrefixThroughout(s, i, j - 1);
      assert s[j - 1] <= s[(j - 1) + 1];
    }
  }
}
