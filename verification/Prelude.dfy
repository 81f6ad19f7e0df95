/** Types shared by every module: optional values, results, and bytes. */
module Prelude {

  datatype Option<+T> = None | Some(value: T)

  datatype Result<+T, +E> = Ok(value: T) | Err(error: E)

  type Byte = b: int | 0 <= b < 256

  type Bytes = seq<Byte>

  const NEWLINE: Byte := 0x0a

  function Min(a: int, b: int): int {
    if a <= b then a else b
  }

  function Max(a: int, b: int): int {
    if a <= b then b else a
  }

  function Reverse<T>(s: seq<T>): (r: seq<T>)
    ensures |r| == |s|
    ensures forall k :: 0 <= k < |s| ==> r[k] == s[|s| - 1 - k]
  {
    if s == [] then [] else Reverse(s[1..]) + [s[0]]
  }

  lemma {:induction false} ReverseConcat<T>(a: seq<T>, b: seq<T>)
    ensures Reverse(a + b) == Reverse(b) + Reverse(a)
  {
    var l, r := Reverse(a + b), Reverse(b) + Reverse(a);
    assert |l| == |r|;
    assert forall k :: 0 <= k < |l| ==> l[k] == r[k];
  }

  lemma {:induction false} Assoc<A>(a: seq<A>, b: seq<A>, c: seq<A>)
    ensures a + (b + c) == (a + b) + c
  {
  }

  /** Two slices that meet make one. */
  lemma {:induction false} SliceJoin<A>(s: seq<A>, i: nat, j: nat, k: nat)
    requires i <= j <= k <= |s|
    ensures s[i..j] + s[j..k] == s[i..k]
  {
  }
}
