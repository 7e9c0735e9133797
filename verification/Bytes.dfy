/** Byte strings, and how a list of pieces relates to the string it was cut from. */
module Bytes {

  type byte = x: int | 0 <= x < 256

  /** The pieces of `pieces` joined in order. */
  function Flatten<T>(pieces: seq<seq<T>>): (whole: seq<T>)
  {
    if pieces == [] then [] else pieces[0] + Flatten(pieces[1..])
  }

  lemma {:induction false} FlattenAppend<T>(left: seq<seq<T>>, right: seq<seq<T>>)
    ensures Flatten(left + right) == Flatten(left) + Flatten(right)
  {
    if left == [] {
      assert left + right == right;
    } else {
      FlattenAppend(left[1..], right);
      assert (left + right)[1..] == left[1..] + right;
      Associative(left[0], Flatten(left[1..]), Flatten(right));
    }
  }

  lemma FlattenSnoc<T>(pieces: seq<seq<T>>, last: seq<T>)
    ensures Flatten(pieces + [last]) == Flatten(pieces) + last
  {
    FlattenAppend(pieces, [last]);
    assert Flatten([last]) == last + Flatten<T>([]);
  }

  lemma Associative<T>(a: seq<T>, b: seq<T>, c: seq<T>)
    ensures (a + b) + c == a + (b + c)
  {
  }

  function Min(a: nat, b: nat): (m: nat)
  {
    if a <= b then a else b
  }

  lemma FrontIsPrefix<T>(x: seq<T>, y: seq<T>, z: seq<T>)
    requires x + y <= z
    ensures x <= z
  {
    assert z[..|x|] == (x + y)[..|x|] == x;
  }
}
