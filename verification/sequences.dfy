/** Concatenation of a sequence of sequences, and where each part lands in
    the result. */
module Sequences {

  /** The total length of all parts. */
  function SumLengths<T>(parts: seq<seq<T>>): nat
  {
    if |parts| == 0 then 0 else |parts[0]| + SumLengths(parts[1..])
  }

  /** Where part `i` starts in the flattening: the total length of the
      parts before it. */
  function OffsetOf<T>(parts: seq<seq<T>>, i: int): nat
    requires 0 <= i <= |parts|
  {
    SumLengths(parts[..i])
  }

  /** The parts joined end to end, in order, with nothing between them. */
  function Flatten<T>(parts: seq<seq<T>>): (r: seq<T>)
    ensures |r| == SumLengths(parts)
  {
    if |parts| == 0 then [] else parts[0] + Flatten(parts[1..])
  }

  /** Appending one more part appends its elements to the flattening;
      this is what the source's repeated `AddRange` builds. */
  lemma {:induction false} LemmaFlattenSnoc<T>(parts: seq<seq<T>>, last: seq<T>)
    ensures Flatten(parts + [last]) == Flatten(parts) + last
  {
    if |parts| == 0 {
      assert parts + [last] == [last];
      assert Flatten([last]) == last + Flatten<T>([]);
    } else {
      assert (parts + [last])[1..] == parts[1..] + [last];
      LemmaFlattenSnoc(parts[1..], last);
    }
  }

  /** Part `i` occupies the slice of the flattening that starts after the
      total length of the parts before it. */
  lemma {:induction false} LemmaFlattenPlacesPart<T>(parts: seq<seq<T>>, i: int)
    requires 0 <= i < |parts|
    ensures OffsetOf(parts, i) + |parts[i]| <= |Flatten(parts)|
    ensures Flatten(parts)[OffsetOf(parts, i) .. OffsetOf(parts, i) + |parts[i]|] == parts[i]
  {
    var f := Flatten(parts);
    assert f == parts[0] + Flatten(parts[1..]);
    if i == 0 {
      assert parts[..0] == [];
    } else {
      LemmaFlattenPlacesPart(parts[1..], i - 1);
      assert parts[..i][0] == parts[0];
      assert parts[..i][1..] == parts[1..][..i - 1];
      var off := SumLengths(parts[1..][..i - 1]);
      assert SumLengths(parts[..i]) == |parts[0]| + off;
      assert f[|parts[0]| + off .. |parts[0]| + off + |parts[i]|]
          == Flatten(parts[1..])[off .. off + |parts[i]|];
    }
  }

  /** Parts of bounded length flatten to at most count times the bound. */
  lemma {:induction false} LemmaSumLengthsBound<T>(parts: seq<seq<T>>, bound: nat)
    requires forall i :: 0 <= i < |parts| ==> |parts[i]| <= bound
    ensures SumLengths(parts) <= |parts| * bound
  {
    if |parts| > 0 {
      assert forall i :: 0 <= i < |parts| - 1 ==> parts[1..][i] == parts[i + 1];
      LemmaSumLengthsBound(parts[1..], bound);
    }
  }
}
