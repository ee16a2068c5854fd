/** `Imp::EnabledChains`: the set of blockchain types the user has enabled. */
module Chains {

  /** `ot::blockchain::Type`, an enumeration over a 32-bit unsigned integer. */
  type ChainType = x: int | 0 <= x < 0x1_0000_0000

  predicate IsInt32(x: int) {
    -0x8000_0000 <= x < 0x8000_0000
  }

  /** `static_cast<int>` of a chain type: the 32 bits read as two's complement. */
  function AsInt(t: ChainType): (x: int)
    ensures IsInt32(x)
    ensures t < 0x8000_0000 ==> x == t
  {
    if t < 0x8000_0000 then t else t - 0x1_0000_0000
  }

  /** The chain type a 32-bit `int` stands for (inverse of `AsInt`). */
  function AsChainType(x: int): (t: ChainType)
    requires IsInt32(x)
    ensures AsInt(t) == x
  {
    if x < 0 then x + 0x1_0000_0000 else x
  }

  /** The least member of a non-empty set of chain types. */
  lemma {:induction false} Minimum(s: set<ChainType>) returns (m: ChainType)
    requires s != {}
    ensures m in s
    ensures forall y :: y in s ==> m <= y
    decreases |s|
  {
    var x :| x in s;
    var others := s - {x};
    if others == {} {
      m := x;
      assert s == {x};
    } else {
      var k := Minimum(others);
      m := if x < k then x else k;
      assert s == others + {x};
    }
  }

  class EnabledChains {
    var enabled: set<ChainType>

    constructor ()
      ensures enabled == {}
    {
      enabled := {};
    }

    /** `set`: the stored set is swapped for the argument, wholesale. */
    method Set(s: set<ChainType>)
      modifies this
      ensures enabled == s
    {
      enabled := s;
    }

    /** `get`: every member once, as an `int`, in the set's ascending order. */
    method Get() returns (r: seq<int>)
      ensures |r| == |enabled|
      ensures forall i :: 0 <= i < |r| ==> IsInt32(r[i]) && AsChainType(r[i]) in enabled
      ensures forall i, j :: 0 <= i < j < |r| ==> AsChainType(r[i]) < AsChainType(r[j])
      ensures forall t :: t in enabled ==> AsInt(t) in r
    {
      var copy := enabled;
      var rest := copy;
      r := [];
      while rest != {}
        invariant rest <= copy
        invariant |r| + |rest| == |copy|
        invariant forall i :: 0 <= i < |r| ==> IsInt32(r[i]) && AsChainType(r[i]) in copy - rest
        invariant forall i, j :: 0 <= i < j < |r| ==> AsChainType(r[i]) < AsChainType(r[j])
        invariant forall i, t :: 0 <= i < |r| && t in rest ==> AsChainType(r[i]) < t
        invariant forall t :: t in copy - rest ==> AsInt(t) in r
        decreases |rest|
      {
        ghost var least := Minimum(rest);
        var m :| m in rest && forall y :: y in rest ==> m <= y;
        r := r + [AsInt(m)];
        rest := rest - {m};
      }
    }
  }
}
