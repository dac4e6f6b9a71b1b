/** Reading the online states of peers from a bitmap (`query_online_states_` in
    src/client.rs): bit 7 of byte 0 is the first peer. */
module OnlineStates {
  import opened Common

  /** `b` shifted right by `n` bits. */
  function ShiftRight(b: nat, n: nat): nat
    decreases n
  {
    if n == 0 then b else ShiftRight(b / 2, n - 1)
  }

  /** Bit `7 - i % 8` of byte `i / 8` is set. */
  predicate BitAt(states: seq<byte>, i: nat)
    requires i < 8 * |states|
  {
    ShiftRight(states[i / 8], 7 - i % 8) % 2 == 1
  }

  /** The elements of `ids` whose flag is `wanted`, in order. */
  function Pick<T>(ids: seq<T>, flags: seq<bool>, wanted: bool): seq<T>
    requires |ids| == |flags|
  {
    if ids == [] then []
    else
      Pick(ids[..|ids| - 1], flags[..|ids| - 1], wanted)
      + if flags[|ids| - 1] == wanted then [ids[|ids| - 1]] else []
  }

  function Flags(states: seq<byte>, n: nat): (r: seq<bool>)
    requires n <= 8 * |states|
    ensures |r| == n && forall i :: 0 <= i < n ==> r[i] == BitAt(states, i)
  {
    seq(n, i requires 0 <= i < n => BitAt(states, i))
  }

  /** The loop; too few bytes make the original fail on an index. */
  method SplitByState<T>(ids: seq<T>, states: seq<byte>) returns (onlines: seq<T>, offlines: seq<T>)
    requires |ids| <= 8 * |states|
    ensures onlines == Pick(ids, Flags(states, |ids|), true)
    ensures offlines == Pick(ids, Flags(states, |ids|), false)
    ensures multiset(onlines) + multiset(offlines) == multiset(ids)
  {
    onlines, offlines := [], [];
    ghost var flags := Flags(states, |ids|);
    for i := 0 to |ids|
      invariant onlines == Pick(ids[..i], flags[..i], true)
      invariant offlines == Pick(ids[..i], flags[..i], false)
    {
      assert ids[..i + 1][..i] == ids[..i] && flags[..i + 1][..i] == flags[..i];
      if BitAt(states, i) {
        onlines := onlines + [ids[i]];
      } else {
        offlines := offlines + [ids[i]];
      }
    }
    assert ids[..|ids|] == ids && flags[..|ids|] == flags;
    PickPartition(ids, flags, true);
  }

  lemma PickStep<T>(ids: seq<T>, flags: seq<bool>, wanted: bool)
    requires |ids| == |flags| && ids != []
    ensures var last := |ids| - 1;
            var before := Pick(ids[..last], flags[..last], wanted);
            Pick(ids, flags, wanted) == if flags[last] == wanted then before + [ids[last]] else before
  {}

  lemma LastApart<T>(s: seq<T>)
    requires s != []
    ensures s == s[..|s| - 1] + [s[|s| - 1]]
  {}

  /** `a` and `b` together are a permutation of `s`. */
  ghost predicate Splits<T>(a: seq<T>, b: seq<T>, s: seq<T>) {
    multiset(a) + multiset(b) == multiset(s)
  }

  lemma OneMore<T>(a: seq<T>, b: seq<T>, s: seq<T>, x: T)
    requires Splits(a, b, s)
    ensures Splits(a + [x], b, s + [x]) && Splits(b, a + [x], s + [x])
  {
    assert multiset(a + [x]) == multiset(a) + multiset{x};
    assert multiset(s + [x]) == multiset(s) + multiset{x};
  }

  /** Nothing is lost, doubled or made up. */
  lemma {:induction false} PickPartition<T>(ids: seq<T>, flags: seq<bool>, wanted: bool)
    requires |ids| == |flags|
    ensures Splits(Pick(ids, flags, wanted), Pick(ids, flags, !wanted), ids)
  {
    if ids != [] {
      var last := |ids| - 1;
      var f := flags[last];
      PickPartition(ids[..last], flags[..last], f);
      PickStep(ids, flags, f);
      PickStep(ids, flags, !f);
      LastApart(ids);
      OneMore(Pick(ids[..last], flags[..last], f), Pick(ids[..last], flags[..last], !f), ids[..last], ids[last]);
    }
  }

  /** The order of `ids` is kept: picking walks through increasing positions. */
  lemma {:induction false} PickInOrder<T>(ids: seq<T>, flags: seq<bool>, wanted: bool) returns (at: seq<nat>)
    requires |ids| == |flags|
    ensures |at| == |Pick(ids, flags, wanted)|
    ensures forall k :: 0 <= k < |at| ==>
              at[k] < |ids| && flags[at[k]] == wanted && Pick(ids, flags, wanted)[k] == ids[at[k]]
    ensures forall k, l :: 0 <= k < l < |at| ==> at[k] < at[l]
  {
    if ids == [] {
      return [];
    }
    var last := |ids| - 1;
    at := PickInOrder(ids[..last], flags[..last], wanted);
    if flags[last] == wanted {
      at := at + [last];
    }
  }

  // ----- the server's side: packing -----

  function Bit(flags: seq<bool>, i: nat): nat {
    if i < |flags| && flags[i] then 1 else 0
  }

  /** The first `n` flags as a number, the first in the highest bit; missing ones are 0. */
  function PackBits(flags: seq<bool>, n: nat): nat {
    if n == 0 then 0 else 2 * PackBits(flags, n - 1) + Bit(flags, n - 1)
  }

  lemma PackBitsBound(flags: seq<bool>)
    ensures PackBits(flags, 8) < 256
  {
    assert PackBits(flags, 1) < 2;
    assert PackBits(flags, 2) < 4;
    assert PackBits(flags, 3) < 8;
    assert PackBits(flags, 4) < 16;
    assert PackBits(flags, 5) < 32;
    assert PackBits(flags, 6) < 64;
    assert PackBits(flags, 7) < 128;
  }

  function PackByte(flags: seq<bool>): byte {
    PackBitsBound(flags);
    PackBits(flags, 8)
  }

  function Pack(flags: seq<bool>): (r: seq<byte>)
    ensures |flags| <= 8 * |r|
  {
    if |flags| == 0 then []
    else if |flags| <= 8 then [PackByte(flags)]
    else [PackByte(flags[..8])] + Pack(flags[8..])
  }

  lemma {:induction false} ShiftPacked(flags: seq<bool>, n: nat, k: nat)
    requires k <= n
    ensures ShiftRight(PackBits(flags, n), k) == PackBits(flags, n - k)
    decreases k
  {
    if k > 0 {
      assert PackBits(flags, n) / 2 == PackBits(flags, n - 1);
      ShiftPacked(flags, n - 1, k - 1);
    }
  }

  lemma UnpackByte(flags: seq<bool>, i: nat)
    requires i < 8
    ensures ShiftRight(PackByte(flags), 7 - i) % 2 == 1 <==> i < |flags| && flags[i]
  {
    ShiftPacked(flags, 8, 7 - i);
  }

  lemma NextByte(i: nat)
    requires i >= 8
    ensures i / 8 == (i - 8) / 8 + 1 && i % 8 == (i - 8) % 8
  {}

  lemma BitAtNextByte(b: byte, rest: seq<byte>, i: nat)
    requires 8 <= i < 8 * (|rest| + 1)
    ensures BitAt([b] + rest, i) == BitAt(rest, i - 8)
  {
    NextByte(i);
    assert ([b] + rest)[i / 8] == rest[(i - 8) / 8];
  }

  lemma {:induction false} UnpackPack(flags: seq<bool>, i: nat)
    requires i < |flags|
    ensures BitAt(Pack(flags), i) <==> flags[i]
    decreases |flags|
  {
    if |flags| <= 8 {
      UnpackByte(flags, i);
    } else if i < 8 {
      UnpackByte(flags[..8], i);
    } else {
      UnpackPack(flags[8..], i - 8);
      BitAtNextByte(PackByte(flags[..8]), Pack(flags[8..]), i);
    }
  }

  /** From the bitmap of any flags, for any number of peers, the loop recovers exactly the
      peers that were flagged and those that were not. */
  lemma RecoversPackedStates<T>(ids: seq<T>, flags: seq<bool>)
    requires |ids| == |flags|
    ensures Pick(ids, Flags(Pack(flags), |ids|), true) == Pick(ids, flags, true)
    ensures Pick(ids, Flags(Pack(flags), |ids|), false) == Pick(ids, flags, false)
  {
    forall i | 0 <= i < |flags| ensures Flags(Pack(flags), |ids|)[i] == flags[i] {
      UnpackPack(flags, i);
    }
    assert Flags(Pack(flags), |ids|) == flags;
  }
}
