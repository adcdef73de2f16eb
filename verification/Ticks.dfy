/** Packed per-user storage of the AMM: two tick numbers in one word, and band shares two per word. */
module Ticks {
  import opened Numbers

  const MAX_TICKS: nat := 50
  const Q127: int := 0x8000_0000_0000_0000_0000_0000_0000_0000
  const Q128: int := 0x1_0000_0000_0000_0000_0000_0000_0000_0000
  const Q255: int := Q127 * Q128

  /** The words of the `ticks` array of one user. */
  type Slots = s: seq<nat> | |s| == 25 witness Zeros(25)

  function Zeros(k: nat): (s: seq<nat>)
    ensures |s| == k && forall i :: 0 <= i < k ==> s[i] == 0
  {
    if k == 0 then [] else Zeros(k - 1) + [0]
  }

  datatype UserTicks = UserTicks(ns: int, slots: Slots)

  /** A storage entry that was never written. */
  const EMPTY_TICKS := UserTicks(0, Zeros(25))

  function PackNumbers(n1: int, n2: int): int {
    n1 + n2 * Q128
  }

  function UnpackNumbers(ns: int): (int, int) {
    var n2 := TDiv(ns, Q128);
    var n1 := TMod(ns, Q128);
    if n1 >= Q127 then (n1 - Q128, n2 + 1) else (n1, n2)
  }

  /** Which tick numbers survive packing: all pairs but a positive lower with a negative upper. */
  lemma UnpackOfPack(n1: int, n2: int)
    requires -Q127 < n1 < Q127 && -Q127 < n2 < Q127
    ensures -Q255 <= PackNumbers(n1, n2) < Q255
    ensures UnpackNumbers(PackNumbers(n1, n2)) == (n1, n2) <==> !(n1 > 0 && n2 < 0)
  {
    var ns := PackNumbers(n1, n2);
    if ns >= 0 {
      if n1 >= 0 {
        assert ns / Q128 == n2 && ns % Q128 == n1;
      } else {
        assert ns / Q128 == n2 - 1 && ns % Q128 == n1 + Q128;
      }
    } else {
      var p := -ns;
      if n1 > 0 {
        assert p / Q128 == -n2 - 1 && p % Q128 == Q128 - n1;
      } else {
        assert p / Q128 == -n2 && p % Q128 == -n1;
      }
    }
  }

  /** One packed word: share 2j in the low half and, when there is one, share 2j+1 in the high half. */
  function PackPair(shares: seq<nat>, j: nat): nat
    requires 2 * j < |shares|
  {
    shares[2 * j] + (if 2 * j + 1 < |shares| then shares[2 * j + 1] * Q128 else 0)
  }

  function SaveShares(slots: Slots, shares: seq<nat>): (r: Slots)
    requires |shares| <= MAX_TICKS
  {
    seq(25, j requires 0 <= j < 25 => if 2 * j < |shares| then PackPair(shares, j) else slots[j])
  }

  function ReadShare(slots: Slots, i: nat): nat
    requires i < MAX_TICKS
  {
    if i % 2 == 0 then slots[i / 2] % Q128 else slots[i / 2] / Q128
  }

  function ReadShares(slots: Slots, size: nat): seq<nat>
    requires size <= MAX_TICKS
  {
    seq(size, i requires 0 <= i < size => ReadShare(slots, i))
  }

  ghost predicate Fits(shares: seq<nat>) {
    forall i :: 0 <= i < |shares| ==> shares[i] < Q128
  }

  /** Reading back what was saved gives the shares, whatever an earlier, longer deposit left in the slots. */
  lemma ReadOfSave(slots: Slots, shares: seq<nat>)
    requires |shares| <= MAX_TICKS && Fits(shares)
    ensures ReadShares(SaveShares(slots, shares), |shares|) == shares
  {
    var saved := SaveShares(slots, shares);
    forall i | 0 <= i < |shares| ensures ReadShare(saved, i) == shares[i] {
      var j := i / 2;
      assert saved[j] == PackPair(shares, j);
    }
  }

  /** The flag `ticks[0] != 0`, by which the AMM tells who has liquidity, looks at the first two shares. */
  lemma LiveAfterSave(slots: Slots, shares: seq<nat>)
    requires 1 <= |shares| <= MAX_TICKS
    ensures SaveShares(slots, shares)[0] != 0 <==> shares[0] != 0 || (|shares| > 1 && shares[1] != 0)
  {
    assert SaveShares(slots, shares)[0] == PackPair(shares, 0);
  }

  /** `save_user_shares`: a pointer runs over the shares two at a time. */
  method SaveUserShares(slots: Slots, shares: seq<nat>) returns (r: Slots)
    requires |shares| <= MAX_TICKS
    ensures r == SaveShares(slots, shares)
  {
    r := slots;
    var ptr := 0;
    var j := 0;
    while j < 25 && ptr < |shares|
      invariant 0 <= j <= 25 && ptr == 2 * j
      invariant forall k :: 0 <= k < 25 ==>
        r[k] == if k < j && 2 * k < |shares| then PackPair(shares, k) else slots[k]
    {
      var tick := shares[ptr];
      ptr := ptr + 1;
      if |shares| != ptr {
        tick := tick + shares[ptr] * Q128;
      }
      ptr := ptr + 1;
      r := r[j := tick];
      j := j + 1;
    }
  }

  /** `_read_user_ticks`: both halves of each word, until `size` shares have been read. */
  method ReadUserTicks(slots: Slots, size: nat) returns (ticks: seq<nat>)
    requires size <= MAX_TICKS
    ensures ticks == ReadShares(slots, size)
  {
    ticks := [];
    var i := 0;
    while i < 25 && |ticks| != size
      invariant 0 <= i <= 25 && |ticks| == Min(2 * i, size)
      invariant forall k :: 0 <= k < |ticks| ==> ticks[k] == ReadShare(slots, k)
    {
      var tick := slots[i];
      ticks := ticks + [tick % Q128];
      if |ticks| == size {
        break;
      }
      ticks := ticks + [tick / Q128];
      i := i + 1;
    }
  }
}
