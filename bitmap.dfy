/**
 * Bitmaps of lab5fs: one bit per block or per inode number, a set bit meaning
 * "in use". The kernel's find_first_zero_bit is given here by its meaning, and
 * CountClear is the number of free resources a bitmap records.
 */
module Bitmap {
  /** find_first_zero_bit(map, size): the lowest clear bit below size, or size if there is none. */
  function FirstZeroBit(bits: seq<bool>, size: nat): (r: nat)
    requires size <= |bits|
    ensures r <= size
    ensures r < size ==> !bits[r]
    ensures forall j :: 0 <= j < r ==> bits[j]
  {
    FirstZeroBitFrom(bits, 0, size)
  }

  /** The lowest clear bit in [from, size), or size. */
  function FirstZeroBitFrom(bits: seq<bool>, from: nat, size: nat): (r: nat)
    requires from <= size <= |bits|
    ensures from <= r <= size
    ensures r < size ==> !bits[r]
    ensures forall j :: from <= j < r ==> bits[j]
    decreases size - from
  {
    if from == size then size
    else if !bits[from] then from
    else FirstZeroBitFrom(bits, from + 1, size)
  }

  /** The number of clear bits, i.e. of free resources. */
  function CountClear(bits: seq<bool>): (c: nat)
    ensures c <= |bits|
  {
    if |bits| == 0 then 0
    else (if bits[0] then 0 else 1) + CountClear(bits[1..])
  }

  /** Writing bit i changes the free count by the difference of the old and new bit. */
  lemma {:induction false} CountClearUpdate(bits: seq<bool>, i: nat, v: bool)
    requires i < |bits|
    ensures CountClear(bits[i := v]) + (if bits[i] then 0 else 1)
         == CountClear(bits) + (if v then 0 else 1)
  {
    if i == 0 {
      assert bits[i := v][1..] == bits[1..];
    } else {
      assert bits[i := v][1..] == bits[1..][i - 1 := v];
      CountClearUpdate(bits[1..], i - 1, v);
    }
  }

  /** A bitmap records no free resource exactly when every bit is set. */
  lemma {:induction false} CountClearZero(bits: seq<bool>)
    ensures CountClear(bits) == 0 <==> forall j :: 0 <= j < |bits| ==> bits[j]
  {
    if |bits| > 0 {
      CountClearZero(bits[1..]);
      assert forall j :: 1 <= j < |bits| ==> bits[j] == bits[1..][j - 1];
    }
  }
}
