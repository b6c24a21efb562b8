/** Model of util.c: the kernel's byte-fill routine, and the region-fill
    specification it shares with the console driver. */
module Util {

  /** The source's `uint32_t`, as used for byte counts. */
  newtype uint32 = x: int | 0 <= x < 0x1_0000_0000

  /** `s` with the positions `lo` up to (excluding) `hi` overwritten with `v`. */
  function Filled<T>(s: seq<T>, lo: nat, hi: nat, v: T): (r: seq<T>)
    requires lo <= hi <= |s|
    ensures |r| == |s|
    ensures forall k :: 0 <= k < |s| ==> r[k] == if lo <= k < hi then v else s[k]
  {
    s[..lo] + seq(hi - lo, _ => v) + s[hi..]
  }

  /** An empty region leaves the sequence as it was (memset with count 0). */
  lemma FilledEmpty<T>(s: seq<T>, lo: nat, v: T)
    requires lo <= |s|
    ensures Filled(s, lo, lo, v) == s
  {
  }

  /** Filling a region a second time with the same value changes nothing more. */
  lemma FilledIdempotent<T>(s: seq<T>, lo: nat, hi: nat, v: T)
    requires lo <= hi <= |s|
    ensures Filled(Filled(s, lo, hi, v), lo, hi, v) == Filled(s, lo, hi, v)
  {
  }

  /** Writing `v` just past a filled region extends the region by one. */
  lemma FilledExtend<T>(s: seq<T>, lo: nat, hi: nat, v: T)
    requires lo <= hi < |s|
    ensures Filled(s, lo, hi, v)[hi := v] == Filled(s, lo, hi + 1, v)
  {
  }

  /** memset(dest, val, count): writes `val` into the first `count` bytes of
      `dest`, one byte at a time in increasing address order, and touches no
      other byte. `count` is the source's `uint32_t`, counted down to zero. */
  method Memset(dest: array<bv8>, val: bv8, count: uint32)
    requires count as int <= dest.Length
    modifies dest
    ensures dest[..] == Filled(old(dest[..]), 0, count as int, val)
  {
    var temp := 0;  // offset of the advancing pointer `temp` from `dest`
    var remaining := count;
    while remaining != 0
      invariant temp + remaining as int == count as int
      invariant dest[..] == Filled(old(dest[..]), 0, temp, val)
      decreases remaining
    {
      FilledExtend(old(dest[..]), 0, temp, val);
      dest[temp] := val;
      temp := temp + 1;
      remaining := remaining - 1;
    }
  }
}
