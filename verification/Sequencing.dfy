/** Unwrapping the 16-bit superframe number into a 64-bit delivery order. */
module Sequencing {
  import opened Wire

  datatype Unwrapper = Unwrapper(firstTime: bool, oldNo: u16, recalc: u64)

  const START := Unwrapper(true, 0, 0)

  /** Reinterprets 16 bits as signed. */
  function Signed16(a: u16): int {
    if a < 0x8000 then a else a - TWO16
  }

  /** Narrows an integer to 16 signed bits. */
  function Narrow16(d: int): (r: int)
    ensures -0x8000 <= r < 0x8000
  {
    (d + 0x8000) % TWO16 - 0x8000
  }

  /** One call of the recalculator; the value returned is the new `recalc`. */
  function Unwrap(u: Unwrapper, no: u16): Unwrapper {
    if u.firstTime then Unwrapper(false, no, no)
    else Unwrapper(false, no, Add64(u.recalc, Narrow16(Signed16(no) - Signed16(u.oldNo))))
  }

  /** The low 16 bits of the unwrapped value are the last number seen. */
  predicate Consistent(u: Unwrapper) {
    u.recalc % TWO16 == u.oldNo
  }

  lemma UnwrapConsistent(u: Unwrapper, no: u16)
    requires Consistent(u)
    ensures Consistent(Unwrap(u, no)) && Unwrap(u, no).oldNo == no
  {
    if !u.firstTime {
      NarrowOfDifference(u.recalc, no);
      var m := (no - u.recalc + 0x8000) / TWO16;
      var sum := u.recalc + Narrow16(no - u.recalc);
      Shifted(no, -m);
      assert sum == no + TWO16 * -m;
      LowBits(sum);
    }
  }

  lemma Shifted(a: int, m: int)
    ensures (a + TWO16 * m) % TWO16 == a % TWO16
  {
    assert a + TWO16 * m == TWO16 * (a / TWO16 + m) + a % TWO16;
  }

  lemma AddToLowBits(a: int, k: int)
    ensures (a % TWO16 + k) % TWO16 == (a + k) % TWO16
  {
    Shifted(a % TWO16 + k, a / TWO16);
    assert a % TWO16 + k + TWO16 * (a / TWO16) == a + k;
  }

  lemma NextResidue(a: int)
    ensures Next64(a % TWO64) == (a + 1) % TWO64
  {
    assert a + 1 == TWO64 * (a / TWO64) + (a % TWO64 + 1);
    if a % TWO64 == TWO64 - 1 {
      assert a + 1 == TWO64 * (a / TWO64 + 1);
    }
  }

  lemma LowBits(a: int)
    ensures a % TWO64 % TWO16 == a % TWO16
  {
    assert a == TWO64 * (a / TWO64) + a % TWO64;
  }

  /** Narrowing the difference of two 16-bit numbers gives the same as narrowing the difference
      of any two numbers with those low 16 bits. */
  lemma NarrowOfDifference(last: nat, t: nat)
    ensures Narrow16(Signed16(t % TWO16) - Signed16(last % TWO16)) == Narrow16(t - last)
  {
    var d := Signed16(t % TWO16) - Signed16(last % TWO16);
    var m := (d - (t - last)) / TWO16;
    assert d == t - last + TWO16 * m;
  }

  /** All values returned for a run of inputs. */
  function UnwrapAll(u: Unwrapper, nos: seq<u16>): (orders: seq<u64>)
    ensures |orders| == |nos|
    decreases |nos|
  {
    if nos == [] then []
    else [Unwrap(u, nos[0]).recalc] + UnwrapAll(Unwrap(u, nos[0]), nos[1..])
  }

  function Low16s(trues: seq<nat>): (nos: seq<u16>)
    ensures |nos| == |trues|
  {
    seq(|trues|, i requires 0 <= i < |trues| => trues[i] % TWO16)
  }

  /** Where the true sequence number `t` lands when `first` was the first one seen. */
  function OrderOf(first: nat, t: nat): u64 {
    (t - (first - first % TWO16)) % TWO64
  }

  /** The unwrapper has last seen `last`, and `first` first. */
  predicate Tracks(u: Unwrapper, first: nat, last: nat) {
    !u.firstTime && u.oldNo == last % TWO16 && u.recalc == OrderOf(first, last)
  }

  lemma TracksFirst(first: nat)
    ensures Tracks(Unwrap(START, first % TWO16), first, first)
  {
  }

  predicate Near(last: nat, t: nat) {
    -0x8000 <= t - last < 0x8000
  }

  /** The exact reach of one step: the next true number is unwrapped correctly if and only if it is
      within [-32768, 32767] of the last one, among all numbers closer than 2^63. */
  lemma StepReach(u: Unwrapper, first: nat, last: nat, t: nat)
    requires Tracks(u, first, last) && -0x8000_0000_0000_0000 < t - last < 0x8000_0000_0000_0000
    ensures Tracks(Unwrap(u, t % TWO16), first, t) <==> Near(last, t)
  {
    var base := first - first % TWO16;
    NarrowOfDifference(last, t);
    var r := Narrow16(t - last);
    AddToResidue(last - base, r);
    assert Unwrap(u, t % TWO16).recalc == (last - base + r) % TWO64;
    SameResidue(last - base + r, t - base);
    NarrowExact(t - last);
  }

  lemma AddToResidue(a: int, d: int)
    ensures Add64(a % TWO64, d) == (a + d) % TWO64
  {
    assert a + d == TWO64 * (a / TWO64) + (a % TWO64 + d);
  }

  lemma NarrowExact(d: int)
    ensures Narrow16(d) == d <==> -0x8000 <= d < 0x8000
  {
  }

  lemma SameResidue(a: int, b: int)
    requires -TWO64 < a - b < TWO64
    ensures a % TWO64 == b % TWO64 <==> a == b
  {
  }

  /** For any true sequence whose neighbours are within reach of each other, every value returned
      is the true one shifted by one fixed offset, modulo 2^64, across any number of wraps of the
      16-bit number. */
  lemma UnwrapIsFaithful(trues: seq<nat>)
    requires |trues| > 0
    requires forall i :: 0 <= i < |trues| - 1 ==> Near(trues[i], trues[i + 1])
    ensures forall i :: 0 <= i < |trues| ==>
              UnwrapAll(START, Low16s(trues))[i] == OrderOf(trues[0], trues[i])
  {
    TracksFirst(trues[0]);
    var nos := Low16s(trues);
    assert nos[1..] == Low16s(trues[1..]);
    UnwrapFrom(Unwrap(START, nos[0]), trues[0], trues[0], trues[1..]);
    assert UnwrapAll(START, nos)[1..] == UnwrapAll(Unwrap(START, nos[0]), nos[1..]);
  }

  lemma {:induction false} UnwrapFrom(u: Unwrapper, first: nat, last: nat, trues: seq<nat>)
    requires Tracks(u, first, last)
    requires |trues| > 0 ==> Near(last, trues[0])
    requires forall i :: 0 <= i < |trues| - 1 ==> Near(trues[i], trues[i + 1])
    ensures forall i :: 0 <= i < |trues| ==>
              UnwrapAll(u, Low16s(trues))[i] == OrderOf(first, trues[i])
    decreases |trues|
  {
    if trues != [] {
      var nos := Low16s(trues);
      StepReach(u, first, last, trues[0]);
      assert nos[1..] == Low16s(trues[1..]);
      UnwrapFrom(Unwrap(u, nos[0]), first, trues[0], trues[1..]);
      assert UnwrapAll(u, nos)[1..] == UnwrapAll(Unwrap(u, nos[0]), nos[1..]);
    }
  }
}
