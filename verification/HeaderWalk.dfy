/** What extraction answers, from the bytes it walks over: a block is a type byte, a padding byte, its size in
    two bytes, low byte first, and as many bytes of data; the top bit of the type marks the last block. */
module HeaderWalk {
  import opened Wire
  import opened Embedded

  /** Where the block at p ends. */
  function EndOf(data: seq<byte>, p: nat): nat {
    if p + 4 <= |data| then var low: int, high: int := data[p + 2], data[p + 3]; p + 4 + low + 256 * high else p + 4
  }

  /** A block inside the buffer that is not the last one; another header follows at q. */
  predicate GoesOn(data: seq<byte>, frameSize: nat, p: nat, q: nat) {
    p + 4 <= |data| && 0 < data[p] < 128 && q == EndOf(data, p) <= |data| && q < frameSize
  }

  /** Positions of headers, each where the block before it ends. */
  predicate Walk(data: seq<byte>, frameSize: nat, ps: seq<nat>) {
    ps != [] && forall j :: 0 <= j < |ps| - 1 ==> GoesOn(data, frameSize, ps[j], ps[j + 1])
  }

  /** The header has the illegal type. */
  predicate Illegal(data: seq<byte>, p: nat) {
    p + 4 <= |data| && data[p] == 0
  }

  /** The block ends at the end of the frame or beyond: there is no room for a payload. */
  predicate NoRoom(data: seq<byte>, frameSize: nat, p: nat) {
    p + 4 <= |data| && data[p] != 0 && frameSize <= EndOf(data, p) <= |data|
  }

  /** The last block, with a payload behind it. */
  predicate Closes(data: seq<byte>, frameSize: nat, p: nat) {
    p + 4 <= |data| && data[p] >= 128 && EndOf(data, p) <= |data| && EndOf(data, p) < frameSize
  }

  /** The header or the block does not lie inside the buffer. */
  predicate Outside(data: seq<byte>, p: nat) {
    p + 4 > |data| || (data[p] != 0 && EndOf(data, p) > |data|)
  }

  function BlockAt(data: seq<byte>, p: nat): seq<byte> {
    if p + 4 <= EndOf(data, p) <= |data| then data[p + 4..EndOf(data, p)] else []
  }

  function BlocksAt(data: seq<byte>, ps: seq<nat>): seq<seq<byte>> {
    seq(|ps|, j requires 0 <= j < |ps| => BlockAt(data, ps[j]))
  }

  /** The seven bits of the type. */
  function TypesAt(data: seq<byte>, ps: seq<nat>): seq<byte> {
    seq(|ps|, j requires 0 <= j < |ps| => if ps[j] < |data| then data[ps[j]] % 128 else 0)
  }

  /** What the header at the end of a walk makes of it. */
  function Outcome(data: seq<byte>, frameSize: nat, ps: seq<nat>): Extraction
    requires ps != []
  {
    var p := ps[|ps| - 1];
    var front := ps[..|ps| - 1];
    if Outside(data, p) then Undefined
    else if Illegal(data, p) then Extracted(IllegalEmbeddedData, BlocksAt(data, front), TypesAt(data, front), p)
    else Extracted(if NoRoom(data, frameSize, p) then BufferOutOfBounds else NoError,
                   BlocksAt(data, ps), TypesAt(data, ps), EndOf(data, p))
  }

  /** The header ends the walk. */
  predicate Ends(data: seq<byte>, frameSize: nat, p: nat) {
    Outside(data, p) || Illegal(data, p) || NoRoom(data, frameSize, p) || Closes(data, frameSize, p)
  }

  lemma TurnAt(data: seq<byte>, frameSize: nat, p: nat)
    ensures GoesOn(data, frameSize, p, EndOf(data, p)) ==>
              Extract(data, frameSize, p) ==
                Onto(BlocksAt(data, [p]), TypesAt(data, [p]), Extract(data, frameSize, EndOf(data, p)))
    ensures Ends(data, frameSize, p) ==> Extract(data, frameSize, p) == Outcome(data, frameSize, [p])
    ensures Ends(data, frameSize, p) <==> !GoesOn(data, frameSize, p, EndOf(data, p))
  {
    assert [p][..0] == [];
    if p + 4 <= |data| && EndOf(data, p) <= |data| {
      assert BlocksAt(data, [p]) == [BlockAt(data, p)] && TypesAt(data, [p]) == [BareType(data[p])];
    }
  }

  lemma OutcomeOnto(data: seq<byte>, frameSize: nat, ps: seq<nat>)
    requires |ps| > 1
    ensures Outcome(data, frameSize, ps) ==
            Onto(BlocksAt(data, [ps[0]]), TypesAt(data, [ps[0]]), Outcome(data, frameSize, ps[1..]))
  {
    assert BlocksAt(data, ps) == BlocksAt(data, [ps[0]]) + BlocksAt(data, ps[1..]);
    assert TypesAt(data, ps) == TypesAt(data, [ps[0]]) + TypesAt(data, ps[1..]);
    var front := ps[..|ps| - 1];
    assert front[1..] == ps[1..][..|ps[1..]| - 1];
    assert BlocksAt(data, front) == BlocksAt(data, [ps[0]]) + BlocksAt(data, front[1..]);
    assert TypesAt(data, front) == TypesAt(data, [ps[0]]) + TypesAt(data, front[1..]);
  }

  lemma {:induction false} ExtractAlong(data: seq<byte>, frameSize: nat, ps: seq<nat>)
    requires Walk(data, frameSize, ps) && Ends(data, frameSize, ps[|ps| - 1])
    ensures Extract(data, frameSize, ps[0]) == Outcome(data, frameSize, ps)
    decreases |ps|
  {
    TurnAt(data, frameSize, ps[0]);
    if |ps| == 1 {
      assert ps == [ps[0]];
    } else {
      assert GoesOn(data, frameSize, ps[0], ps[1]);
      TailWalks(data, frameSize, ps);
      ExtractAlong(data, frameSize, ps[1..]);
      OutcomeOnto(data, frameSize, ps);
    }
  }

  lemma TailWalks(data: seq<byte>, frameSize: nat, ps: seq<nat>)
    requires |ps| > 1 && Walk(data, frameSize, ps)
    ensures Walk(data, frameSize, ps[1..]) && ps[1..][|ps| - 2] == ps[|ps| - 1]
  {
    forall j | 0 <= j < |ps| - 2 ensures GoesOn(data, frameSize, ps[1..][j], ps[1..][j + 1]) {
      assert GoesOn(data, frameSize, ps[j + 1], ps[j + 2]);
    }
  }

  lemma {:induction false} WalkFrom(data: seq<byte>, frameSize: nat, start: nat) returns (ps: seq<nat>)
    ensures Walk(data, frameSize, ps) && ps[0] == start && Ends(data, frameSize, ps[|ps| - 1])
    decreases |data| - start
  {
    TurnAt(data, frameSize, start);
    if Ends(data, frameSize, start) {
      ps := [start];
    } else {
      var rest := WalkFrom(data, frameSize, EndOf(data, start));
      ps := [start] + rest;
      forall j | 0 <= j < |ps| - 1 ensures GoesOn(data, frameSize, ps[j], ps[j + 1]) {
        if j > 0 {
          assert GoesOn(data, frameSize, rest[j - 1], rest[j]);
        }
      }
    }
  }

  /** A walk from `start` that ends at a header of the given kind. */
  ghost predicate Reaches(data: seq<byte>, frameSize: nat, start: nat, ps: seq<nat>) {
    Walk(data, frameSize, ps) && ps[0] == start
  }

  /** Which answer extraction gives, for any bytes: the walk from header to header decides it, by the first
      header at which it cannot go on. */
  lemma ExtractIff(data: seq<byte>, frameSize: nat, start: nat)
    ensures var e := Extract(data, frameSize, start);
            && (e.Undefined? <==> exists ps :: Reaches(data, frameSize, start, ps) && Outside(data, ps[|ps| - 1]))
            && (e.Extracted? && e.msg == IllegalEmbeddedData <==>
                 exists ps :: Reaches(data, frameSize, start, ps) && Illegal(data, ps[|ps| - 1]))
            && (e.Extracted? && e.msg == BufferOutOfBounds <==>
                 exists ps :: Reaches(data, frameSize, start, ps) && NoRoom(data, frameSize, ps[|ps| - 1]))
            && (e.Extracted? && e.msg == NoError <==>
                 exists ps :: Reaches(data, frameSize, start, ps) && Closes(data, frameSize, ps[|ps| - 1]))
  {
    var found := WalkFrom(data, frameSize, start);
    assert Reaches(data, frameSize, start, found);
    forall ps | Reaches(data, frameSize, start, ps) && Ends(data, frameSize, ps[|ps| - 1])
      ensures Extract(data, frameSize, start) == Outcome(data, frameSize, ps)
    {
      ExtractAlong(data, frameSize, ps);
    }
  }

  /** What the C callbacks get, for any superframe. With an embedded-data callback, flag bit 16 set and the
      superframe intact, it is the blocks of the walk and the payload behind them if the walk closes, and
      nothing otherwise; without any of the three it is the whole frame. */
  lemma HostGets(data: seq<byte>, frameSize: nat, flags: byte, broken: bool, wantsEmbedded: bool)
      returns (ps: seq<nat>)
    requires frameSize <= |data|
    requires wantsEmbedded && flags / 16 % 2 == 1 && !broken ==> Extract(data, frameSize, 0).Extracted?
    ensures Reaches(data, frameSize, 0, ps) && Ends(data, frameSize, ps[|ps| - 1])
    ensures var calls := GotData(data, frameSize, flags, broken, wantsEmbedded);
            var end := EndOf(data, ps[|ps| - 1]);
            if !wantsEmbedded || flags / 16 % 2 == 0 || broken then calls == HostCalls([], [], Some(data[..frameSize]))
            else if Closes(data, frameSize, ps[|ps| - 1]) then
              calls == HostCalls(BlocksAt(data, ps), TypesAt(data, ps), Some(data[end..frameSize]))
            else calls == HostCalls([], [], None)
  {
    ps := WalkFrom(data, frameSize, 0);
    ExtractAlong(data, frameSize, ps);
  }
}
