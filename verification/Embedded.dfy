/** Blocks of embedded data in front of a superframe's payload. */
module Embedded {
  import opened Wire

  /** type, padding, size in two bytes, low byte first. */
  const HEADER := 4

  const LAST: byte := 0x80
  const INLINE_PAYLOAD: byte := 0x10

  /** Setting the top bit. */
  function WithLast(t: byte): byte {
    if t < LAST then t + LAST else t
  }

  predicate HasLast(t: byte) {
    t >= LAST
  }

  /** The type without its top bit. */
  function BareType(t: byte): byte {
    t % LAST
  }

  /** The header record as bytes; the padding byte is whatever was there. */
  function HeaderBytes(t: byte, size: u16, pad: byte): (h: seq<byte>)
    ensures |h| == HEADER
  {
    [t, pad, size % 256, size / 256]
  }

  // ---------------------------------------------------------------------------------------
  // Adding

  /** Inserts one block in front of a packet. */
  function AddEmbeddedData(packet: seq<byte>, data: seq<byte>, t: byte, isLast: bool, pad: byte): (Message, seq<byte>) {
    if |data| > UINT16_MAX then (TooLargeEmbeddedData, packet)
    else (NoError, HeaderBytes(if isLast then WithLast(t) else t, |data|, pad) + (data + packet))
  }

  /** The C helper: size to reserve when there is no destination, else header, block and payload
      written there. */
  method EfpAddEmbeddedData(dst: array?<byte>, embedded: seq<byte>, data: seq<byte>, t: byte, isLast: bool, pad: byte)
    returns (size: nat)
    requires dst != null ==> dst.Length >= HEADER + |embedded| + |data|
    modifies dst
    ensures dst == null ==> size == HEADER + |embedded| + |data|
    ensures dst != null ==>
              && size == 0
              && dst[..HEADER + |embedded| + |data|] == HelperBytes(embedded, data, t, isLast, pad)
              && dst[HEADER + |embedded| + |data|..] == old(dst[HEADER + |embedded| + |data|..])
  {
    if dst == null {
      return HEADER + |embedded| + |data|;
    }
    var header := HeaderBytes(if isLast then WithLast(t) else t, Low16(|embedded|), pad);
    forall i | 0 <= i < HEADER { dst[i] := header[i]; }
    forall i | 0 <= i < |embedded| { dst[HEADER + i] := embedded[i]; }
    forall i | 0 <= i < |data| { dst[HEADER + |embedded| + i] := data[i]; }
    return 0;
  }

  /** What the C helper writes: the size is cut to 16 bits without a check. */
  function HelperBytes(embedded: seq<byte>, data: seq<byte>, t: byte, isLast: bool, pad: byte): seq<byte> {
    HeaderBytes(if isLast then WithLast(t) else t, Low16(|embedded|), pad) + (embedded + data)
  }

  /** For one block the C helper writes the bytes the C++ method builds, exactly when the latter
      accepts the block: up to 65535 bytes. For longer ones the size it writes is cut to 16 bits. */
  lemma HelperAgrees(embedded: seq<byte>, data: seq<byte>, t: byte, isLast: bool, pad: byte)
    ensures AddEmbeddedData(data, embedded, t, isLast, pad) == (NoError, HelperBytes(embedded, data, t, isLast, pad))
            <==> |embedded| <= 65535
    ensures |embedded| > 65535 ==> AddEmbeddedData(data, embedded, t, isLast, pad) == (TooLargeEmbeddedData, data)
    ensures var bytes := HelperBytes(embedded, data, t, isLast, pad);
            && bytes[4..] == embedded + data
            && bytes[0] == (if isLast && t < 128 then t + 128 else t)
            && var low: int, high: int := bytes[2], bytes[3]; low + 256 * high == |embedded| % 65536
  {
    var header := HeaderBytes(if isLast then WithLast(t) else t, Low16(|embedded|), pad);
    assert (header + (embedded + data))[4..] == embedded + data;
  }

  // ---------------------------------------------------------------------------------------
  // Extracting

  /** The result of extraction. The program does not check that a header or block lies inside the
      buffer before it reads it; where it would not, its behaviour is undefined. */
  datatype Extraction =
    | Extracted(msg: Message, blocks: seq<seq<byte>>, types: seq<byte>, position: nat)
    | Undefined

  /** The size a header at `pos` announces. */
  function SizeAt(data: seq<byte>, pos: nat): nat
    requires pos + HEADER <= |data|
  {
    var low: int, high: int := data[pos + 2], data[pos + 3];
    low + 256 * high
  }

  /** Blocks read before the rest. */
  function Onto(blocks: seq<seq<byte>>, types: seq<byte>, rest: Extraction): Extraction {
    match rest
    case Undefined => Undefined
    case Extracted(msg, bs, ts, position) => Extracted(msg, blocks + bs, types + ts, position)
  }

  lemma OntoTwice(a: seq<seq<byte>>, ta: seq<byte>, b: seq<seq<byte>>, tb: seq<byte>, rest: Extraction)
    ensures Onto(a, ta, Onto(b, tb, rest)) == Onto(a + b, ta + tb, rest)
  {
    if rest.Extracted? {
      assert a + (b + rest.blocks) == a + b + rest.blocks;
      assert ta + (tb + rest.types) == ta + tb + rest.types;
    }
  }

  function Extract(data: seq<byte>, frameSize: nat, pos: nat): Extraction
    decreases |data| - pos
  {
    if pos + HEADER > |data| then Undefined
    else
      var t := data[pos];
      var next := pos + HEADER + SizeAt(data, pos);
      if t == 0 then Extracted(IllegalEmbeddedData, [], [], pos)
      else if next > |data| then Undefined
      else
        var block := data[pos + HEADER..next];
        if next >= frameSize then Extracted(BufferOutOfBounds, [block], [BareType(t)], next)
        else if HasLast(t) then Extracted(NoError, [block], [BareType(t)], next)
        else Onto([block], [BareType(t)], Extract(data, frameSize, next))
  }

  /** The extraction loop. It ends because the position moves on by at least a header each time. */
  method ExtractEmbeddedData(data: seq<byte>, frameSize: nat, start: nat)
    returns (msg: Message, blocks: seq<seq<byte>>, types: seq<byte>, position: nat)
    requires Extract(data, frameSize, start).Extracted?
    ensures Extracted(msg, blocks, types, position) == Extract(data, frameSize, start)
  {
    position, blocks, types := start, [], [];
    var moreData := false;
    ghost var all := Extract(data, frameSize, start);
    while !moreData
      invariant all.Extracted?
      invariant !moreData ==> all == Onto(blocks, types, Extract(data, frameSize, position))
      invariant moreData ==> all == Extracted(NoError, blocks, types, position)
      decreases !moreData, |data| - position
    {
      var t := data[position];
      if t == 0 {
        return IllegalEmbeddedData, blocks, types, position;
      }
      var next := position + HEADER + SizeAt(data, position);
      var block := data[position + HEADER..next];
      OntoTwice(blocks, types, [block], [BareType(t)], Extract(data, frameSize, next));
      types := types + [BareType(t)];
      blocks := blocks + [block];
      moreData := HasLast(t);
      position := next;
      if position >= frameSize {
        return BufferOutOfBounds, blocks, types, position;
      }
    }
    msg := NoError;
  }

  // ---------------------------------------------------------------------------------------
  // Round trip

  datatype Block = Block(data: seq<byte>, t: byte, pad: byte)

  /** The packet after adding the blocks last to first, only the first-added flagged as last. */
  function Built(blocks: seq<Block>, payload: seq<byte>): seq<byte> {
    if blocks == [] then payload
    else
      AddEmbeddedData(Built(blocks[1..], payload), blocks[0].data, blocks[0].t, |blocks| == 1, blocks[0].pad).1
  }

  predicate Addable(blocks: seq<Block>) {
    forall b :: b in blocks ==> |b.data| <= UINT16_MAX
  }

  function Datas(blocks: seq<Block>): seq<seq<byte>> {
    seq(|blocks|, i requires 0 <= i < |blocks| => blocks[i].data)
  }

  function Types(blocks: seq<Block>): seq<byte> {
    seq(|blocks|, i requires 0 <= i < |blocks| => blocks[i].t)
  }

  /** Types the format can carry: seven bits, and not the illegal type except in the last block. */
  predicate Carriable(blocks: seq<Block>) {
    forall i :: 0 <= i < |blocks| ==> blocks[i].t < 128 && (i < |blocks| - 1 ==> blocks[i].t != 0)
  }

  /** What a correct extraction of the blocks in front of a payload returns. */
  function Faithful(blocks: seq<Block>, end: nat): Extraction {
    Extracted(NoError, Datas(blocks), Types(blocks), end)
  }

  /** The extraction is the correct one if and only if the types can be carried and there is a payload. */
  predicate GivesBack(e: Extraction, blocks: seq<Block>, end: nat, payload: seq<byte>) {
    e == Faithful(blocks, end) <==> Carriable(blocks) && payload != []
  }

  /** The extractions that are the correct one exactly when they should be. */
  ghost function Right(blocks: seq<Block>, end: nat, payload: seq<byte>): iset<Extraction> {
    iset e: Extraction | GivesBack(e, blocks, end, payload)
  }

  /** The blocks and the payload lie at `pos` of the data, and nothing else. */
  predicate LieAt(data: seq<byte>, pos: nat, blocks: seq<Block>, payload: seq<byte>) {
    pos <= |data| && data[pos..] == Built(blocks, payload)
  }

  /** Extraction gives back the blocks and types in order and stops at the payload if and only if the
      types can be carried and there is a payload. */
  lemma {:induction false} RoundTripAt(data: seq<byte>, pos: nat, blocks: seq<Block>, payload: seq<byte>)
    returns (e: Extraction)
    requires blocks != [] && Addable(blocks) && LieAt(data, pos, blocks, payload)
    ensures |payload| <= |data| && data[|data| - |payload|..] == payload
    ensures e == Extract(data, |data|, pos) && e in Right(blocks, |data| - |payload|, payload)
    decreases |blocks|
  {
    if |blocks| == 1 {
      e := LastBlockAt(data, pos, blocks, payload);
    } else {
      var next := TailAt(data, pos, blocks, payload);
      var rest := RoundTripAt(data, next, blocks[1..], payload);
      e := ExtractFirst(data, pos, blocks, payload, rest);
      OneMoreBlock(e, rest, blocks, pos, next, |data| - |payload|, payload);
    }
  }

  /** Where all blocks but the first lie. */
  lemma TailAt(data: seq<byte>, pos: nat, blocks: seq<Block>, payload: seq<byte>) returns (next: nat)
    requires |blocks| > 1 && Addable(blocks) && LieAt(data, pos, blocks, payload)
    ensures next == pos + HEADER + |blocks[0].data|
    ensures Addable(blocks[1..]) && LieAt(data, next, blocks[1..], payload)
  {
    FirstBlock(data, pos, blocks, payload);
    next := pos + HEADER + |blocks[0].data|;
  }

  lemma LastBlockAt(data: seq<byte>, pos: nat, blocks: seq<Block>, payload: seq<byte>) returns (e: Extraction)
    requires |blocks| == 1 && Addable(blocks) && LieAt(data, pos, blocks, payload)
    ensures |payload| <= |data| && data[|data| - |payload|..] == payload
    ensures e == Extract(data, |data|, pos) && e in Right(blocks, |data| - |payload|, payload)
  {
    var b := blocks[0];
    FirstBlock(data, pos, blocks, payload);
    assert Datas(blocks) == [b.data] && Types(blocks) == [b.t];
    assert [BareType(WithLast(b.t))][0] == BareType(WithLast(b.t)) && [b.t][0] == b.t;
    e := Extract(data, |data|, pos);
    assert GivesBack(e, blocks, |data| - |payload|, payload);
  }

  /** One turn of the extraction loop at a block that is not flagged last, given what the rest gives. */
  function Turn(b: Block, pos: nat, next: nat, rest: Extraction): Extraction {
    if b.t == 0 then Extracted(IllegalEmbeddedData, [], [], pos)
    else if HasLast(b.t) then Extracted(NoError, [b.data], [BareType(b.t)], next)
    else Onto([b.data], [b.t], rest)
  }

  /** From the extraction `rest` of all blocks but the first to the extraction `e` of all. */
  lemma OneMoreBlock(e: Extraction, rest: Extraction, blocks: seq<Block>, pos: nat, next: nat, end: nat, payload: seq<byte>)
    requires |blocks| > 1 && rest in Right(blocks[1..], end, payload) && e == Turn(blocks[0], pos, next, rest)
    ensures e in Right(blocks, end, payload)
  {
    var b := blocks[0];
    assert GivesBack(rest, blocks[1..], end, payload);
    CarriableTail(blocks);
    assert Datas(blocks) == [b.data] + Datas(blocks[1..]);
    assert Types(blocks) == [b.t] + Types(blocks[1..]);
    if b.t != 0 && b.t < LAST {
      OntoFaithful(b, b.t, blocks[1..], rest, end);
    } else {
      assert |Faithful(blocks, end).blocks| > 1;
    }
    assert GivesBack(e, blocks, end, payload);
  }

  /** One turn of the extraction loop at a block that is not the last. */
  lemma ExtractFirst(data: seq<byte>, pos: nat, blocks: seq<Block>, payload: seq<byte>, rest: Extraction)
    returns (e: Extraction)
    requires |blocks| > 1 && Addable(blocks) && LieAt(data, pos, blocks, payload)
    requires rest == Extract(data, |data|, pos + HEADER + |blocks[0].data|)
    ensures e == Extract(data, |data|, pos) == Turn(blocks[0], pos, pos + HEADER + |blocks[0].data|, rest)
  {
    FirstBlock(data, pos, blocks, payload);
    NotTheEnd(blocks[1..], payload);
    e := ExtractOne(data, pos, blocks[0], rest);
  }

  /** The turn depends only on the block's own bytes. */
  lemma ExtractOne(data: seq<byte>, pos: nat, b: Block, rest: Extraction) returns (e: Extraction)
    requires pos + HEADER + |b.data| < |data| && data[pos] == b.t && SizeAt(data, pos) == |b.data|
    requires data[pos + HEADER..pos + HEADER + |b.data|] == b.data
    requires rest == Extract(data, |data|, pos + HEADER + |b.data|)
    ensures e == Extract(data, |data|, pos) == Turn(b, pos, pos + HEADER + |b.data|, rest)
  {
    e := Extract(data, |data|, pos);
  }

  lemma OntoFaithful(b: Block, t: byte, blocks: seq<Block>, rest: Extraction, end: nat)
    ensures Onto([b.data], [t], rest) == Extracted(NoError, [b.data] + Datas(blocks), [b.t] + Types(blocks), end)
            <==> t == b.t && rest == Faithful(blocks, end)
  {
    if rest.Extracted? {
      assert ([b.data] + rest.blocks)[1..] == rest.blocks && ([b.data] + Datas(blocks))[1..] == Datas(blocks);
      assert ([t] + rest.types)[1..] == rest.types && ([b.t] + Types(blocks))[1..] == Types(blocks);
      assert ([t] + rest.types)[0] == t && ([b.t] + Types(blocks))[0] == b.t;
    }
  }

  lemma NotTheEnd(blocks: seq<Block>, payload: seq<byte>)
    requires blocks != [] && Addable(blocks)
    ensures |Built(blocks, payload)| >= HEADER
  {
  }

  /** How the first block lies in a built packet. */
  lemma FirstBlock(data: seq<byte>, pos: nat, blocks: seq<Block>, payload: seq<byte>)
    requires blocks != [] && Addable(blocks) && LieAt(data, pos, blocks, payload)
    ensures var b := blocks[0];
            var next := pos + HEADER + |b.data|;
            && next <= |data| && Addable(blocks[1..])
            && data[pos] == (if |blocks| == 1 then WithLast(b.t) else b.t)
            && SizeAt(data, pos) == |b.data|
            && data[pos + HEADER..next] == b.data
            && data[next..] == Built(blocks[1..], payload)
  {
    var b := blocks[0];
    var rest := Built(blocks[1..], payload);
    var header := HeaderBytes(if |blocks| == 1 then WithLast(b.t) else b.t, |b.data|, b.pad);
    assert data[pos..] == header + (b.data + rest);
    assert forall i :: 0 <= i < HEADER ==> data[pos + i] == data[pos..][i] == header[i];
    assert data[pos + HEADER..pos + HEADER + |b.data|] == data[pos..][HEADER..HEADER + |b.data|];
    assert data[pos + HEADER + |b.data|..] == data[pos..][HEADER + |b.data|..];
  }

  lemma CarriableTail(blocks: seq<Block>)
    requires |blocks| > 1
    ensures Carriable(blocks) <==> blocks[0].t < LAST && blocks[0].t != 0 && Carriable(blocks[1..])
  {
    assert forall i :: 1 <= i < |blocks| ==> blocks[i] == blocks[1..][i - 1];
    if Carriable(blocks) {
      assert blocks[0].t < LAST && blocks[0].t != 0;
    }
  }

  lemma RoundTrip(blocks: seq<Block>, payload: seq<byte>)
    requires blocks != [] && Addable(blocks)
    ensures var packet := Built(blocks, payload);
            && |payload| <= |packet| && packet[|packet| - |payload|..] == payload
            && (Extract(packet, |packet|, 0) == Faithful(blocks, |packet| - |payload|)
                <==> Carriable(blocks) && payload != [])
  {
    var packet := Built(blocks, payload);
    assert packet[0..] == packet;
    var e := RoundTripAt(packet, 0, blocks, payload);
    assert GivesBack(e, blocks, |packet| - |payload|, payload);
  }

  // ---------------------------------------------------------------------------------------
  // Handing embedded data and payload to the C callbacks

  /** What the C callbacks are called with; no payload call when extraction fails. */
  datatype HostCalls = HostCalls(embedded: seq<seq<byte>>, types: seq<byte>, payload: Option<seq<byte>>)

  predicate CarriesInline(flags: byte) {
    flags / INLINE_PAYLOAD % 2 == 1
  }

  function GotData(data: seq<byte>, frameSize: nat, flags: byte, broken: bool, wantsEmbedded: bool): HostCalls
    requires frameSize <= |data|
    requires wantsEmbedded && CarriesInline(flags) && !broken ==> Extract(data, frameSize, 0).Extracted?
  {
    if wantsEmbedded && CarriesInline(flags) && !broken then
      var e := Extract(data, frameSize, 0);
      if !e.msg.NoError? then HostCalls([], [], None)
      else if frameSize < e.position then HostCalls(e.blocks, e.types, None)
      else HostCalls(e.blocks, e.types, Some(data[e.position..frameSize]))
    else HostCalls([], [], Some(data[..frameSize]))
  }

  /** The host gets each block and then exactly the payload. */
  lemma HostGetsPayload(blocks: seq<Block>, payload: seq<byte>, flags: byte)
    requires blocks != [] && Addable(blocks) && Carriable(blocks) && payload != [] && CarriesInline(flags)
    ensures var packet := Built(blocks, payload);
            && Extract(packet, |packet|, 0).Extracted?
            && GotData(packet, |packet|, flags, false, true) == HostCalls(Datas(blocks), Types(blocks), Some(payload))
  {
    var packet := Built(blocks, payload);
    RoundTrip(blocks, payload);
    var e := Extract(packet, |packet|, 0);
    assert e == Faithful(blocks, |packet| - |payload|);
    assert packet[e.position..|packet|] == payload;
  }
}
