/**
 * The byte layout shared by the blaster and the blastee (lab6/blaster.py,
 * lab6/blastee.py): a data packet is a 4-byte big-endian sequence number, a
 * 2-byte big-endian length and a payload zero-padded to that length; an
 * acknowledgement is the 4 sequence-number bytes and the first 8 payload
 * bytes, NUL-padded.
 */
module BlastLayout {
  import opened Wrappers
  import opened Packets

  function Pow256(n: nat): (r: nat)
    ensures r >= 1
  {
    if n == 0 then 1 else 256 * Pow256(n - 1)
  }

  /** `struct.pack` of an unsigned integer in `n` big-endian bytes. */
  function BigEndian(x: nat, n: nat): (bs: seq<byte>)
    requires x < Pow256(n)
    ensures |bs| == n
  {
    if n == 0 then [] else BigEndian(x / 256, n - 1) + [x % 256]
  }

  /** `struct.unpack` of big-endian unsigned bytes. */
  function FromBigEndian(bs: seq<byte>): (x: nat)
    ensures x < Pow256(|bs|)
  {
    if bs == [] then 0 else FromBigEndian(bs[..|bs| - 1]) * 256 + bs[|bs| - 1]
  }

  /** Unpacking what was packed gives the number back. */
  lemma {:induction false} BigEndianRoundTrip(x: nat, n: nat)
    requires x < Pow256(n)
    ensures FromBigEndian(BigEndian(x, n)) == x
  {
    if n > 0 {
      var bs := BigEndian(x, n);
      assert bs[..|bs| - 1] == BigEndian(x / 256, n - 1);
      BigEndianRoundTrip(x / 256, n - 1);
    }
  }

  /** Packing what was unpacked gives the bytes back. */
  lemma {:induction false} FromBigEndianRoundTrip(bs: seq<byte>)
    ensures BigEndian(FromBigEndian(bs), |bs|) == bs
  {
    if bs != [] {
      var init := bs[..|bs| - 1];
      FromBigEndianRoundTrip(init);
      var x := FromBigEndian(bs);
      assert x / 256 == FromBigEndian(init) && x % 256 == bs[|bs| - 1];
      assert bs == init + [bs[|bs| - 1]];
    }
  }

  function Zeros(n: nat): (z: seq<byte>)
    ensures |z| == n && forall i :: 0 <= i < n ==> z[i] == 0
  {
    seq(n, i => 0)
  }

  /** `data += b'\0' * (length - len(data))`: pad with zeros up to `length`; longer data is kept whole. */
  function PadTo(data: seq<byte>, length: int): (r: seq<byte>)
    ensures |data| <= length ==> |r| == length
    ensures |data| >= length ==> r == data
    ensures data <= r && forall i :: |data| <= i < |r| ==> r[i] == 0
  {
    if |data| < length then data + Zeros(length - |data|) else data
  }

  /** The widest values `pack('!IH', ...)` accepts. */
  const SeqnoLimit: nat := 0x1_0000_0000
  const LengthLimit: nat := 0x1_0000

  /** `pack('!IH', seqno, length) + get_data(seqno)`, given the data `get_data` read. */
  function DataPacket(seqno: nat, length: nat, data: seq<byte>): (bs: seq<byte>)
    requires seqno < SeqnoLimit && length < LengthLimit
  {
    assert Pow256(4) == SeqnoLimit && Pow256(2) == LengthLimit;
    BigEndian(seqno, 4) + BigEndian(length, 2) + PadTo(data, length)
  }

  /** Why the blastee stops on a packet: a header shorter than 6 bytes, a length that disagrees, or a sequence number outside its slots. */
  datatype BlastError = StructError | AssertionError | IndexError

  /** A data packet's fields as the blastee reads them. */
  datatype Header = Header(seqno: nat, length: nat, payload: seq<byte>)

  /** `unpack('!IH', ctx[:6])` and `assert length == len(ctx[6:])`. */
  function ParseData(ctx: seq<byte>): (r: Result<Header, BlastError>)
    ensures r.Ok? ==> |ctx| >= 6 && r.value.payload == ctx[6..] && r.value.length == |ctx| - 6
  {
    if |ctx| < 6 then Err(StructError)
    else
      var length := FromBigEndian(ctx[4..6]);
      if length != |ctx| - 6 then Err(AssertionError)
      else Ok(Header(FromBigEndian(ctx[..4]), length, ctx[6..]))
  }

  /**
   * A packet the blaster builds from at most `length` bytes of data parses
   * back to its sequence number, its length and the padded data.
   */
  lemma DataPacketRoundTrip(seqno: nat, length: nat, data: seq<byte>)
    requires seqno < SeqnoLimit && length < LengthLimit && |data| <= length
    ensures ParseData(DataPacket(seqno, length, data)) == Ok(Header(seqno, length, PadTo(data, length)))
  {
    assert Pow256(4) == SeqnoLimit && Pow256(2) == LengthLimit;
    var bs := DataPacket(seqno, length, data);
    assert bs[..4] == BigEndian(seqno, 4);
    assert bs[4..6] == BigEndian(length, 2);
    assert bs[6..] == PadTo(data, length);
    BigEndianRoundTrip(seqno, 4);
    BigEndianRoundTrip(length, 2);
  }

  /** `pack('!8s', data)`: the first 8 bytes, NUL-padded when shorter. */
  function Fit8(data: seq<byte>): (r: seq<byte>)
    ensures |r| == 8
    ensures |data| >= 8 ==> r == data[..8]
    ensures |data| < 8 ==> r == data + Zeros(8 - |data|)
  {
    if |data| >= 8 then data[..8] else data + Zeros(8 - |data|)
  }

  /** The acknowledgement body: `ctx[:4] + pack('!8s', ctx[6:])`. */
  function AckBody(ctx: seq<byte>): (ack: seq<byte>)
    requires |ctx| >= 6
  {
    ctx[..4] + Fit8(ctx[6..])
  }

  /**
   * An acknowledgement is always 12 bytes: the packet's own sequence-number
   * bytes, so the blaster's `unpack('!I', ack[:4])` reads back the number the
   * packet carried, and its first 8 payload bytes, NUL-padded.
   */
  lemma AckEchoesSeqno(seqno: nat, length: nat, data: seq<byte>)
    requires seqno < SeqnoLimit && length < LengthLimit
    ensures var ack := AckBody(DataPacket(seqno, length, data));
      && |ack| == 12
      && FromBigEndian(ack[..4]) == seqno
      && ack[4..] == Fit8(PadTo(data, length))
  {
    assert Pow256(4) == SeqnoLimit && Pow256(2) == LengthLimit;
    var bs := DataPacket(seqno, length, data);
    var ack := AckBody(bs);
    assert ack[..4] == bs[..4] == BigEndian(seqno, 4);
    assert bs[6..] == PadTo(data, length);
    BigEndianRoundTrip(seqno, 4);
  }
}
