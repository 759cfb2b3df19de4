/**
 * The base value of the binary codec: an immutable byte buffer with its
 * byte, length and hex views, and one operation that appends the buffer to
 * a caller-owned growable byte array.
 */
module SerializedTypes {
  import Hex
  import opened Wrappers

  type byte = Hex.byte

  /** A caller-owned growable byte array (Python's `bytearray`). */
  class ByteSink {
    var contents: seq<byte>

    /** An empty sink, as `bytearray()`. */
    constructor ()
      ensures contents == []
    {
      contents := [];
    }

    /** `bytearray.extend`: appends `data` and changes nothing else. */
    method Extend(data: seq<byte>)
      modifies this
      ensures contents == old(contents) + data
    {
      contents := contents + data;
    }
  }

  class SerializedType {
    /** The bytes this value serializes to; set once, at construction. */
    const buffer: seq<byte>

    /** `SerializedType(buffer)`. */
    constructor (buffer: seq<byte>)
      ensures this.buffer == buffer
      ensures ToBytes() == buffer && Len() == |buffer|
    {
      this.buffer := buffer;
    }

    /** `SerializedType()`: the default argument is the empty byte string. */
    constructor Default()
      ensures buffer == []
      ensures ToBytes() == [] && Len() == 0 && ToHex() == []
    {
      buffer := [];
    }

    /** `to_bytes`: the bytes the hex text stands for. */
    function ToBytes(): (r: seq<byte>)
      ensures Hex.Decode(ToHex()) == Some(r)
    {
      buffer
    }

    /** `__len__`: the number of bytes, which is half the length of the hex text. */
    function Len(): (n: nat)
      ensures n == |ToBytes()|
      ensures 2 * n == |ToHex()|
    {
      |buffer|
    }

    /**
     * `to_hex`: `buffer.hex().upper()`.  The text has two characters per
     * byte, uses only 0-9 and A-F (never a lower-case letter), and decodes
     * back to the buffer.
     */
    function ToHex(): (h: string)
      ensures |h| == 2 * |buffer|
      ensures forall i :: 0 <= i < |h| ==> Hex.IsUpperHexDigit(h[i])
      ensures forall i :: 0 <= i < |h| ==> !('a' <= h[i] <= 'z')
      ensures Hex.Decode(h) == Some(buffer)
      ensures h == Hex.Encode(buffer)
    {
      Hex.UpperOfLowerHex(buffer);
      Hex.DecodeEncode(buffer);
      Hex.ToUpper(Hex.LowerHex(buffer))
    }

    /** `to_json`: in the base class, the hex text. */
    function ToJson(): (j: string)
      ensures j == ToHex()
      ensures Hex.Decode(j) == Some(buffer)
    {
      ToHex()
    }

    /** `to_string`: in the base class, the hex text. */
    function ToString(): (t: string)
      ensures t == ToHex()
      ensures Hex.Decode(t) == Some(buffer)
    {
      ToHex()
    }

    /**
     * `to_byte_sink`: the sink grows by exactly the buffer, its old
     * contents stay as they were; `buffer` is a constant, so this value
     * cannot change.
     */
    method ToByteSink(sink: ByteSink)
      modifies sink
      ensures sink.contents == old(sink.contents) + buffer
      ensures |sink.contents| == old(|sink.contents|) + Len()
      ensures sink.contents[..old(|sink.contents|)] == old(sink.contents)
    {
      sink.Extend(buffer);
    }
  }

  /** Two values whose hex texts agree hold the same bytes. */
  lemma HexDeterminesBuffer(s: SerializedType, t: SerializedType)
    requires s.ToHex() == t.ToHex()
    ensures s.ToBytes() == t.ToBytes()
  {
    Hex.EncodeInjective(s.buffer, t.buffer);
  }

  /**
   * Writing the same value twice appends its buffer twice, so writing is
   * not idempotent unless the buffer is empty.
   */
  method WriteTwice(s: SerializedType, sink: ByteSink)
    modifies sink
    ensures sink.contents == old(sink.contents) + s.ToBytes() + s.ToBytes()
    ensures s.Len() > 0 <==> sink.contents != old(sink.contents) + s.ToBytes()
  {
    s.ToByteSink(sink);
    s.ToByteSink(sink);
  }
}
