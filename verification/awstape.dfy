/**
 An AWS tape image is a sequence of variable-length blocks. Each block is a
 6-byte header (current length and previous length as little-endian u16, then
 Flags1 and Flags2) followed by exactly current-length bytes of payload.
 */
module AwsTape {
  import opened Wrappers
  import opened Bytes
  import opened LittleEndian

  const HeaderSize: nat := 6

  /** Flags1 bits: 0x20 shifted left by 0, 1 and 2. */
  const RecordEnd: byte := 0x20
  const TapeMark: byte := 0x40
  const RecordStart: byte := 0x80

  /** Bitwise OR and AND of two bytes. */
  function BitOr(a: byte, b: byte): byte { ((a as bv8) | (b as bv8)) as int }
  function BitAnd(a: byte, b: byte): byte { ((a as bv8) & (b as bv8)) as int }

  /** True when every bit of `flag` is set in `flags`. */
  predicate HasFlag(flags: byte, flag: byte) { BitAnd(flags, flag) == flag }

  /** One tape block; `flags2` is reserved but must survive a round trip. */
  datatype Block = Block(
    currentLength: uint16,
    previousLength: uint16,
    flags1: byte,
    flags2: byte,
    data: seq<byte>)

  /** The caller's obligation when encoding: the declared length is the payload length. */
  predicate WellFormed(b: Block) {
    |b.data| == b.currentLength
  }

  /**
   Serialises a block: header then payload verbatim. The current length is
   written as given, not recomputed from the payload.
   */
  function Marshal(b: Block): (r: seq<byte>)
    ensures |r| == HeaderSize + |b.data|
    ensures Uint16(r[0], r[1]) == b.currentLength
    ensures Uint16(r[2], r[3]) == b.previousLength
    ensures r[4] == b.flags1 && r[5] == b.flags2
    ensures r[HeaderSize..] == b.data
  {
    PutUint16(b.currentLength) + PutUint16(b.previousLength) + [b.flags1, b.flags2] + b.data
  }

  /** What a reader reports once its remaining bytes are used up. */
  datatype Tail = EndOfInput | Broken(cause: string)

  /** A reader: the bytes it still holds, and how it ends. */
  datatype Source = Source(bytes: seq<byte>, tail: Tail)

  /** Outcome of one read: all bytes requested, or a short read and the tail's report. */
  datatype ReadStatus = Complete | HitEOF | ReadError(cause: string)

  datatype Chunk = Chunk(got: seq<byte>, rest: Source, status: ReadStatus)

  /**
   One read of up to `n` bytes. It delivers min(n, available) bytes; a short
   read also carries the reader's end-of-input or failure report.
   */
  function Read(src: Source, n: nat): (c: Chunk)
  {
    if n <= |src.bytes| then
      Chunk(src.bytes[..n], Source(src.bytes[n..], src.tail), Complete)
    else
      Chunk(src.bytes, Source([], src.tail),
            match src.tail
            case EndOfInput => HitEOF
            case Broken(e) => ReadError(e))
  }

  datatype Error = ErrUnexpectedEOF | ReaderFailure(cause: string)

  /** A decoded block and the number of bytes taken from the reader. */
  datatype Decoded = Decoded(block: Block, consumed: nat)

  /** The error a short read produces: unexpected EOF, or the reader's own failure unchanged. */
  function ShortReadError(t: Tail): Error {
    match t
    case EndOfInput => ErrUnexpectedEOF
    case Broken(e) => ReaderFailure(e)
  }

  /** The current length declared by a header that is present. */
  function DeclaredLength(bytes: seq<byte>): uint16
    requires |bytes| >= 2
  {
    Uint16(bytes[0], bytes[1])
  }

  /** The block a header describes, with its payload not yet read. */
  function ParseHeader(h: seq<byte>): (b: Block)
    requires |h| >= HeaderSize
    ensures PutUint16(b.currentLength) + PutUint16(b.previousLength) + [b.flags1, b.flags2] == h[..HeaderSize]
    ensures b.data == []
  {
    PutUint16OfUint16(h[0], h[1]);
    PutUint16OfUint16(h[2], h[3]);
    Block(Uint16(h[0], h[1]), Uint16(h[2], h[3]), h[4], h[5], [])
  }

  /** Reads the payload a parsed header declares; nothing is read when it declares zero bytes. */
  function ReadPayload(block: Block, src: Source): (r: Result<Decoded, Error>)
    requires block.data == []
    ensures r.Success? <==> |src.bytes| >= block.currentLength
    ensures r.Failure? ==> r.error == ShortReadError(src.tail)
    ensures r.Success? ==>
      r.value == Decoded(block.(data := src.bytes[..block.currentLength]), HeaderSize + block.currentLength)
  {
    if block.currentLength > 0 then
      var payload := Read(src, block.currentLength);
      if payload.status.ReadError? then
        Failure(ReaderFailure(payload.status.cause))
      else if |payload.got| < block.currentLength then
        Failure(ErrUnexpectedEOF)
      else
        Success(Decoded(block.(data := payload.got), HeaderSize + block.currentLength))
    else
      Success(Decoded(block, HeaderSize))
  }

  /**
   Reads one block: a 6-byte header, then, if the declared length is not
   zero, exactly that many payload bytes. No header field is validated.
   */
  function Unmarshal(src: Source): (r: Result<Decoded, Error>)
    ensures r.Success? <==>
      |src.bytes| >= HeaderSize && |src.bytes| >= HeaderSize + DeclaredLength(src.bytes)
    ensures r.Failure? ==> r.error == ShortReadError(src.tail)
    ensures r.Success? ==>
      && r.value.block.currentLength == DeclaredLength(src.bytes)
      && WellFormed(r.value.block)
      && r.value.consumed == HeaderSize + r.value.block.currentLength
      && r.value.consumed <= |src.bytes|
  {
    var header := Read(src, HeaderSize);
    if header.status.ReadError? then
      Failure(ReaderFailure(header.status.cause))
    else if |header.got| < HeaderSize then
      Failure(ErrUnexpectedEOF)
    else
      ReadPayload(ParseHeader(header.got), header.rest)
  }

  /** Decoding an encoded well-formed block gives it back, whatever follows it in the stream. */
  lemma UnmarshalMarshal(b: Block, following: seq<byte>, tail: Tail)
    requires WellFormed(b)
    ensures Unmarshal(Source(Marshal(b) + following, tail)) == Success(Decoded(b, HeaderSize + |b.data|))
  {
    var bytes := Marshal(b) + following;
    var header := Read(Source(bytes, tail), HeaderSize);
    assert header.got == Marshal(b)[..HeaderSize];
    var parsed := ParseHeader(header.got);
    // The encoded header parses back to b's own fields, since u16 encoding is injective.
    assert PutUint16(parsed.currentLength) == PutUint16(b.currentLength);
    assert PutUint16(parsed.previousLength) == PutUint16(b.previousLength);
    assert parsed == b.(data := []);
    assert header.rest.bytes == b.data + following;
    assert (b.data + following)[..b.currentLength] == b.data;
  }

  /** The bytes a successful decode consumed are exactly the encoding of the decoded block. */
  lemma MarshalUnmarshal(src: Source)
    requires Unmarshal(src).Success?
    ensures var d := Unmarshal(src).value; src.bytes[..d.consumed] == Marshal(d.block)
  {
    var d := Unmarshal(src).value;
    var bytes := src.bytes;
    PutUint16OfUint16(bytes[0], bytes[1]);
    PutUint16OfUint16(bytes[2], bytes[3]);
    assert bytes[..d.consumed] == bytes[..2] + bytes[2..4] + bytes[4..6] + bytes[6..d.consumed];
  }

  /**
   No validation: any six header bytes followed by enough payload decode, and
   every header field, flag bits included, is taken over raw.
   */
  lemma UnmarshalAcceptsAnyHeader(header: seq<byte>, payload: seq<byte>, tail: Tail)
    requires |header| == HeaderSize
    requires |payload| >= Uint16(header[0], header[1])
    ensures var r := Unmarshal(Source(header + payload, tail));
      && r.Success?
      && r.value.block == Block(Uint16(header[0], header[1]), Uint16(header[2], header[3]),
                                header[4], header[5], payload[..Uint16(header[0], header[1])])
  {
    var bytes := header + payload;
    assert bytes[..HeaderSize] == header;
    assert bytes[HeaderSize..] == payload;
  }

  /**
   A zero-length block (a tape mark, for instance) takes only its header: no
   payload read is attempted, so even a reader that then fails is not consulted.
   */
  lemma ZeroLengthBlock(src: Source)
    requires |src.bytes| >= HeaderSize && DeclaredLength(src.bytes) == 0
    ensures Unmarshal(src) == Success(Decoded(ParseHeader(src.bytes), HeaderSize))
    ensures ParseHeader(src.bytes).data == []
  {
    assert Read(src, HeaderSize).got == src.bytes[..HeaderSize];
  }

  /** A block flagged both record start and record end keeps both bits, and only them, through a round trip. */
  lemma SingleBlockRecordRoundTrip(b: Block)
    requires WellFormed(b) && b.flags1 == BitOr(RecordStart, RecordEnd)
    ensures var r := Unmarshal(Source(Marshal(b), EndOfInput));
      && r.Success?
      && r.value.block.flags1 == 0xA0
      && HasFlag(r.value.block.flags1, RecordStart)
      && HasFlag(r.value.block.flags1, RecordEnd)
      && !HasFlag(r.value.block.flags1, TapeMark)
  {
    UnmarshalMarshal(b, [], EndOfInput);
    assert Marshal(b) + [] == Marshal(b);
  }

  /** The three flag constants are distinct single bits. */
  lemma FlagsAreSingleBits()
    ensures RecordEnd == 0x20 && TapeMark == 2 * RecordEnd && RecordStart == 4 * RecordEnd
    ensures BitAnd(RecordEnd, TapeMark) == 0 && BitAnd(TapeMark, RecordStart) == 0
    ensures BitAnd(RecordEnd, RecordStart) == 0
    ensures BitOr(RecordStart, RecordEnd) == 0xA0
  {
  }
}
