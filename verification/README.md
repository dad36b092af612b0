# htape core in Dafny

A Dafny model of the two byte-level components of `htape`:

- the **AWS tape block codec**. An AWS tape image is a sequence of blocks. Each block is a
  6-byte header followed by its payload. The header holds the current length (u16,
  little-endian), the previous length (u16, little-endian), `Flags1` and `Flags2`.
  `Marshal` encodes one block. `UnmarshalAWSBlock` (here `AwsTape.Unmarshal`) reads one
  block from a reader and fails with `ErrUnexpectedEOF` when the header or the payload
  comes up short.
- the **table-driven transcoder** `doTransform`. It maps every source byte through a
  256-entry table into a bounded destination buffer. It stops with `ErrShortDst` when the
  destination is full. Two wrappers apply it with the ASCII→EBCDIC and EBCDIC→ASCII tables.

Files:

- `wrappers.dfy` holds `Option` and `Result`.
- `bytes.dfy` holds the `byte` type.
- `little_endian.dfy` holds little-endian u16. The value is `lo + 256 * hi`.
- `awstape.dfy` holds the flags, `Block`, `Marshal`, the reader abstraction, `Unmarshal` and the codec's laws.
- `awstape_examples.dfy` holds the scenarios of `awstape_test.go`, stated as lemmas.
- `codepage.dfy` holds the transform loop, its specification `Transformed`, the two wrappers and the resumption law.

The reader is modelled as `Source(bytes, tail)`: the bytes it still holds, and how it
ends. A clean end is `EndOfInput`. A reader failure is `Broken(cause)`. One read of `n`
bytes delivers `min(n, |bytes|)` of them. A short read also reports the tail: end of input,
or the reader's failure. `Unmarshal` turns a short read into `ErrUnexpectedEOF`. A reader
failure is passed through unchanged as `ReaderFailure(cause)`. That matches the
`err != nil && err != io.EOF` checks.

`doTransform` writes into `dst` in place. Here the destination is passed in as a sequence,
and the updated buffer is returned with `nDst`, `nSrc` and `err`. `Transformed` is what a
call must do:

- the first `nDst` bytes are the table images of the first `nSrc` source bytes;
- `nDst == nSrc`;
- the rest of the destination is unchanged;
- `ErrShortDst` is returned exactly when `|dst| < |src|`, and then `nDst == |dst|`;
- otherwise all of `src` is consumed.

The two tables are a parameter, `Codepages`, each a 256-entry `Table`.

`Marshal` has no precondition. It writes the header and then `Data` verbatim, so its
output is `6 + |Data|` bytes, and `CurrentLength` is written as given rather than derived
from `Data`. The round trip needs `WellFormed(b)` (`|data| == currentLength`); the code
leaves that to the caller.

## Model

| member | source | states |
|---|---|---|
| `LittleEndian.PutUint16` | awstape.go:84-85 | the two bytes written for a u16 read back, low byte first, as the same value |
| `LittleEndian.PutUint16OfUint16` | awstape.go:109-110 | reading two header bytes as a u16 and writing the value back reproduces those two bytes |
| `AwsTape.FlagsAreSingleBits` | awstape.go:55-62 | RecordEnd, TapeMark and RecordStart are 0x20, 0x40, 0x80 (0x20 shifted by 0, 1, 2), pairwise disjoint bits, and RecordStart OR RecordEnd is 0xA0 |
| `AwsTape.Marshal` | awstape.go:81-93 | output is 6 + \|Data\| bytes; bytes 0-1 read as CurrentLength and 2-3 as PreviousLength (little-endian); byte 4 is Flags1, byte 5 is Flags2; bytes from 6 on are Data verbatim; CurrentLength is not derived from Data |
| `AwsTape.ParseHeader` | awstape.go:107-114 | the parsed fields, re-encoded, are exactly the six header bytes: nothing is normalised or validated; Data starts empty |
| `AwsTape.ReadPayload` | awstape.go:118-130 | succeeds exactly when CurrentLength bytes are available; then Data is those bytes and 6 + CurrentLength bytes are consumed; a zero length reads nothing; a short read fails with unexpected EOF or the reader's own error |
| `AwsTape.Unmarshal` | awstape.go:96-132 | succeeds exactly when at least 6 bytes and then CurrentLength more are available, so fewer than 6 bytes (zero included) or a short payload fail; every failure is ErrUnexpectedEOF on a cleanly ending reader and the reader's own error otherwise; on success the block's CurrentLength is the header's, \|Data\| == CurrentLength, and exactly 6 + CurrentLength bytes, all available, are consumed |
| `AwsTape.UnmarshalMarshal` | awstape.go:81-131 | round trip: decoding the encoding of a block with \|Data\| == CurrentLength returns that block field for field (Flags2 included) and consumes 6 + \|Data\| bytes, whatever bytes follow and however the reader ends |
| `AwsTape.MarshalUnmarshal` | awstape.go:96-131 | converse round trip: the bytes a successful decode consumed are exactly the encoding of the block it returned |
| `AwsTape.UnmarshalAcceptsAnyHeader` | awstape.go:107-130 | no validation: any six header bytes followed by enough payload decode, with PreviousLength, Flags1 and Flags2 taken over raw |
| `AwsTape.ZeroLengthBlock` | awstape.go:113-131 | a header declaring length 0 decodes to the parsed header with empty Data and consumes only the 6 header bytes, even when the reader would fail on a further read |
| `AwsTape.SingleBlockRecordRoundTrip` | awstape_test.go:45-54 | a block flagged RecordStart OR RecordEnd round-trips with Flags1 0xA0, both bits observable and the tape-mark bit clear |
| `AwsTapeExamples.MarshalTapeMark` | awstape_test.go:35-43 | the tape-mark block encodes to 00 00 00 00 40 00 |
| `AwsTapeExamples.UnmarshalTapeMark` | awstape_test.go:103-105 | 00 00 00 00 40 00 decodes to the tape-mark block with empty Data |
| `AwsTapeExamples.MarshalValidData` | awstape_test.go:45-54 | the 15-byte record flagged 0xA0 encodes to 0F 00 00 00 A0 00 followed by its data |
| `AwsTapeExamples.UnmarshalValidData` | awstape_test.go:111-113 | those 21 bytes decode back to the record |
| `AwsTapeExamples.ShortHeaderScenario` | awstape_test.go:56-57 | a 4-byte input fails with ErrUnexpectedEOF |
| `AwsTapeExamples.NoDataScenario` | awstape_test.go:59-60 | a header declaring 10 bytes with no payload fails with ErrUnexpectedEOF |
| `AwsTapeExamples.ShortBlockScenario` | awstape_test.go:62-63 | a header declaring 0xAA55 bytes followed by 4 fails with ErrUnexpectedEOF |
| `Codepage.DoTransform` | codepage.go:59-70 | lock-step nDst == nSrc; dst[i] == mapping[src[i]] for i < nDst; dst[nDst..] unchanged; nil error and everything consumed exactly when \|dst\| >= \|src\| (empty src included); otherwise ErrShortDst with nDst == nSrc == \|dst\|; atEOF plays no part |
| `Codepage.AsciiToEbcdic` | codepage.go:44-48 | the ASCII to EBCDIC transformer meets the transform specification with the ASCII to EBCDIC table |
| `Codepage.EbcdicToAscii` | codepage.go:50-54 | the EBCDIC to ASCII transformer meets the transform specification with the EBCDIC to ASCII table |
| `Codepage.TransformedWritesTranslit` | codepage.go:60-68 | the destination after a call is the table images of the consumed source bytes, followed by the untouched rest of the destination |
| `Codepage.TransformedIsUnique` | codepage.go:59-70 | the result of a call is determined by dst, src and the table alone, so the two values of atEOF give the same result |
| `Codepage.TranslitPointwise` | codepage.go:60-67 | the reference translation, defined byte after byte, yields one output byte per input byte, and output byte i is the table entry of input byte i |
| `Codepage.TranslitAppend` | codepage.go:60-67 | translating byte by byte distributes over concatenation of the source |
| `Codepage.ResumeAfterShortDst` | codepage.go:59-70 | after an ErrShortDst call, transforming the unread rest of the source into a large enough buffer and concatenating both outputs equals one call with a large enough buffer, and the two calls together consume the whole source |

## Left out

- Real `io.Reader` short-read behaviour: a reader may return fewer bytes than asked without being at the end. Here a read delivers min(n, available) bytes. Where the Go `bytes.Reader` returns a partial read with a nil error, the model reports end of input; `Unmarshal` treats both alike.
- Reader errors other than EOF are one abstract `Broken(cause)` tail. It is propagated unchanged, and nothing more is modelled about it.
- `bytes.Buffer`, `encoding/binary` and the fresh copy `Marshal` returns: the encoding is a pure sequence function, and little-endian u16 is plain arithmetic.
- The distinction between a nil and an empty `Data` slice: both are the empty sequence.
- The `golang.org/x/text/transform` framework is not modelled: the `transform.Bytes` driver, `NopResetter` and the `Transformer` interface plumbing.
- The concrete tables `asciiToEBCDICMap` and `ebcdicToASCIIMap` are not part of this model. Tables are a parameter of length 256. So the ASCII/EBCDIC test vectors of `codepage_test.go` and the near-identity check with the 0xb4 → 0x15 → 0x0a exception are not stated.
- In-place writes to `dst`: the updated buffer is returned instead. `src` is an immutable sequence, so it is never modified.
- Codepage.DoTransform: `dst` and `src` are modelled as separate buffers; overlapping Go slices, where later source bytes are overwritten before they are read, are not modelled.
