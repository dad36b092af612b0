/** The block scenarios of the codec's test suite, stated as facts about the model. */
module AwsTapeExamples {
  import opened Wrappers
  import opened Bytes
  import opened LittleEndian
  import opened AwsTape

  /** The ASCII text "testing 1, 2, 3". */
  const ValidData: seq<byte> :=
    [0x74, 0x65, 0x73, 0x74, 0x69, 0x6E, 0x67, 0x20, 0x31, 0x2C, 0x20, 0x32, 0x2C, 0x20, 0x33]

  /** A tape mark encodes to a bare header with only the tape-mark bit set. */
  lemma MarshalTapeMark()
    ensures Marshal(Block(0, 0, TapeMark, 0, [])) == [0, 0, 0, 0, 0x40, 0]
  {
    assert PutUint16(0) == [0, 0];
  }

  /** That header decodes back to the tape mark. */
  lemma UnmarshalTapeMark()
    ensures Unmarshal(Source([0, 0, 0, 0, 0x40, 0], EndOfInput))
         == Success(Decoded(Block(0, 0, TapeMark, 0, []), 6))
  {
    MarshalTapeMark();
    assert Marshal(Block(0, 0, TapeMark, 0, [])) + [] == [0, 0, 0, 0, 0x40, 0];
    UnmarshalMarshal(Block(0, 0, TapeMark, 0, []), [], EndOfInput);
  }

  /** A single-block record of 15 bytes, flagged 0xA0 = RecordStart | RecordEnd, encodes to its header and then its data. */
  lemma MarshalValidData()
    ensures Marshal(Block(15, 0, 0xA0, 0, ValidData)) == [0x0F, 0, 0, 0, 0xA0, 0] + ValidData
  {
    assert PutUint16(15) == [0x0F, 0];
    assert PutUint16(0) == [0, 0];
  }

  /** Those bytes decode back to the record. */
  lemma UnmarshalValidData()
    ensures Unmarshal(Source([0x0F, 0, 0, 0, 0xA0, 0] + ValidData, EndOfInput))
         == Success(Decoded(Block(15, 0, 0xA0, 0, ValidData), 21))
  {
    MarshalValidData();
    assert Marshal(Block(15, 0, 0xA0, 0, ValidData)) + [] == [0x0F, 0, 0, 0, 0xA0, 0] + ValidData;
    UnmarshalMarshal(Block(15, 0, 0xA0, 0, ValidData), [], EndOfInput);
  }

  /** Four bytes are too few for a header. */
  lemma ShortHeaderScenario()
    ensures Unmarshal(Source([0, 0, 0, 0], EndOfInput)) == Failure(ErrUnexpectedEOF)
  {
    assert !Unmarshal(Source([0, 0, 0, 0], EndOfInput)).Success?;
  }

  /** A header declaring 10 bytes with nothing after it. */
  lemma NoDataScenario()
    ensures Unmarshal(Source([0x0A, 0, 0, 0, 0xA0, 0], EndOfInput)) == Failure(ErrUnexpectedEOF)
  {
    assert DeclaredLength([0x0A, 0, 0, 0, 0xA0, 0]) == 10;
    assert !Unmarshal(Source([0x0A, 0, 0, 0, 0xA0, 0], EndOfInput)).Success?;
  }

  /** A header declaring 0xAA55 bytes followed by only four. */
  lemma ShortBlockScenario()
    ensures Unmarshal(Source([0x55, 0xAA, 0, 0, 0xA0, 0, 1, 2, 3, 4], EndOfInput)) == Failure(ErrUnexpectedEOF)
  {
    assert DeclaredLength([0x55, 0xAA, 0, 0, 0xA0, 0, 1, 2, 3, 4]) == 0xAA55;
    assert !Unmarshal(Source([0x55, 0xAA, 0, 0, 0xA0, 0, 1, 2, 3, 4], EndOfInput)).Success?;
  }
}
