/**
 Table-driven single-byte transcoding under the bounded-buffer contract of a
 streaming transformer: every source byte is replaced by its table entry and
 written to the next free slot of the destination, until the source is used
 up or the destination is full.
 */
module Codepage {
  import opened Wrappers
  import opened Bytes

  /** A substitution table: one entry for every byte value. */
  type Table = m: seq<byte> | |m| == 0x100 witness seq(0x100, _ => 0)

  /** The two fixed tables of the system, ASCII to EBCDIC and back. */
  datatype Codepages = Codepages(asciiToEbcdic: Table, ebcdicToAscii: Table)

  datatype TransformError = ErrShortDst

  /** The updated destination buffer, the bytes written and read, and the error if any. */
  datatype Outcome = Outcome(dst: seq<byte>, nDst: nat, nSrc: nat, err: Option<TransformError>)

  /** Reference meaning of transliteration: the first byte's table entry, then the rest translated. */
  function Translit(mapping: Table, s: seq<byte>): seq<byte>
  {
    if |s| == 0 then [] else [mapping[s[0]]] + Translit(mapping, s[1..])
  }

  /** The reference translation has one output byte per input byte, each the input's table entry. */
  lemma {:induction false} TranslitPointwise(mapping: Table, s: seq<byte>)
    ensures |Translit(mapping, s)| == |s|
    ensures forall i :: 0 <= i < |s| ==> Translit(mapping, s)[i] == mapping[s[i]]
  {
    if |s| > 0 {
      TranslitPointwise(mapping, s[1..]);
    }
  }

  /**
   What one call of the transformer must do: as many source bytes as fit
   are translated, one destination byte per source byte, into the front of
   the destination; the rest of the destination keeps its contents; the call
   fails with ErrShortDst exactly when the destination is shorter than the
   source.
   */
  predicate Transformed(dst: seq<byte>, src: seq<byte>, mapping: Table, o: Outcome)
  {
    && |o.dst| == |dst|
    && o.nDst == o.nSrc
    && o.nSrc <= |src|
    && o.nDst <= |dst|
    && (forall i :: 0 <= i < o.nDst ==> o.dst[i] == mapping[src[i]])
    && o.dst[o.nDst..] == dst[o.nDst..]
    && (if |dst| >= |src| then o.err == None && o.nSrc == |src|
        else o.err == Some(ErrShortDst) && o.nDst == |dst|)
  }

  /**
   The transform loop. The destination is passed in and the updated buffer
   returned; `atEOF` is accepted and plays no part.
   */
  method DoTransform(dst: seq<byte>, src: seq<byte>, mapping: Table, atEOF: bool)
    returns (out: seq<byte>, nDst: nat, nSrc: nat, err: Option<TransformError>)
    ensures Transformed(dst, src, mapping, Outcome(out, nDst, nSrc, err))
  {
    out := dst;
    nDst, nSrc := 0, 0;
    err := None;
    var k := 0;
    while k < |src|
      invariant k <= |src|
      invariant nDst == nSrc == k <= |dst|
      invariant |out| == |dst|
      invariant forall i :: 0 <= i < nDst ==> out[i] == mapping[src[i]]
      invariant out[nDst..] == dst[nDst..]
    {
      var c := src[k];
      if nDst == |out| {
        err := Some(ErrShortDst);
        break;
      }
      out := out[nDst := mapping[c]];
      nDst := nDst + 1;
      nSrc := nSrc + 1;
      k := k + 1;
    }
  }

  /** The ASCII to EBCDIC transformer: the transform loop with the ASCII to EBCDIC table. */
  method AsciiToEbcdic(tables: Codepages, dst: seq<byte>, src: seq<byte>, atEOF: bool)
    returns (out: seq<byte>, nDst: nat, nSrc: nat, err: Option<TransformError>)
    ensures Transformed(dst, src, tables.asciiToEbcdic, Outcome(out, nDst, nSrc, err))
  {
    out, nDst, nSrc, err := DoTransform(dst, src, tables.asciiToEbcdic, atEOF);
  }

  /** The EBCDIC to ASCII transformer: the transform loop with the EBCDIC to ASCII table. */
  method EbcdicToAscii(tables: Codepages, dst: seq<byte>, src: seq<byte>, atEOF: bool)
    returns (out: seq<byte>, nDst: nat, nSrc: nat, err: Option<TransformError>)
    ensures Transformed(dst, src, tables.ebcdicToAscii, Outcome(out, nDst, nSrc, err))
  {
    out, nDst, nSrc, err := DoTransform(dst, src, tables.ebcdicToAscii, atEOF);
  }

  /** The bytes a call writes are the reference transliteration of the bytes it reads. */
  lemma TransformedWritesTranslit(dst: seq<byte>, src: seq<byte>, mapping: Table, o: Outcome)
    requires Transformed(dst, src, mapping, o)
    ensures o.dst == Translit(mapping, src[..o.nSrc]) + dst[o.nDst..]
  {
    TranslitPointwise(mapping, src[..o.nSrc]);
    assert o.dst[..o.nDst] == Translit(mapping, src[..o.nSrc]);
    assert o.dst == o.dst[..o.nDst] + o.dst[o.nDst..];
  }

  /**
   A call's result is determined by the destination, the source and the
   table alone; since the transform loop meets this for either value of
   `atEOF`, that flag cannot change the result.
   */
  lemma TransformedIsUnique(dst: seq<byte>, src: seq<byte>, mapping: Table, o1: Outcome, o2: Outcome)
    requires Transformed(dst, src, mapping, o1)
    requires Transformed(dst, src, mapping, o2)
    ensures o1 == o2
  {
    TransformedWritesTranslit(dst, src, mapping, o1);
    TransformedWritesTranslit(dst, src, mapping, o2);
  }

  /** Translating two pieces one after the other is translating the whole. */
  lemma {:induction false} TranslitAppend(mapping: Table, a: seq<byte>, b: seq<byte>)
    ensures Translit(mapping, a + b) == Translit(mapping, a) + Translit(mapping, b)
  {
    if |a| == 0 {
      assert a + b == b;
    } else {
      assert (a + b)[1..] == a[1..] + b;
      TranslitAppend(mapping, a[1..], b);
    }
  }

  /**
   Resumption: after a call stops with ErrShortDst, translating the unread
   rest of the source into a destination that is large enough and appending
   what both calls wrote gives what one call with a large enough destination
   writes.
   */
  lemma ResumeAfterShortDst(src: seq<byte>, mapping: Table,
                            dst1: seq<byte>, o1: Outcome,
                            dst2: seq<byte>, o2: Outcome,
                            dst: seq<byte>, o: Outcome)
    requires Transformed(dst1, src, mapping, o1) && o1.err == Some(ErrShortDst)
    requires Transformed(dst2, src[o1.nSrc..], mapping, o2) && o2.err == None
    requires Transformed(dst, src, mapping, o) && o.err == None
    ensures o1.nSrc + o2.nSrc == o.nSrc == |src|
    ensures o1.dst[..o1.nDst] + o2.dst[..o2.nDst] == o.dst[..o.nDst]
  {
    TransformedWritesTranslit(dst1, src, mapping, o1);
    TransformedWritesTranslit(dst2, src[o1.nSrc..], mapping, o2);
    TransformedWritesTranslit(dst, src, mapping, o);
    assert src[o1.nSrc..][..o2.nSrc] == src[o1.nSrc..];
    assert src[..o.nSrc] == src[..o1.nSrc] + src[o1.nSrc..];
    TranslitAppend(mapping, src[..o1.nSrc], src[o1.nSrc..]);
  }
}
