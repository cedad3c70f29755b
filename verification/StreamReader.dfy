/** Sequential readers over a cluster's bytes: raw, or through a decoder that is fed 1024 bytes at a
    time (src/rawstreamreader.h, src/decoderstreamreader.h, src/istreamreader.cpp). */
module StreamReader {
  import opened Bytes

  const CHUNK_SIZE: nat := 1024

  // ---------------------------------------------------------------- an abstract codec

  /** The outcome of one decoder call: its new state, how many input bytes it took, what it wrote. */
  datatype Run<S> = Run(state: S, consumed: nat, out: Str)

  /** A decoder library: an initial state, and a call on the available input and the output room. */
  datatype Codec<!S> = Codec(init: S, run: (S, Str, nat) -> Run<S>)

  /** The contract on a codec for one encoded stream: `at(s, i, o)` says that the decoder in state s
      has taken the first i bytes and written the first o. A call takes a prefix of its input, writes
      what comes next, and does not stall while there is output to come and either input at hand or
      no input left at all. */
  ghost predicate Decodes<S(!new)>(c: Codec<S>, enc: Str, plain: Str, at: (S, nat, nat) -> bool) {
    && at(c.init, 0, 0)
    && forall s: S, i: nat, o: nat, chunk: Str, room: nat ::
         at(s, i, o) && room > 0 && i + |chunk| <= |enc| && enc[i..i + |chunk|] == chunk && o <= |plain|
         ==> GoodRun(c.run(s, chunk, room), enc, plain, at, i, o, |chunk|, room)
  }

  ghost predicate GoodRun<S(!new)>(r: Run<S>, enc: Str, plain: Str, at: (S, nat, nat) -> bool, i: nat, o: nat, avail: nat, room: nat) {
    && r.consumed <= avail && |r.out| <= room && o + |r.out| <= |plain|
    && r.out == plain[o..o + |r.out|]
    && at(r.state, i + r.consumed, o + |r.out|)
    && (o < |plain| && (avail > 0 || i == |enc|) ==> r.consumed > 0 || |r.out| > 0)
  }

  lemma RunIsGood<S(!new)>(c: Codec<S>, enc: Str, plain: Str, at: (S, nat, nat) -> bool, s: S, i: nat, o: nat, chunk: Str, room: nat)
    requires Decodes(c, enc, plain, at)
    requires at(s, i, o) && room > 0 && i + |chunk| <= |enc| && enc[i..i + |chunk|] == chunk && o <= |plain|
    ensures GoodRun(c.run(s, chunk, room), enc, plain, at, i, o, |chunk|, room)
  {
  }

  /** The contract can be met: storing bytes as they are is a codec. */
  function StoreCodec(): Codec<()> {
    Codec((), (s: (), chunk: Str, room: nat) =>
      var n := if |chunk| < room then |chunk| else room;
      Run((), n, chunk[..n]))
  }

  lemma StoreCodecDecodes(plain: Str)
    ensures Decodes(StoreCodec(), plain, plain, (s: (), i: nat, o: nat) => i == o)
  {
    var at := (s: (), i: nat, o: nat) => i == o;
    forall s: (), i: nat, o: nat, chunk: Str, room: nat
      | at(s, i, o) && room > 0 && i + |chunk| <= |plain| && plain[i..i + |chunk|] == chunk && o <= |plain|
      ensures GoodRun(StoreCodec().run(s, chunk, room), plain, plain, at, i, o, |chunk|, room)
    {
      var n := if |chunk| < room then |chunk| else room;
      assert chunk[..n] == plain[i..i + n];
    }
  }

  // ---------------------------------------------------------------- raw

  class RawStreamReader {
    const reader: Str
    var readerPos: nat

    constructor (reader: Str)
      ensures this.reader == reader && readerPos == 0
    {
      this.reader, readerPos := reader, 0;
    }

    method ReadImpl(nbytes: nat) returns (buf: Str)
      requires readerPos + nbytes <= |reader|
      modifies this
      ensures buf == reader[old(readerPos)..old(readerPos) + nbytes] && readerPos == old(readerPos) + nbytes
    {
      buf := reader[readerPos..readerPos + nbytes];
      readerPos := readerPos + nbytes;
    }
  }

  // ---------------------------------------------------------------- decoding

  lemma RestOfSlice(s: Str, a: nat, b: nat, k: nat)
    requires a <= b <= |s| && k <= b - a
    ensures s[a..b][k..] == s[a + k..b]
  {
  }

  class DecoderStreamReader<S(!new)> {
    const encodedData: Str
    const codec: Codec<S>
    ghost const plain: Str
    ghost const at: (S, nat, nat) -> bool
    var currentInputOffset: nat
    var inputBytesLeft: nat
    var decoderState: S
    var nextIn: Str // the part of the current chunk that the decoder has not taken
    ghost var produced: nat

    ghost predicate Valid()
      reads this
    {
      && Decodes(codec, encodedData, plain, at)
      && currentInputOffset + inputBytesLeft == |encodedData|
      && |nextIn| <= currentInputOffset
      && nextIn == encodedData[currentInputOffset - |nextIn|..currentInputOffset]
      && produced <= |plain|
      && at(decoderState, currentInputOffset - |nextIn|, produced)
    }

    constructor (encodedData: Str, codec: Codec<S>, ghost plain: Str, ghost at: (S, nat, nat) -> bool)
      requires Decodes(codec, encodedData, plain, at)
      ensures Valid() && this.plain == plain && produced == 0
    {
      this.encodedData, this.codec, this.plain, this.at := encodedData, codec, plain, at;
      var n := if CHUNK_SIZE < |encodedData| then CHUNK_SIZE else |encodedData|;
      currentInputOffset, inputBytesLeft := n, |encodedData| - n;
      nextIn := encodedData[..n];
      decoderState := codec.init;
      produced := 0;
    }

    method ReadNextChunk()
      requires Valid() && nextIn == [] && inputBytesLeft > 0
      modifies this`currentInputOffset, this`inputBytesLeft, this`nextIn
      ensures Valid() && |nextIn| == if CHUNK_SIZE < old(inputBytesLeft) then CHUNK_SIZE else old(inputBytesLeft)
      ensures currentInputOffset - |nextIn| == old(currentInputOffset)
    {
      var n := if CHUNK_SIZE < inputBytesLeft then CHUNK_SIZE else inputBytesLeft;
      nextIn := encodedData[currentInputOffset..currentInputOffset + n];
      currentInputOffset := currentInputOffset + n;
      inputBytesLeft := inputBytesLeft - n;
    }

    /** One decoder call, on a fresh chunk when the last one is used up. It always makes progress. */
    method DecodeMoreBytes(room: nat) returns (out: Str)
      requires Valid() && 0 < room && produced < |plain|
      modifies this
      ensures Valid()
      ensures |out| <= room && produced == old(produced) + |out|
      ensures out == plain[old(produced)..produced]
      ensures (currentInputOffset - |nextIn|) + produced > old(currentInputOffset - |nextIn|) + old(produced)
    {
      hide Decodes;
      if nextIn == [] && inputBytesLeft > 0 { ReadNextChunk(); }
      var i := currentInputOffset - |nextIn|;
      RunIsGood(codec, encodedData, plain, at, decoderState, i, produced, nextIn, room);
      var r := codec.run(decoderState, nextIn, room);
      RestOfSlice(encodedData, i, currentInputOffset, r.consumed);
      decoderState := r.state;
      nextIn := nextIn[r.consumed..];
      produced := produced + |r.out|;
      out := r.out;
    }

    /** The next `nbytes` decoded bytes, whatever the chunking. The loop ends for every request that
        the decoded stream can answer. */
    method ReadImpl(nbytes: nat) returns (buf: Str)
      requires Valid() && produced + nbytes <= |plain|
      modifies this
      ensures Valid() && produced == old(produced) + nbytes
      ensures buf == plain[old(produced)..old(produced) + nbytes]
    {
      buf := [];
      while |buf| != nbytes
        invariant Valid() && |buf| <= nbytes
        invariant produced == old(produced) + |buf|
        invariant buf == plain[old(produced)..produced]
        decreases |encodedData| + |plain| - (currentInputOffset - |nextIn|) - produced
      {
        ghost var before := produced;
        var out := DecodeMoreBytes(nbytes - |buf|);
        assert plain[old(produced)..produced] == plain[old(produced)..before] + plain[before..produced];
        buf := buf + out;
      }
    }
  }
}
