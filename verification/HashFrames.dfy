/** The frames that carry a hash input to the component: 256-byte chunks, each
    as thirty-two little-endian words with a length and a last mark. */
module HashFrames {
  import opened Common
  import opened LittleEndian

  datatype Frame = Frame(words: seq<nat>, used: nat, last: bool)

  const CHUNK := 256
  const WORD := 8
  const LIMIT := 64 * 1024

  /** Eight bytes from `offset`, with zeros past the end. */
  function Padded(bytes: seq<byte>, offset: nat): (r: seq<byte>)
    ensures |r| == WORD
  {
    seq(WORD, j => if 0 <= offset + j < |bytes| then bytes[offset + j] else 0)
  }

  /** One word: the chunk's bytes are copied over a zeroed buffer. */
  method InputWord(bytes: seq<byte>, offset: nat) returns (word: nat)
    ensures word == FromLittleEndian(Padded(bytes, offset))
    ensures word < 0x1_0000_0000_0000_0000
  {
    var buffer := new byte[WORD](_ => 0);
    if offset < |bytes| {
      var end := if |bytes| < offset + WORD then |bytes| else offset + WORD;
      for j := 0 to end - offset
        invariant forall i :: 0 <= i < WORD ==> buffer[i] == if i < j then bytes[offset + i] else 0
      {
        buffer[j] := bytes[offset + j];
      }
    }
    assert buffer[..] == Padded(bytes, offset);
    word := FromLittleEndian(buffer[..]);
    LittleEndianFits(buffer[..]);
  }

  function InputChunk(bytes: seq<byte>, last: bool): Frame
    requires |bytes| <= CHUNK
  {
    Frame(seq(CHUNK / WORD, i requires 0 <= i => FromLittleEndian(Padded(bytes, WORD * i))), |bytes|, last)
  }

  function DivCeil(n: nat): nat { (n + CHUNK - 1) / CHUNK }

  /** The `i`th run of at most 256 bytes. */
  function Chunk(bytes: seq<byte>, i: nat): seq<byte>
    requires i < DivCeil(|bytes|)
  {
    bytes[CHUNK * i..Min(CHUNK * (i + 1), |bytes|)]
  }

  function Frames(bytes: seq<byte>): seq<Frame> {
    seq(DivCeil(|bytes|), i requires 0 <= i < DivCeil(|bytes|) =>
      InputChunk(Chunk(bytes, i), i + 1 == DivCeil(|bytes|)))
    + if bytes == [] then [InputChunk([], true)] else []
  }

  /** `update`: an input over the limit is rejected before anything is framed. */
  function Update(bytes: seq<byte>): Option<seq<Frame>> {
    if |bytes| > LIMIT then None else Some(Frames(bytes))
  }

  // The reader's side.

  predicate Readable(f: Frame) {
    f.used <= CHUNK && |f.words| == CHUNK / WORD
  }

  function UnpackFrame(f: Frame): seq<byte>
    requires Readable(f)
  {
    seq(f.used, p requires 0 <= p < f.used => ToLittleEndian(f.words[p / WORD], WORD)[p % WORD])
  }

  function Unpack(frames: seq<Frame>): seq<byte>
    requires forall i :: 0 <= i < |frames| ==> Readable(frames[i])
  {
    if frames == [] then []
    else Unpack(frames[..|frames| - 1]) + UnpackFrame(frames[|frames| - 1])
  }

  lemma FrameRoundTrip(bytes: seq<byte>, last: bool)
    requires |bytes| <= CHUNK
    ensures Readable(InputChunk(bytes, last)) && UnpackFrame(InputChunk(bytes, last)) == bytes
  {
    var f := InputChunk(bytes, last);
    forall p | 0 <= p < |bytes| ensures ToLittleEndian(f.words[p / WORD], WORD)[p % WORD] == bytes[p] {
      LittleEndianRoundTrip(Padded(bytes, WORD * (p / WORD)));
      assert WORD * (p / WORD) + p % WORD == p;
    }
  }

  lemma FramesAreReadable(bytes: seq<byte>)
    ensures forall i :: 0 <= i < |Frames(bytes)| ==> Readable(Frames(bytes)[i])
  {
    hide Padded;
  }

  lemma ChunkExtends(bytes: seq<byte>, n: nat)
    requires 0 < n <= DivCeil(|bytes|)
    ensures bytes[..Min(CHUNK * (n - 1), |bytes|)] + Chunk(bytes, n - 1) == bytes[..Min(CHUNK * n, |bytes|)]
  {
    assert CHUNK * (n - 1) < |bytes|;
  }

  lemma {:induction false} FirstFramesUnpack(bytes: seq<byte>, frames: seq<Frame>, n: nat)
    requires frames == Frames(bytes) && n <= DivCeil(|bytes|)
    requires forall i :: 0 <= i < |frames| ==> Readable(frames[i])
    ensures Unpack(frames[..n]) == bytes[..Min(CHUNK * n, |bytes|)]
    decreases n
  {
    if n > 0 {
      FirstFramesUnpack(bytes, frames, n - 1);
      assert frames[..n][..n - 1] == frames[..n - 1];
      FrameRoundTrip(Chunk(bytes, n - 1), n == DivCeil(|bytes|));
      ChunkExtends(bytes, n);
    }
  }

  /** Reading the frames of any input gives the input back. */
  lemma FramesRoundTrip(bytes: seq<byte>)
    ensures forall i :: 0 <= i < |Frames(bytes)| ==> Readable(Frames(bytes)[i])
    ensures Unpack(Frames(bytes)) == bytes
  {
    hide InputChunk, UnpackFrame, Padded, Readable;
    var frames := Frames(bytes);
    FramesAreReadable(bytes);
    if bytes == [] {
      FrameRoundTrip([], true);
      assert frames == [InputChunk([], true)];
      assert Unpack([]) == [];
    } else {
      FirstFramesUnpack(bytes, frames, |frames|);
      assert frames[..|frames|] == frames;
    }
  }

  /** Exactly one frame is marked last, it is the final one, and every frame
      before it is full. */
  lemma OneLastFrameAtTheEnd(bytes: seq<byte>)
    ensures var frames := Frames(bytes);
            && frames != []
            && (forall i :: 0 <= i < |frames| ==> (frames[i].last <==> i == |frames| - 1))
            && (forall i :: 0 <= i < |frames| - 1 ==> frames[i].used == CHUNK)
            && (frames[|frames| - 1].used == 0 <==> bytes == [])
  {
  }

  /** What reaches the component names one input, and only within the limit. */
  lemma UpdatesAreFaithful(a: seq<byte>, b: seq<byte>)
    ensures Update(a).Some? <==> |a| <= LIMIT
    ensures Update(a).Some? && Update(a) == Update(b) ==> a == b
    ensures Update(a).Some? ==> |Update(a).value| <= LIMIT / CHUNK
  {
    hide InputChunk, Unpack, Padded;
    FramesRoundTrip(a);
    FramesRoundTrip(b);
  }
}
