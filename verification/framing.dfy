/** The multipart framing `generate_frames` wraps around every encoded frame
    (`multipart/x-mixed-replace` with boundary `frame`). */
module Framing {
  import opened Camera

  /** The bytes of an ASCII string. */
  function Ascii(s: string): (r: Bytes)
    requires forall i | 0 <= i < |s| :: s[i] as int < 128
    ensures |r| == |s|
    ensures forall i | 0 <= i < |s| :: r[i] as int == s[i] as int
  {
    seq(|s|, i requires 0 <= i < |s| => s[i] as int as byte)
  }

  /** Boundary line and part header that precede the JPEG bytes. */
  const Prefix: Bytes := Ascii("--frame\r\nContent-Type: image/jpeg\r\n\r\n")

  /** Line end that follows the JPEG bytes. */
  const Suffix: Bytes := Ascii("\r\n")

  /** One chunk of the stream body. */
  function Chunk(jpeg: Bytes): Bytes
  {
    Prefix + jpeg + Suffix
  }

  /** What a client reading one chunk recovers: the bytes between the fixed
      prefix and suffix, or None when the chunk is not framed that way. */
  function Unframe(c: Bytes): Option<Bytes>
  {
    if |c| >= |Prefix| + |Suffix| && c[..|Prefix|] == Prefix && c[|c| - |Suffix|..] == Suffix
    then Some(c[|Prefix|..|c| - |Suffix|])
    else None
  }

  /** Stripping the framing from a chunk gives back the JPEG bytes. */
  lemma UnframeChunk(jpeg: Bytes)
    ensures Unframe(Chunk(jpeg)) == Some(jpeg)
  {
    var c := Chunk(jpeg);
    assert c[..|Prefix|] == Prefix;
    assert c[|c| - |Suffix|..] == Suffix;
    assert c[|Prefix|..|c| - |Suffix|] == jpeg;
  }

  /** A chunk unframes to `jpeg` exactly when it is the chunk of `jpeg`. */
  lemma UnframeExactlyChunks(c: Bytes, jpeg: Bytes)
    ensures Unframe(c) == Some(jpeg) <==> c == Chunk(jpeg)
  {
    if c == Chunk(jpeg) {
      UnframeChunk(jpeg);
    }
    if Unframe(c) == Some(jpeg) {
      calc {
        c;
        c[..|Prefix|] + c[|Prefix|..|c| - |Suffix|] + c[|c| - |Suffix|..];
        Prefix + jpeg + Suffix;
      }
    }
  }

  /** Different frames give different chunks. */
  lemma ChunkInjective(a: Bytes, b: Bytes)
    requires Chunk(a) == Chunk(b)
    ensures a == b
  {
    UnframeChunk(a);
    UnframeChunk(b);
  }

  /** A chunk is 39 bytes longer than its frame. */
  lemma ChunkLength(jpeg: Bytes)
    ensures |Chunk(jpeg)| == |jpeg| + 39
  {
  }
}
