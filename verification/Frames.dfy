/**
 Tagged protocol frames over a growing byte buffer: the frontend parser (frame.rs), the backend
 parser (backend.rs) and the encoder (rewrite.rs), with stream properties independent of how the
 bytes arrive.
 */
module Frames {
  import opened Wrappers
  import opened Bytes

  const FRAME_HEADER_LEN := 5
  const FRAME_LENGTH_PREFIX_LEN := 4

  datatype Frame = Frame(tag: byte, payload: bytes)

  /** `encode_frontend_frame`: tag, big-endian length including itself, payload. */
  function EncodeFrame(f: Frame): bytes {
    [f.tag] + PutI32(AsI32(|f.payload| + 4)) + f.payload
  }

  /** The payload length plus the length field is an `i32`. */
  predicate Fits(f: Frame) {
    |f.payload| + 4 < 0x8000_0000
  }

  /** What the front of a buffer holds. */
  datatype Front = NeedMore | BadLength(length: i32) | Whole(frame: Frame, rest: bytes)

  function NextFrame(b: bytes): (r: Front)
    ensures r.Whole? ==> |r.rest| < |b|
  {
    if |b| < FRAME_HEADER_LEN then NeedMore
    else
      var length := GetI32(b, 1);
      if length < FRAME_LENGTH_PREFIX_LEN then BadLength(length)
      else if |b| < 1 + length then NeedMore
      else Whole(Frame(b[0], b[5..1 + length]), b[1 + length..])
  }

  /** The two parsers, reading and consuming the shared buffer in place. */
  class ByteBuffer {
    var data: bytes

    constructor ()
      ensures data == []
    {
      data := [];
    }

    /** `parse_frontend_frame` (frame.rs). */
    method ParseFrontendFrame() returns (r: Result<Option<Frame>, WireError>)
      modifies this
      ensures match NextFrame(old(data))
              case NeedMore => r == Ok(None) && data == old(data)
              case BadLength(n) => r == Err(InvalidFrameLength(n)) && data == old(data)
              case Whole(f, rest) => r == Ok(Some(f)) && data == rest
    {
      if |data| < FRAME_HEADER_LEN {
        return Ok(None);
      }
      var tag := data[0];
      var length: int := GetI32(data, 1);
      if length < FRAME_LENGTH_PREFIX_LEN {
        return Err(InvalidFrameLength(length));
      }
      var payloadLen := length - FRAME_LENGTH_PREFIX_LEN;
      var totalLen := FRAME_HEADER_LEN + payloadLen;
      if |data| < totalLen {
        return Ok(None);
      }
      var frame := data[..totalLen];
      data := data[totalLen..];
      frame := frame[FRAME_HEADER_LEN..];
      r := Ok(Some(Frame(tag, frame)));
    }

    /** `parse_backend_frame` (backend.rs). */
    method ParseBackendFrame() returns (r: Result<Option<Frame>, WireError>)
      modifies this
      ensures match NextFrame(old(data))
              case NeedMore => r == Ok(None) && data == old(data)
              case BadLength(n) => r == Err(InvalidBackendFrameLength(n)) && data == old(data)
              case Whole(f, rest) => r == Ok(Some(f)) && data == rest
    {
      if |data| < FRAME_HEADER_LEN {
        return Ok(None);
      }
      var tag := data[0];
      var length: int := GetI32(data, 1);
      if length < 4 {
        return Err(InvalidBackendFrameLength(length));
      }
      var totalLen := 1 + length;
      if |data| < totalLen {
        return Ok(None);
      }
      data := data[1..];
      data := data[4..];
      assert data == old(data)[5..];
      var payloadLen := length - 4;
      var payload := data[..payloadLen];
      data := data[payloadLen..];
      assert payload == old(data)[5..totalLen];
      r := Ok(Some(Frame(tag, payload)));
    }

    /** Append the bytes of one read and parse until no whole frame is left. */
    method AppendAndDrain(chunk: bytes) returns (frames: seq<Frame>, failure: Option<WireError>)
      modifies this
      ensures Drained(frames, data) == Drain(old(data) + chunk)
      ensures failure.Some? <==> NextFrame(data).BadLength?
    {
      data := data + chunk;
      ghost var all := data;
      frames, failure := [], None;
      while true
        invariant Drain(all) == Drained(frames + Drain(data).frames, Drain(data).rest)
        decreases |data|
      {
        ghost var before := data;
        var r := ParseFrontendFrame();
        match r {
          case Ok(Some(f)) =>
            assert Drain(before).frames == [f] + Drain(data).frames;
            assert frames + ([f] + Drain(data).frames) == frames + [f] + Drain(data).frames;
            frames := frames + [f];
          case Ok(None) =>
            assert frames + [] == frames;
            return;
          case Err(e) =>
            assert frames + [] == frames;
            failure := Some(e);
            return;
        }
      }
    }
  }

  // ------------------------------------------------------- one frame

  lemma EncodedHeader(f: Frame, rest: bytes)
    ensures var b := EncodeFrame(f) + rest;
            |b| == 5 + |f.payload| + |rest| && b[0] == f.tag && GetI32(b, 1) == AsI32(|f.payload| + 4)
            && b[5..5 + |f.payload|] == f.payload && b[5 + |f.payload|..] == rest
  {
    var b := EncodeFrame(f) + rest;
    assert b[1..5] == PutI32(AsI32(|f.payload| + 4));
    I32RoundTrip(b, 1, AsI32(|f.payload| + 4));
  }

  lemma WholeIsEncoded(b: bytes)
    requires NextFrame(b).Whole?
    ensures var r := NextFrame(b); b == EncodeFrame(r.frame) + r.rest && Fits(r.frame)
  {
    hide GetI32, PutI32, AsI32;
    PutGetI32(b, 1);
    var length: int := GetI32(b, 1);
    assert AsI32(length) == length by {
      SmallAsI32(length);
    }
    assert |NextFrame(b).frame.payload| + 4 == length;
    Reassembled(b, 1 + length);
  }

  lemma SmallAsI32(n: i32)
    ensures AsI32(n) == n
  {
  }

  lemma Reassembled(b: bytes, end: nat)
    requires 5 <= end <= |b|
    ensures b == [b[0]] + b[1..5] + b[5..end] + b[end..]
  {
  }

  /** Encoding then decoding is the identity on (frame, rest of the stream) exactly when the length fits. */
  lemma EncodedIsWhole(f: Frame, rest: bytes)
    ensures NextFrame(EncodeFrame(f) + rest) == Whole(f, rest) <==> Fits(f)
  {
    var b := EncodeFrame(f) + rest;
    EncodedHeader(f, rest);
    if Fits(f) {
      assert 1 + GetI32(b, 1) == 5 + |f.payload|;
    } else if NextFrame(b).Whole? {
      assert |NextFrame(b).frame.payload| == AsI32(|f.payload| + 4) - 4;
    }
  }

  /**
   The parser and the encoder define the same relation: a buffer starts with frame `f` exactly when it
   is the encoding of `f` followed by the rest and the length of `f` fits in 32 bits.
   */
  lemma NextFrameIffEncoded(b: bytes, f: Frame, rest: bytes)
    ensures NextFrame(b) == Whole(f, rest) <==> b == EncodeFrame(f) + rest && Fits(f)
  {
    EncodedIsWhole(f, rest);
    if NextFrame(b).Whole? {
      WholeIsEncoded(b);
    }
  }

  /** More bytes never change a frame already complete, nor revive a bad length. */
  lemma NextFrameMonotone(a: bytes, b: bytes)
    ensures NextFrame(a).Whole? ==> NextFrame(a + b) == Whole(NextFrame(a).frame, NextFrame(a).rest + b)
    ensures NextFrame(a).BadLength? ==> NextFrame(a + b) == NextFrame(a)
  {
    if |a| >= FRAME_HEADER_LEN {
      var n := GetI32(a, 1);
      assert GetI32(a + b, 1) == n;
      if 4 <= n && 1 + n <= |a| {
        assert (a + b)[5..1 + n] == a[5..1 + n];
        assert (a + b)[1 + n..] == a[1 + n..] + b;
      }
    }
  }

  // ------------------------------------------------- whole streams

  datatype Drained = Drained(frames: seq<Frame>, rest: bytes)

  /** Parse until no whole frame is left at the front. */
  function Drain(b: bytes): Drained
    decreases |b|
  {
    match NextFrame(b)
    case Whole(f, rest) => var d := Drain(rest); Drained([f] + d.frames, d.rest)
    case _ => Drained([], b)
  }

  /** Append-and-drain, read by read. */
  function Feed(sofar: Drained, chunks: seq<bytes>): Drained
    decreases |chunks|
  {
    if chunks == [] then sofar
    else
      var d := Drain(sofar.rest + chunks[0]);
      Feed(Drained(sofar.frames + d.frames, d.rest), chunks[1..])
  }

  function Concat(chunks: seq<bytes>): bytes {
    if chunks == [] then [] else chunks[0] + Concat(chunks[1..])
  }

  function EncodeAll(frames: seq<Frame>): bytes {
    if frames == [] then [] else EncodeFrame(frames[0]) + EncodeAll(frames[1..])
  }

  lemma DrainStep(b: bytes)
    ensures match NextFrame(b)
            case Whole(f, rest) => Drain(b) == Drained([f] + Drain(rest).frames, Drain(rest).rest)
            case _ => Drain(b) == Drained([], b)
  {
    hide NextFrame;
  }

  lemma {:induction false} DrainSplit(a: bytes, b: bytes)
    ensures var d := Drain(a); var e := Drain(d.rest + b); Drain(a + b) == Drained(d.frames + e.frames, e.rest)
    decreases |a|
  {
    hide NextFrame, Drain;
    DrainStep(a);
    match NextFrame(a) {
      case Whole(f, rest) =>
        NextFrameMonotone(a, b);
        DrainStep(a + b);
        DrainSplit(rest, b);
        var d := Drain(rest);
        var e := Drain(d.rest + b);
        assert [f] + (d.frames + e.frames) == [f] + d.frames + e.frames;
      case _ =>
        assert [] + Drain(a + b).frames == Drain(a + b).frames;
    }
  }

  lemma {:induction false} FeedIsDrain(sofar: Drained, whole: bytes, chunks: seq<bytes>)
    requires sofar == Drain(whole)
    ensures Feed(sofar, chunks) == Drain(whole + Concat(chunks))
    decreases |chunks|
  {
    hide NextFrame;
    if chunks == [] {
      assert whole + Concat(chunks) == whole;
    } else {
      DrainSplit(whole, chunks[0]);
      var d := Drain(sofar.rest + chunks[0]);
      FeedIsDrain(Drained(sofar.frames + d.frames, d.rest), whole + chunks[0], chunks[1..]);
      assert whole + Concat(chunks) == whole + chunks[0] + Concat(chunks[1..]);
    }
  }

  /** However a byte stream is cut into reads, the frames and the leftover are those of the whole stream. */
  lemma ChunkInvariance(chunks: seq<bytes>)
    ensures Feed(Drained([], []), chunks) == Drain(Concat(chunks))
  {
    FeedIsDrain(Drained([], []), [], chunks);
    assert [] + Concat(chunks) == Concat(chunks);
  }

  /** Nothing is lost or invented: the drained frames re-encode, in order, to the bytes consumed. */
  lemma {:induction false} DrainConserves(b: bytes)
    ensures EncodeAll(Drain(b).frames) + Drain(b).rest == b
    decreases |b|
  {
    match NextFrame(b) {
      case Whole(f, rest) =>
        NextFrameIffEncoded(b, f, rest);
        DrainConserves(rest);
        var fs := Drain(rest).frames;
        assert ([f] + fs)[1..] == fs;
        assert EncodeAll([f] + fs) + Drain(rest).rest == EncodeFrame(f) + (EncodeAll(fs) + Drain(rest).rest);
      case _ =>
        assert EncodeAll([]) + b == b;
    }
  }

  /** A stream of encoded frames drains back to exactly those frames, whatever incomplete tail follows. */
  lemma {:induction false} DrainEncodeAll(frames: seq<Frame>, tail: bytes)
    requires forall i :: 0 <= i < |frames| ==> Fits(frames[i])
    requires !NextFrame(tail).Whole?
    ensures Drain(EncodeAll(frames) + tail) == Drained(frames, tail)
  {
    if frames == [] {
      assert EncodeAll(frames) + tail == tail;
    } else {
      var more := EncodeAll(frames[1..]) + tail;
      assert EncodeAll(frames) + tail == EncodeFrame(frames[0]) + more;
      EncodedIsWhole(frames[0], more);
      DrainEncodeAll(frames[1..], tail);
      assert [frames[0]] + frames[1..] == frames;
    }
  }
}
