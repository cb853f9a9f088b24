/**
 * The inbound audio chunker of `handle_twilio_messages`: decoded caller
 * audio is appended to a byte buffer, and while the buffer holds at least
 * BufferSize bytes its first BufferSize bytes are sent to the agent as one
 * binary frame and dropped from the buffer.
 *
 * Frames and Remainder say what that loop leaves behind for a given buffer
 * content: the frames it sends, in order, and the bytes it keeps.
 */
module Chunker {
  import opened Bytes

  /** Twenty Twilio media messages of 160 bytes of 8 kHz mu-law audio. */
  const BufferSize: nat := 20 * 160

  /** Every frame is exactly one BufferSize-byte block. */
  predicate AllFull(fs: seq<seq<Byte>>) {
    forall i | 0 <= i < |fs| :: |fs[i]| == BufferSize
  }

  /** The bytes of the frames, one after the other. */
  function Flatten(fs: seq<seq<Byte>>): seq<Byte> {
    if |fs| == 0 then [] else fs[0] + Flatten(fs[1..])
  }

  /** The frames the loop sends for a buffer holding s. */
  function Frames(s: seq<Byte>): (fs: seq<seq<Byte>>)
    ensures AllFull(fs)
    decreases |s|
  {
    if |s| < BufferSize then [] else [s[..BufferSize]] + Frames(s[BufferSize..])
  }

  /** The bytes the loop keeps, fewer than one frame. */
  function Remainder(s: seq<Byte>): (r: seq<Byte>)
    ensures |r| < BufferSize
    decreases |s|
  {
    if |s| < BufferSize then s else Remainder(s[BufferSize..])
  }

  lemma {:induction false} FlattenAppend(fs: seq<seq<Byte>>, gs: seq<seq<Byte>>)
    ensures Flatten(fs + gs) == Flatten(fs) + Flatten(gs)
    decreases |fs|
  {
    if |fs| == 0 {
      assert fs + gs == gs;
    } else {
      assert (fs + gs)[1..] == fs[1..] + gs;
      FlattenAppend(fs[1..], gs);
    }
  }

  /** The loop loses and invents no byte: the frames followed by what is
      kept are exactly the buffer it started from. */
  lemma {:induction false} FramesRemainder(s: seq<Byte>)
    ensures Flatten(Frames(s)) + Remainder(s) == s
    decreases |s|
  {
    if |s| >= BufferSize {
      var head, rest := s[..BufferSize], s[BufferSize..];
      var fs := Frames(rest);
      FramesRemainder(rest);
      assert Frames(s) == [head] + fs;
      assert ([head] + fs)[1..] == fs;
      assert Flatten(Frames(s)) == head + Flatten(fs);
      assert head + rest == s;
    }
  }

  /** Feeding s and then t gives the frames of s, then the frames of what s
      left over followed by t: audio arriving in two pieces is framed as if
      it had arrived in one. */
  lemma {:induction false} FramesAppend(s: seq<Byte>, t: seq<Byte>)
    ensures Frames(s + t) == Frames(s) + Frames(Remainder(s) + t)
    ensures Remainder(s + t) == Remainder(Remainder(s) + t)
    decreases |s|
  {
    if |s| >= BufferSize {
      assert (s + t)[..BufferSize] == s[..BufferSize];
      assert (s + t)[BufferSize..] == s[BufferSize..] + t;
      FramesAppend(s[BufferSize..], t);
    }
  }

  /** Full frames and a short remainder that together make up s can only be
      the frames and the remainder of s: the output depends on the bytes
      received and not on how they were split into payloads. */
  lemma {:induction false} FramesUnique(fs: seq<seq<Byte>>, r: seq<Byte>, s: seq<Byte>)
    requires AllFull(fs) && |r| < BufferSize
    requires Flatten(fs) + r == s
    ensures fs == Frames(s) && r == Remainder(s)
    decreases |fs|
  {
    if |fs| > 0 {
      var rest := Flatten(fs[1..]) + r;
      assert s == fs[0] + rest;
      assert s[..BufferSize] == fs[0];
      assert s[BufferSize..] == rest;
      FramesUnique(fs[1..], r, rest);
      assert fs == [fs[0]] + fs[1..];
    }
  }

  /** Appending a chunk to a buffer holding less than a frame, after frames
      already sent: the frames stay full, less than a frame stays, and the
      bytes sent and kept grow by exactly the chunk. */
  lemma Feed(sent: seq<seq<Byte>>, buffer: seq<Byte>, chunk: seq<Byte>)
    requires AllFull(sent)
    ensures var full := buffer + chunk;
      && AllFull(sent + Frames(full))
      && Flatten(sent + Frames(full)) + Remainder(full) == Flatten(sent) + buffer + chunk
  {
    var full := buffer + chunk;
    var fs := Frames(full);
    FlattenAppend(sent, fs);
    FramesRemainder(full);
    calc {
      Flatten(sent + fs) + Remainder(full);
      (Flatten(sent) + Flatten(fs)) + Remainder(full);
      Flatten(sent) + (Flatten(fs) + Remainder(full));
      Flatten(sent) + full;
    }
    assert forall i | 0 <= i < |sent + fs| :: (sent + fs)[i] == if i < |sent| then sent[i] else fs[i - |sent|];
  }
}
