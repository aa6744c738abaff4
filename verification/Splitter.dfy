// The gateway's frame splitter: a request body cut into frames of width x height
// x 3 bytes, one reused read buffer, sequence ids from one.
module Splitter {
  import opened Common

  datatype MediaChunk = MediaChunk(data: seq<byte>, sequenceId: nat)

  const POOLED_BUFFER: nat := 640 * 480 * 3

  // The whole frames at the front of the body; a partial last frame is dropped.
  function Chop(body: seq<byte>, frameSize: nat): seq<seq<byte>>
    requires frameSize > 0
  {
    if |body| < frameSize then [] else [body[..frameSize]] + Chop(body[frameSize..], frameSize)
  }

  function Flatten(parts: seq<seq<byte>>): seq<byte> {
    if parts == [] then [] else parts[0] + Flatten(parts[1..])
  }

  // Nothing is lost, duplicated or reordered except the incomplete tail.
  lemma {:induction false} ChopExact(body: seq<byte>, frameSize: nat)
    requires frameSize > 0
    ensures Flatten(Chop(body, frameSize)) <= body
    ensures |body| - |Flatten(Chop(body, frameSize))| < frameSize
    ensures forall i :: 0 <= i < |Chop(body, frameSize)| ==> |Chop(body, frameSize)[i]| == frameSize
    decreases |body|
  {
    if |body| >= frameSize {
      var rest := body[frameSize..];
      ChopExact(rest, frameSize);
      var parts := Chop(body, frameSize);
      assert parts[1..] == Chop(rest, frameSize);
      assert body == body[..frameSize] + rest;
    }
  }

  // io.ReadFull: fill the first n bytes of the buffer, or report how many came.
  method ReadFull(body: seq<byte>, buf: array<byte>, n: nat) returns (got: nat)
    requires n <= buf.Length
    modifies buf
    ensures got == Min(n, |body|)
    ensures got == n ==> buf[..n] == body[..n]
  {
    got := Min(n, |body|);
    forall i | 0 <= i < got {
      buf[i] := body[i];
    }
    if got == n {
      assert buf[..n] == body[..n];
    }
  }

  // The producer loop. `body` is what arrives before the end of the request or a
  // read error; both end the loop.
  method SplitFrames(body: seq<byte>, width: nat, height: nat) returns (chunks: seq<MediaChunk>)
    requires 0 < width * height * 3 <= POOLED_BUFFER
    ensures |chunks| == |Chop(body, width * height * 3)|
    ensures forall i :: 0 <= i < |chunks| ==>
              chunks[i] == MediaChunk(Chop(body, width * height * 3)[i], i + 1)
  {
    var buf := new byte[POOLED_BUFFER];
    var frameSize := width * height * 3;
    var sequenceId := 0;
    var rest := body;
    chunks := [];
    while true
      invariant sequenceId == |chunks|
      invariant |chunks| + |Chop(rest, frameSize)| == |Chop(body, frameSize)|
      invariant forall i :: 0 <= i < |chunks| ==> chunks[i] == MediaChunk(Chop(body, frameSize)[i], i + 1)
      invariant Chop(rest, frameSize) == Chop(body, frameSize)[|chunks|..]
      decreases |rest|
    {
      var n := ReadFull(rest, buf, frameSize);
      if n < frameSize {
        break;
      }
      assert Chop(rest, frameSize)[0] == rest[..frameSize];
      rest := rest[frameSize..];
      sequenceId := sequenceId + 1;
      chunks := chunks + [MediaChunk(buf[..frameSize], sequenceId)];
    }
  }
}
