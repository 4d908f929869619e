/** The part of a WAV reader that the streaming client uses: a file opened
    for reading is a fixed sequence of PCM frames and a cursor that each
    `readframes` advances. Container parsing, the sample width and the
    channel layout are not modelled; a frame is one opaque value. */
module WaveReading {

  /** One PCM frame of the audio file. */
  type Frame = int

  /** An open WAV file: its frames and the read position. */
  class WaveReader {
    const frames: seq<Frame>
    var pos: nat

    ghost predicate Valid()
      reads this
    {
      pos <= |frames|
    }

    /** Opening the file positions the cursor on its first frame. */
    constructor Open(contents: seq<Frame>)
      ensures Valid()
      ensures frames == contents && pos == 0
    {
      frames := contents;
      pos := 0;
    }

    /** Returns up to `n` frames from the cursor and moves the cursor past
        them; at the end of the file the result is empty. */
    method ReadFrames(n: nat) returns (d: seq<Frame>)
      requires Valid()
      modifies this
      ensures Valid()
      ensures pos == if old(pos) + n <= |frames| then old(pos) + n else |frames|
      ensures d == frames[old(pos)..pos]
      ensures |d| == 0 <==> old(pos) == |frames| || n == 0
    {
      var end := if pos + n <= |frames| then pos + n else |frames|;
      d := frames[pos..end];
      pos := end;
    }
  }
}
