/** Reading a file through a stream: a cursor, and a flag that a failed step sets for good. */
module Streams {
  import opened Entries
  import opened Codecs

  class InputStream {
    const file: seq<byte>
    var cursor: nat
    var failed: bool

    /** An open file, read from its start. */
    constructor (file: seq<byte>)
      ensures this.file == file && cursor == 0 && !failed
    {
      this.file, cursor, failed := file, 0, false;
    }

    /** Moves to a position; one before the start fails, one past the end does not. */
    method SeekTo(position: int)
      modifies this
      ensures failed == (old(failed) || position < 0)
      ensures cursor == if failed then old(cursor) else position
    {
      if !failed {
        if position < 0 {
          failed := true;
        } else {
          cursor := position;
        }
      }
    }

    /** Moves relative to the cursor. */
    method SeekBy(offset: int)
      modifies this
      ensures failed == (old(failed) || old(cursor) + offset < 0)
      ensures cursor == if failed then old(cursor) else old(cursor) + offset
    {
      SeekTo(cursor + offset);
    }

    /** Reads `n` bytes; a stream that has failed, or ends too soon, leaves the buffer as it was. */
    method Read(n: nat) returns (buffer: seq<byte>)
      modifies this
      ensures |buffer| == n
      ensures failed == (old(failed) || Take(file, old(cursor), n).None?)
      ensures !failed ==> Take(file, old(cursor), n) == Some(buffer) && cursor == old(cursor) + n
    {
      buffer := seq(n, _ => 0);
      if !failed {
        if cursor + n <= |file| {
          buffer := file[cursor..cursor + n];
          cursor := cursor + n;
        } else {
          failed := true;
        }
      }
    }
  }
}
