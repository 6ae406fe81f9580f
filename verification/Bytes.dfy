/** Byte strings and reading a file in chunks. */
module Bytes {
  type Byte = x: int | 0 <= x < 256

  /** The chunks that read(size) returns until the end of the file. */
  function Chunks(file: seq<Byte>, size: nat): (chunks: seq<seq<Byte>>)
    requires size > 0
    ensures forall i :: 0 <= i < |chunks| ==> 0 < |chunks[i]| <= size
    ensures Concat(chunks) == file
    decreases |file|
  {
    if |file| == 0 then []
    else if |file| <= size then [file]
    else
      assert file[..size] + file[size..] == file;
      [file[..size]] + Chunks(file[size..], size)
  }

  function Concat(parts: seq<seq<Byte>>): seq<Byte> {
    if parts == [] then [] else parts[0] + Concat(parts[1..])
  }

  lemma {:induction false} ConcatAppend(a: seq<seq<Byte>>, b: seq<seq<Byte>>)
    ensures Concat(a + b) == Concat(a) + Concat(b)
    decreases |a|
  {
    if a == [] {
      assert a + b == b;
    } else {
      assert (a + b)[1..] == a[1..] + b;
      ConcatAppend(a[1..], b);
    }
  }
}
