/** The ClamAV INSTREAM client (malware.py): length-prefixed frames, and the reading of the reply. */
module Instream {
  import opened Wrappers
  import opened Bytes

  const LIMIT := 0x1_0000_0000

  /** "zINSTREAM" and a NUL byte. */
  const COMMAND: seq<Byte> := [122, 73, 78, 83, 84, 82, 69, 65, 77, 0]

  /** struct.pack(">I", n) */
  function Pack(n: nat): (b: seq<Byte>)
    requires n < LIMIT
    ensures |b| == 4
  {
    [n / 0x100_0000, n / 0x1_0000 % 256, n / 256 % 256, n % 256]
  }

  function Unpack(b: seq<Byte>): nat
    requires |b| == 4
  {
    var b0: int, b1: int, b2: int, b3: int := b[0], b[1], b[2], b[3];
    b0 * 0x100_0000 + b1 * 0x1_0000 + b2 * 256 + b3
  }

  /** The most significant byte comes first. */
  lemma UnpackPack(n: nat)
    requires n < LIMIT
    ensures Unpack(Pack(n)) == n
    ensures var b := Pack(n);
      var b0: int, b1: int, b2: int, b3: int := b[0], b[1], b[2], b[3];
      n == ((b0 * 256 + b1) * 256 + b2) * 256 + b3
  {
    var a := n / 256;
    var b := a / 256;
    assert b == n / 0x1_0000 && b / 256 == n / 0x100_0000;
  }

  // ---------- The receiving side ----------

  datatype Decoded = Decoded(frames: seq<seq<Byte>>, rest: seq<Byte>)

  /** Frames up to the first one of length zero, and whatever follows it. */
  function Decode(stream: seq<Byte>): Option<Decoded>
    decreases |stream|
  {
    if |stream| < 4 then None
    else
      var n := Unpack(stream[..4]);
      if n == 0 then Some(Decoded([], stream[4..]))
      else if |stream| < 4 + n then None
      else
        match Decode(stream[4 + n..])
        case None => None
        case Some(d) => Some(Decoded([stream[4..4 + n]] + d.frames, d.rest))
  }

  // ---------- The sending side ----------

  function Frame(chunk: seq<Byte>): seq<Byte>
    requires |chunk| < LIMIT
  {
    Pack(|chunk|) + chunk
  }

  predicate Framable(chunks: seq<seq<Byte>>) {
    forall i :: 0 <= i < |chunks| ==> 0 < |chunks[i]| < LIMIT
  }

  function Frames(chunks: seq<seq<Byte>>): seq<Byte>
    requires Framable(chunks)
  {
    if chunks == [] then [] else Frame(chunks[0]) + Frames(chunks[1..])
  }

  lemma DecodeOne(c: seq<Byte>, tail: seq<Byte>)
    requires 0 < |c| < LIMIT
    ensures Decode(Frame(c) + tail) ==
      match Decode(tail)
      case None => None
      case Some(d) => Some(Decoded([c] + d.frames, d.rest))
  {
    var stream := Frame(c) + tail;
    assert stream[..4] == Pack(|c|);
    UnpackPack(|c|);
    assert stream[4..4 + |c|] == c && stream[4 + |c|..] == tail;
  }

  lemma DecodeEnd(rest: seq<Byte>)
    ensures Decode(Pack(0) + rest) == Some(Decoded([], rest))
  {
    var stream := Pack(0) + rest;
    assert stream[..4] == Pack(0) && stream[4..] == rest;
    UnpackPack(0);
  }

  /** Whatever the chunks contain, decoding gives them back, and what followed the zero frame. */
  lemma {:induction false} DecodeFrames(chunks: seq<seq<Byte>>, rest: seq<Byte>)
    requires Framable(chunks)
    ensures Decode(Frames(chunks) + (Pack(0) + rest)) == Some(Decoded(chunks, rest))
    decreases |chunks|
  {
    if chunks == [] {
      assert Frames(chunks) + (Pack(0) + rest) == Pack(0) + rest;
      DecodeEnd(rest);
    } else {
      var tail := Frames(chunks[1..]) + (Pack(0) + rest);
      assert Frames(chunks) + (Pack(0) + rest) == Frame(chunks[0]) + tail;
      DecodeFrames(chunks[1..], rest);
      DecodeOne(chunks[0], tail);
      assert [chunks[0]] + chunks[1..] == chunks;
    }
  }

  lemma {:induction false} FramesAppend(chunks: seq<seq<Byte>>, last: seq<Byte>)
    requires Framable(chunks) && 0 < |last| < LIMIT
    ensures Framable(chunks + [last]) && Frames(chunks + [last]) == Frames(chunks) + Frame(last)
    decreases |chunks|
  {
    assert Framable(chunks + [last]);
    if chunks == [] {
      assert chunks + [last] == [last] && [last][1..] == [];
    } else {
      assert (chunks + [last])[1..] == chunks[1..] + [last];
      FramesAppend(chunks[1..], last);
    }
  }

  // ---------- The reply ----------

  datatype ScanResult = Clean | Infected(signature: string) | Unavailable

  predicate EndsWith(text: string, suffix: string) {
    |suffix| <= |text| && text[|text| - |suffix|..] == suffix
  }

  /** The part after the first ": ", empty when there is none. */
  function AfterColon(text: string): string {
    if |text| < 2 then "" else if text[0] == ':' && text[1] == ' ' then text[2..] else AfterColon(text[1..])
  }

  lemma DifferentEnds(reply: string)
    ensures EndsWith(reply, " OK") ==> reply[|reply| - 1] == 'K'
    ensures EndsWith(reply, " FOUND") ==> reply[|reply| - 1] == 'D'
  {
    if EndsWith(reply, " OK") { assert reply[|reply| - 1] == reply[|reply| - 3..][2]; }
    if EndsWith(reply, " FOUND") { assert reply[|reply| - 1] == reply[|reply| - 6..][5]; }
  }

  function Interpret(reply: string): (r: ScanResult)
    ensures r == Clean <==> EndsWith(reply, " OK")
    ensures r.Infected? <==> EndsWith(reply, " FOUND")
    ensures r.Infected? ==> r.signature != ""
  {
    DifferentEnds(reply);
    if EndsWith(reply, " OK") then Clean
    else if EndsWith(reply, " FOUND") then
      var signature := AfterColon(reply[..|reply| - |" FOUND"|]);
      Infected(if signature != "" then signature else "unbekannte Signatur")
    else Unavailable
  }

  predicate ColonAt(text: string, i: int) {
    0 <= i < |text| - 1 && text[i] == ':' && text[i + 1] == ' '
  }

  lemma {:induction false} ColonFound(text: string, k: nat)
    requires ColonAt(text, k) && forall i :: 0 <= i < k ==> !ColonAt(text, i)
    ensures AfterColon(text) == text[k + 2..]
    decreases |text|
  {
    if k > 0 {
      var rest := text[1..];
      assert !ColonAt(text, 0);
      forall i | 0 <= i < k - 1
        ensures !ColonAt(rest, i)
      {
        assert !ColonAt(text, i + 1);
      }
      ColonFound(rest, k - 1);
      assert rest[k + 1..] == text[k + 2..];
    }
  }

  lemma {:induction false} NoColon(text: string)
    requires forall i :: !ColonAt(text, i)
    ensures AfterColon(text) == ""
    decreases |text|
  {
    if |text| >= 2 {
      assert !ColonAt(text, 0);
      forall i
        ensures !ColonAt(text[1..], i)
      {
        assert !ColonAt(text, i + 1);
      }
      NoColon(text[1..]);
    }
  }

  /** The signature is what follows the first ": " of the reply; without one a substitute is named. */
  lemma FoundSignature(front: string, k: nat)
    requires forall i :: 0 <= i < k ==> !ColonAt(front, i)
    ensures ColonAt(front, k) && |front| > k + 2 ==> Interpret(front + " FOUND") == Infected(front[k + 2..])
    ensures k == |front| || (k + 2 == |front| && ColonAt(front, k)) ==>
      Interpret(front + " FOUND") == Infected("unbekannte Signatur")
  {
    var reply := front + " FOUND";
    assert reply[|reply| - 6..] == " FOUND" && reply[..|reply| - 6] == front;
    if ColonAt(front, k) {
      ColonFound(front, k);
    } else if k == |front| {
      NoColon(front);
    }
  }

  lemma OneMoreChunk(file: seq<Byte>, frames: seq<seq<Byte>>, offset: nat, end: nat)
    requires offset < end <= |file| && end - offset < LIMIT
    requires Framable(frames) && Concat(frames) == file[..offset]
    ensures var longer := frames + [file[offset..end]];
      Framable(longer) && Concat(longer) == file[..end] && Frames(longer) == Frames(frames) + Frame(file[offset..end])
  {
    var chunk := file[offset..end];
    FramesAppend(frames, chunk);
    ConcatAppend(frames, [chunk]);
    assert Concat([chunk]) == chunk;
    assert file[..offset] + chunk == file[..end];
  }

  /** The receiver reads exactly these frames and then nothing, and they carry the file. */
  ghost predicate Carries(body: seq<Byte>, frames: seq<seq<Byte>>, file: seq<Byte>, chunkSize: nat) {
    && Decode(body) == Some(Decoded(frames, []))
    && Concat(frames) == file
    && (forall i :: 0 <= i < |frames| ==> 0 < |frames[i]| <= chunkSize)
  }

  lemma SentCarries(frames: seq<seq<Byte>>, file: seq<Byte>, chunkSize: nat, sent: seq<Byte>)
    requires Framable(frames) && Concat(frames) == file
    requires forall i :: 0 <= i < |frames| ==> 0 < |frames[i]| <= chunkSize
    requires sent == COMMAND + Frames(frames) + Pack(0)
    ensures COMMAND <= sent && Carries(sent[|COMMAND|..], frames, file, chunkSize)
  {
    DecodeFrames(frames, []);
    assert sent[|COMMAND|..] == Frames(frames) + (Pack(0) + []);
  }

  /**
   scan: the bytes sent for a file, and the verdict. A missing reply stands for any
   connection failure; the reply is the decoded text with trailing NULs stripped.
   */
  method Scan(file: seq<Byte>, chunkSize: nat, reply: Option<string>) returns (sent: seq<Byte>, result: ScanResult)
    requires 0 < chunkSize < LIMIT
    ensures COMMAND <= sent && exists frames :: Carries(sent[|COMMAND|..], frames, file, chunkSize)
    ensures result == Clean <==> reply.Some? && EndsWith(reply.value, " OK")
    ensures result == match reply case None => Unavailable case Some(text) => Interpret(text)
  {
    ghost var frames: seq<seq<Byte>> := [];
    sent := COMMAND;
    var offset := 0;
    while offset < |file|
      invariant 0 <= offset <= |file|
      invariant forall i :: 0 <= i < |frames| ==> 0 < |frames[i]| <= chunkSize
      invariant Framable(frames) && Concat(frames) == file[..offset]
      invariant sent == COMMAND + Frames(frames)
    {
      var end := if offset + chunkSize <= |file| then offset + chunkSize else |file|;
      var chunk := file[offset..end];
      OneMoreChunk(file, frames, offset, end);
      sent := sent + Pack(|chunk|);
      sent := sent + chunk;
      frames := frames + [chunk];
      offset := end;
    }
    sent := sent + Pack(0);
    assert file[..offset] == file;
    SentCarries(frames, file, chunkSize, sent);
    result := match reply case None => Unavailable case Some(text) => Interpret(text);
  }

  /** The chunks of a file, framed, decode to themselves and hold the file. */
  lemma {:induction false} RoundTrip(file: seq<Byte>, size: nat)
    requires 0 < size < LIMIT
    ensures Framable(Chunks(file, size))
    ensures Carries(Frames(Chunks(file, size)) + Pack(0), Chunks(file, size), file, size)
  {
    var chunks := Chunks(file, size);
    DecodeFrames(chunks, []);
    assert Frames(chunks) + (Pack(0) + []) == Frames(chunks) + Pack(0);
  }
}
