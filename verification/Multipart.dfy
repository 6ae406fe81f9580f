/**
 The multipart/form-data body of the HTTP connector (connectors.py) and a parser for it
 that follows section 5.1.1 of RFC 2046 as used by section 4.1 of RFC 7578.
 */
module Multipart {
  import opened Wrappers
  import opened Bytes

  const CR: Byte := 13
  const LF: Byte := 10
  const DASH: Byte := 45
  const CRLF: seq<Byte> := [13, 10]
  const BLANK_LINE: seq<Byte> := [13, 10, 13, 10]
  const DASHES: seq<Byte> := [45, 45]

  function Ascii(text: string): (b: seq<Byte>)
    requires forall i :: 0 <= i < |text| ==> text[i] as int < 128
    ensures |b| == |text| && forall i :: 0 <= i < |text| ==> b[i] == text[i] as int
  {
    seq(|text|, i requires 0 <= i < |text| => text[i] as int)
  }

  // ---------- Searching ----------

  predicate At(text: seq<Byte>, pattern: seq<Byte>, i: int) {
    0 <= i <= |text| - |pattern| && text[i..i + |pattern|] == pattern
  }

  ghost predicate Contains(text: seq<Byte>, pattern: seq<Byte>) {
    exists i :: At(text, pattern, i)
  }

  /** The first position of the pattern, as bytes.find. */
  function Find(text: seq<Byte>, pattern: seq<Byte>): (r: Option<nat>)
    ensures r.Some? ==> At(text, pattern, r.value) && forall i :: 0 <= i < r.value ==> !At(text, pattern, i)
    ensures r == None ==> forall i :: !At(text, pattern, i)
  {
    FindFrom(text, pattern, 0)
  }

  function FindFrom(text: seq<Byte>, pattern: seq<Byte>, from: nat): (r: Option<nat>)
    requires forall i :: 0 <= i < from ==> !At(text, pattern, i)
    ensures r.Some? ==> At(text, pattern, r.value) && forall i :: 0 <= i < r.value ==> !At(text, pattern, i)
    ensures r == None ==> forall i :: !At(text, pattern, i)
    decreases |text| - from
  {
    if |text| < from + |pattern| then None
    else if At(text, pattern, from) then Some(from)
    else FindFrom(text, pattern, from + 1)
  }

  // ---------- The parser ----------

  datatype Part = Part(headers: seq<Byte>, content: seq<Byte>)

  function Delimiter(boundary: seq<Byte>): seq<Byte> {
    CRLF + DASHES + boundary
  }

  /** The header lines end at the first blank line. */
  function SplitHeaders(part: seq<Byte>): (r: Option<Part>)
    ensures r.Some? ==> part == r.value.headers + BLANK_LINE + r.value.content
  {
    match Find(part, BLANK_LINE)
    case None => None
    case Some(i) =>
      assert part == part[..i] + part[i..i + 4] + part[i + 4..];
      Some(Part(part[..i], part[i + 4..]))
  }

  /** Transport padding: spaces and tabs after a boundary. */
  function SkipPadding(text: seq<Byte>): (r: seq<Byte>)
    ensures |r| <= |text|
  {
    if text != [] && (text[0] == 32 || text[0] == 9) then SkipPadding(text[1..]) else text
  }

  /** After a dash-boundary: padding, a line break, and one part up to the next delimiter; and what follows that. */
  function NextPart(text: seq<Byte>, boundary: seq<Byte>): (r: Option<(Part, seq<Byte>)>)
    ensures r.Some? ==> |r.value.1| < |text|
  {
    var line := SkipPadding(text);
    if !(CRLF <= line) then None
    else
      var tail := line[2..];
      match Find(tail, Delimiter(boundary))
      case None => None
      case Some(i) =>
        match SplitHeaders(tail[..i])
        case None => None
        case Some(part) => Some((part, tail[i + |Delimiter(boundary)|..]))
  }

  /** What follows a dash-boundary: the close mark, or one part and the rest. */
  function ParseParts(text: seq<Byte>, boundary: seq<Byte>): Option<seq<Part>>
    decreases |text|
  {
    if DASHES <= text then Some([])
    else
      match NextPart(text, boundary)
      case None => None
      case Some((part, rest)) =>
        match ParseParts(rest, boundary)
        case None => None
        case Some(parts) => Some([part] + parts)
  }

  function Parse(body: seq<Byte>, boundary: seq<Byte>): Option<seq<Part>> {
    if DASHES + boundary <= body then ParseParts(body[|DASHES + boundary|..], boundary) else None
  }

  // ---------- One part ----------

  /** Header text in which no CR starts a blank line or a line beginning with a dash. */
  ghost predicate HeaderLines(headers: seq<Byte>) {
    forall i :: 0 <= i < |headers| && headers[i] == CR ==>
      i + 2 < |headers| && headers[i + 2] != CR && headers[i + 2] != DASH
  }

  /** The content, read on its own line, holds the delimiter nowhere. */
  ghost predicate Separable(content: seq<Byte>, boundary: seq<Byte>) {
    !Contains(CRLF + content, Delimiter(boundary))
  }

  function Encoded(part: Part): seq<Byte> {
    part.headers + BLANK_LINE + part.content
  }

  lemma ByteAt(text: seq<Byte>, pattern: seq<Byte>, i: int, k: int)
    requires At(text, pattern, i) && 0 <= k < |pattern|
    ensures text[i + k] == pattern[k]
  {
    assert text[i..i + |pattern|][k] == text[i + k];
  }

  lemma BlankLineFirst(part: Part)
    requires HeaderLines(part.headers)
    ensures SplitHeaders(Encoded(part)) == Some(part)
  {
    var text := Encoded(part);
    var n := |part.headers|;
    assert text[n..n + 4] == BLANK_LINE && At(text, BLANK_LINE, n);
    forall i | 0 <= i < n
      ensures !At(text, BLANK_LINE, i)
    {
      if At(text, BLANK_LINE, i) {
        ByteAt(text, BLANK_LINE, i, 0);
        ByteAt(text, BLANK_LINE, i, 2);
      }
    }
    assert Find(text, BLANK_LINE) == Some(n);
    assert text[..n] == part.headers && text[n + 4..] == part.content;
  }

  lemma DelimiterBytes(boundary: seq<Byte>)
    ensures var d := Delimiter(boundary);
      |d| >= 4 && d[0] == CR && d[1] == LF && d[2] == DASH
    ensures CR !in boundary ==> forall k :: 1 <= k < |Delimiter(boundary)| ==> Delimiter(boundary)[k] != CR
  {
    var d := Delimiter(boundary);
    forall k | 4 <= k < |d|
      ensures d[k] in boundary
    {
      assert d[k] == boundary[k - 4];
    }
  }

  /** A delimiter cannot start inside the header lines. */
  lemma NoDelimiterInHeaders(part: Part, rest: seq<Byte>, boundary: seq<Byte>, i: int)
    requires HeaderLines(part.headers) && At(Encoded(part) + rest, Delimiter(boundary), i)
    ensures |part.headers| + 2 <= i
  {
    var text, d := Encoded(part) + rest, Delimiter(boundary);
    DelimiterBytes(boundary);
    ByteAt(text, d, i, 0);
    ByteAt(text, d, i, 1);
    ByteAt(text, d, i, 2);
  }

  /** Nor overlap the delimiter that follows the content, since a boundary has no CR. */
  lemma NoDelimiterAcross(part: Part, rest: seq<Byte>, boundary: seq<Byte>, i: int)
    requires HeaderLines(part.headers) && CR !in boundary
    requires At(Encoded(part) + (Delimiter(boundary) + rest), Delimiter(boundary), i)
    requires i < |Encoded(part)|
    ensures At(CRLF + part.content, Delimiter(boundary), i - |part.headers| - 2)
  {
    var d := Delimiter(boundary);
    var text := Encoded(part) + (d + rest);
    var n := |Encoded(part)|;
    NoDelimiterInHeaders(part, d + rest, boundary, i);
    DelimiterBytes(boundary);
    assert text[n] == d[0];
    if n < i + |d| { ByteAt(text, d, i, n - i); }
    assert i + |d| <= n;
    var own := CRLF + part.content;
    var h := |part.headers| + 2;
    assert Encoded(part)[h..] == own;
    assert text[i..i + |d|] == own[i - h..i - h + |d|];
  }

  /** A delimiter in the content shows up before the one that follows it. */
  lemma ContentDelimiter(part: Part, rest: seq<Byte>, boundary: seq<Byte>, j: int)
    requires At(CRLF + part.content, Delimiter(boundary), j)
    ensures var i := |part.headers| + 2 + j;
      0 <= i < |Encoded(part)| && At(Encoded(part) + rest, Delimiter(boundary), i)
  {
    var d, h, own := Delimiter(boundary), |part.headers| + 2, CRLF + part.content;
    var text := Encoded(part) + rest;
    assert Encoded(part)[h..] == own;
    assert text[h + j..h + j + |d|] == Encoded(part)[h..][j..j + |d|] == own[j..j + |d|];
  }

  lemma EndDelimiter(part: Part, rest: seq<Byte>, boundary: seq<Byte>)
    ensures At(Encoded(part) + (Delimiter(boundary) + rest), Delimiter(boundary), |Encoded(part)|)
  {
    var d, n := Delimiter(boundary), |Encoded(part)|;
    assert (Encoded(part) + (d + rest))[n..n + |d|] == d;
  }

  /** The next delimiter is found at the end of the content exactly when the content is separable. */
  lemma {:induction false} FindsEnd(part: Part, rest: seq<Byte>, boundary: seq<Byte>)
    requires HeaderLines(part.headers) && CR !in boundary
    ensures var found := Find(Encoded(part) + (Delimiter(boundary) + rest), Delimiter(boundary));
      && found.Some? && found.value <= |Encoded(part)|
      && (found.value == |Encoded(part)| <==> Separable(part.content, boundary))
  {
    var d := Delimiter(boundary);
    EndDelimiter(part, rest, boundary);
    var found := Find(Encoded(part) + (d + rest), d);
    if found.value < |Encoded(part)| {
      NoDelimiterAcross(part, rest, boundary, found.value);
    } else if Contains(CRLF + part.content, d) {
      var j :| At(CRLF + part.content, d, j);
      ContentDelimiter(part, d + rest, boundary, j);
    }
  }

  /** The next part is this one exactly when it is separable; and then the rest is what follows its delimiter. */
  lemma {:induction false} NextPartExactly(part: Part, rest: seq<Byte>, boundary: seq<Byte>)
    requires HeaderLines(part.headers) && CR !in boundary
    ensures var next := NextPart(CRLF + (Encoded(part) + (Delimiter(boundary) + rest)), boundary);
      && (Separable(part.content, boundary) ==> next == Some((part, rest)))
      && (next.Some? && next.value.0 == part ==> Separable(part.content, boundary))
  {
    var d := Delimiter(boundary);
    var tail := Encoded(part) + (d + rest);
    var text := CRLF + tail;
    assert text[0] == CR && text[2..] == tail && SkipPadding(text) == text;
    FindsEnd(part, rest, boundary);
    var i := Find(tail, d).value;
    if Separable(part.content, boundary) {
      assert tail[..i] == Encoded(part) && tail[i + |d|..] == rest;
      BlankLineFirst(part);
    } else {
      assert |tail[..i]| < |Encoded(part)|;
    }
  }

  /** One part, its delimiter and the rest: the part is read back exactly when it is separable. */
  lemma {:induction false} ParsePart(part: Part, rest: seq<Byte>, boundary: seq<Byte>)
    requires HeaderLines(part.headers) && CR !in boundary
    ensures var parsed := ParseParts(CRLF + (Encoded(part) + (Delimiter(boundary) + rest)), boundary);
      && (Separable(part.content, boundary) ==>
            parsed == match ParseParts(rest, boundary) case None => None case Some(parts) => Some([part] + parts))
      && (parsed.Some? && parsed.value != [] && parsed.value[0] == part ==> Separable(part.content, boundary))
  {
    var text := CRLF + (Encoded(part) + (Delimiter(boundary) + rest));
    NextPartExactly(part, rest, boundary);
    assert text[0] == CR;
  }

  // ---------- The body ----------

  /** re.sub('[\r\n"]+', "_", name), on the encoded name. */
  function SanitizeName(name: seq<Byte>): (r: seq<Byte>)
    ensures forall i :: 0 <= i < |r| ==> r[i] != CR && r[i] != LF && r[i] != 34
    ensures (forall i :: 0 <= i < |name| ==> !Unsafe(name[i])) ==> r == name
    decreases |name|
  {
    if name == [] then []
    else if Unsafe(name[0]) then [95] + SanitizeName(SkipUnsafe(name))
    else [name[0]] + SanitizeName(name[1..])
  }

  predicate Unsafe(b: Byte) {
    b == CR || b == LF || b == 34
  }

  function SkipUnsafe(name: seq<Byte>): (r: seq<Byte>)
    ensures |r| <= |name| && (name != [] && Unsafe(name[0]) ==> |r| < |name|)
  {
    if name != [] && Unsafe(name[0]) then SkipUnsafe(name[1..]) else name
  }

  /** Bytes of one header line. */
  type Line = b: seq<Byte> | forall i :: 0 <= i < |b| ==> b[i] != CR witness []

  function ContentDisposition(): Line {
    Ascii("Content-") + Ascii("Disposition") + Ascii(": form-data") + Ascii("; name=\"")
  }

  function ContentType(): (b: Line)
    ensures b != [] && b[0] == 'C' as int
  {
    Ascii("Content-Type: ")
  }

  function MetadataHeaders(): (b: seq<Byte>)
    ensures HeaderLines(b)
  {
    var second: Line := ContentType() + Ascii("application/") + Ascii("json; ") + Ascii("charset=") + Ascii("utf-8");
    TwoLines(ContentDisposition() + Ascii("metadata\""), second);
    ContentDisposition() + Ascii("metadata\"") + CRLF + second
  }

  function FileHeaders(filename: seq<Byte>, contentType: seq<Byte>): (b: seq<Byte>)
    ensures CR !in contentType ==> HeaderLines(b)
  {
    var first: Line := ContentDisposition() + Ascii("file\"; ") + Ascii("filename=\"") + SanitizeName(filename) + [34];
    var second := ContentType() + contentType;
    assert CR !in contentType ==> HeaderLines(first + CRLF + second) by {
      if CR !in contentType { TwoLines(first, second); }
    }
    first + CRLF + second
  }

  lemma TwoLines(first: Line, second: seq<Byte>)
    requires forall i :: 0 <= i < |second| ==> second[i] != CR
    requires second != [] && second[0] != DASH
    ensures HeaderLines(first + CRLF + second)
  {
  }

  class MultipartBody {
    const boundary: seq<Byte>
    const metadata: seq<Byte>
    const filename: seq<Byte>
    const contentType: seq<Byte>
    const file: seq<Byte>
    const chunkSize: nat
    const metadataPart: seq<Byte>
    const fileHeader: seq<Byte>
    const closing: seq<Byte>
    const contentLength: nat

    ghost predicate Valid() {
      && metadataPart == DASHES + boundary + (CRLF + (MetadataHeaders() + BLANK_LINE + metadata + CRLF))
      && fileHeader == DASHES + boundary + (CRLF + (FileHeaders(filename, contentType) + BLANK_LINE))
      && closing == CRLF + DASHES + boundary + (DASHES + CRLF)
      && contentLength == |metadataPart| + |fileHeader| + |file| + |closing|
      && chunkSize > 0
    }

    constructor (
        boundary: seq<Byte>, metadata: seq<Byte>, filename: seq<Byte>, contentType: seq<Byte>, file: seq<Byte>,
        chunkSize: nat)
      requires chunkSize > 0
      ensures Valid()
      ensures this.boundary == boundary && this.metadata == metadata && this.file == file && this.chunkSize == chunkSize
      ensures this.filename == filename && this.contentType == contentType
    {
      this.boundary, this.metadata, this.filename, this.contentType := boundary, metadata, filename, contentType;
      this.file, this.chunkSize := file, chunkSize;
      var first := DASHES + boundary + (CRLF + (MetadataHeaders() + BLANK_LINE + metadata + CRLF));
      var second := DASHES + boundary + (CRLF + (FileHeaders(filename, contentType) + BLANK_LINE));
      var last := CRLF + DASHES + boundary + (DASHES + CRLF);
      metadataPart, fileHeader, closing := first, second, last;
      contentLength := |first| + |second| + |file| + |last|;
    }

    ghost function Whole(): seq<Byte> {
      metadataPart + fileHeader + file + closing
    }

    /** The pieces the iterator yields, in order. */
    method Iterate() returns (pieces: seq<seq<Byte>>)
      requires Valid()
      ensures Concat(pieces) == Whole() && |Concat(pieces)| == contentLength
      ensures |pieces| >= 3 && pieces[0] == metadataPart && pieces[1] == fileHeader && pieces[|pieces| - 1] == closing
      ensures forall i :: 2 <= i < |pieces| - 1 ==> 0 < |pieces[i]| <= chunkSize
    {
      pieces := [metadataPart];
      pieces := pieces + [fileHeader];
      Two(metadataPart, fileHeader);
      var offset := 0;
      while offset < |file|
        invariant 0 <= offset <= |file|
        invariant |pieces| >= 2 && pieces[0] == metadataPart && pieces[1] == fileHeader
        invariant Concat(pieces) == metadataPart + fileHeader + file[..offset]
        invariant forall i :: 2 <= i < |pieces| ==> 0 < |pieces[i]| <= chunkSize
      {
        var end := if offset + chunkSize <= |file| then offset + chunkSize else |file|;
        OneChunk(pieces, metadataPart + fileHeader, file, offset, end);
        pieces := pieces + [file[offset..end]];
        offset := end;
      }
      assert file[..offset] == file;
      OneMore(pieces, closing);
      ghost var body := Concat(pieces);
      assert body == metadataPart + fileHeader + file;
      pieces := pieces + [closing];
      assert Concat(pieces) == body + closing;
    }

    static lemma OneMore(pieces: seq<seq<Byte>>, last: seq<Byte>)
      ensures Concat(pieces + [last]) == Concat(pieces) + last
    {
      ConcatAppend(pieces, [last]);
      assert Concat([last]) == last;
    }

    static lemma OneChunk(pieces: seq<seq<Byte>>, head: seq<Byte>, file: seq<Byte>, offset: nat, end: nat)
      requires offset <= end <= |file| && Concat(pieces) == head + file[..offset]
      ensures Concat(pieces + [file[offset..end]]) == head + file[..end]
    {
      OneMore(pieces, file[offset..end]);
      assert file[..offset] + file[offset..end] == file[..end];
      assert head + file[..offset] + file[offset..end] == head + (file[..offset] + file[offset..end]);
    }

    static lemma Two(a: seq<Byte>, b: seq<Byte>)
      ensures Concat([a] + [b]) == a + b
    {
      OneMore([a], b);
      assert Concat([a]) == a;
    }
  }

  /** a is the dash-boundary and c the line break: regrouping the pieces around the delimiters. */
  lemma Regroup(a: seq<Byte>, c: seq<Byte>, x: seq<Byte>, y: seq<Byte>, f: seq<Byte>, e: seq<Byte>)
    ensures (a + (c + (x + c))) + (a + (c + y)) + f + ((c + a) + e)
         == a + (c + (x + ((c + a) + (c + ((y + f) + ((c + a) + e))))))
  {
    var tail := (c + a) + e;
    assert (a + (c + y)) + f + tail == a + (c + ((y + f) + tail));
    var rest := c + ((y + f) + tail);
    assert (a + (c + (x + c))) + (a + rest) == a + (c + (x + ((c + a) + rest)));
    assert (a + (c + (x + c))) + (a + (c + y)) + f + tail == (a + (c + (x + c))) + ((a + (c + y)) + f + tail);
  }

  /** The body, laid out as a preamble-free multipart message. */
  lemma {:induction false} WholeIsMultipart(m: MultipartBody)
    requires m.Valid()
    ensures m.Whole() == DASHES + m.boundary
      + (CRLF + (Encoded(Part(MetadataHeaders(), m.metadata)) + (Delimiter(m.boundary)
      + (CRLF + (Encoded(Part(FileHeaders(m.filename, m.contentType), m.file)) + (Delimiter(m.boundary)
      + (DASHES + CRLF)))))))
  {
    assert CRLF + (DASHES + m.boundary) == Delimiter(m.boundary);
    Regroup(DASHES + m.boundary, CRLF, MetadataHeaders() + BLANK_LINE + m.metadata,
      FileHeaders(m.filename, m.contentType) + BLANK_LINE, m.file, DASHES + CRLF);
  }

  /**
   A conforming parser recovers exactly the metadata bytes and the file bytes if and only
   if neither of them, read from the start of a line, holds the delimiter.
   */
  lemma {:induction false} ParsesBack(m: MultipartBody)
    requires m.Valid() && CR !in m.boundary && CR !in m.contentType
    ensures Parse(m.Whole(), m.boundary)
         == Some([Part(MetadataHeaders(), m.metadata), Part(FileHeaders(m.filename, m.contentType), m.file)])
       <==> Separable(m.metadata, m.boundary) && Separable(m.file, m.boundary)
  {
    var b := m.boundary;
    var first, second := Part(MetadataHeaders(), m.metadata), Part(FileHeaders(m.filename, m.contentType), m.file);
    var end := DASHES + CRLF;
    var rest := CRLF + (Encoded(second) + (Delimiter(b) + end));
    WholeIsMultipart(m);
    var inner := CRLF + (Encoded(first) + (Delimiter(b) + rest));
    assert m.Whole()[|DASHES + b|..] == inner && DASHES + b <= m.Whole();
    ParsePart(first, rest, b);
    ParsePart(second, end, b);
    assert ParseParts(end, b) == Some([]);
    assert [second] + [] == [second] && [first] + [second] == [first, second];
    var parsed := ParseParts(inner, b);
    if parsed == Some([first, second]) {
      assert parsed.value[0] == first;
      var parts := ParseParts(rest, b);
      assert parts.Some? && [first] + parts.value == [first, second];
      assert parts.value[0] == ([first] + parts.value)[1] == second;
    }
  }

  /** json.dumps writes no raw CR and starts an object with a brace, so only the file can collide. */
  lemma JsonSeparable(metadata: seq<Byte>, boundary: seq<Byte>)
    requires CR !in metadata && metadata != [] && metadata[0] == 123
    ensures Separable(metadata, boundary)
  {
    var text := CRLF + metadata;
    forall i
      ensures !At(text, Delimiter(boundary), i)
    {
      if At(text, Delimiter(boundary), i) {
        DelimiterBytes(boundary);
        ByteAt(text, Delimiter(boundary), i, 0);
        ByteAt(text, Delimiter(boundary), i, 2);
      }
    }
  }

  /** The delimiter in neither part is not enough: a file that starts with the dash-boundary is not separable. */
  lemma DashBoundaryAtStart(file: seq<Byte>, boundary: seq<Byte>)
    requires DASHES + boundary <= file
    ensures !Separable(file, boundary)
  {
    var d := Delimiter(boundary);
    assert (CRLF + file)[0..|d|] == CRLF + file[..|d| - 2] == d;
    assert At(CRLF + file, d, 0);
  }
}
