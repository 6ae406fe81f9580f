/**
 What the receiver of the multipart body reads in the part headers: header fields line by line,
 and the parameters of Content-Disposition as quoted strings with quoted pairs (section 5.1 of
 RFC 2045, section 3.3 of RFC 822). Field names are compared as they are written.
 */
module FormFields {
  import opened Wrappers
  import opened Bytes
  import opened Multipart

  const QUOTE: Byte := 34
  const BACKSLASH: Byte := 92

  // ---------- The reader ----------

  /** The value of the first line "name: value". */
  function Field(headers: seq<Byte>, name: seq<Byte>): Option<seq<Byte>>
    decreases |headers|
  {
    match Find(headers, CRLF)
    case None => LineField(headers, name)
    case Some(end) =>
      if LineField(headers[..end], name).Some? then LineField(headers[..end], name)
      else Field(headers[end + 2..], name)
  }

  function LineField(line: seq<Byte>, name: seq<Byte>): Option<seq<Byte>> {
    if name + Ascii(": ") <= line then Some(line[|name| + 2..]) else None
  }

  /** What follows an opening quote: the text up to the closing one, and the rest. */
  function Quoted(text: seq<Byte>): (r: Option<(seq<Byte>, seq<Byte>)>)
    ensures r.Some? ==> |r.value.1| < |text|
  {
    if text == [] then None
    else if text[0] == QUOTE then Some(([], text[1..]))
    else
      var escaped := text[0] == BACKSLASH;
      if escaped && |text| == 1 then None
      else
        var width := if escaped then 2 else 1;
        match Quoted(text[width..])
        case None => None
        case Some((value, rest)) => Some(([text[width - 1]] + value, rest))
  }

  /** The parameter of this name in a list of the form ; name="value". */
  function Parameter(text: seq<Byte>, name: seq<Byte>): Option<seq<Byte>>
    decreases |text|
  {
    if !(Ascii("; ") <= text) then None
    else
      match Find(text[2..], Ascii("=\""))
      case None => None
      case Some(end) =>
        match Quoted(text[2..][end + 2..])
        case None => None
        case Some((value, rest)) => if text[2..][..end] == name then Some(value) else Parameter(rest, name)
  }

  /** A parameter of the form-data disposition of a part. */
  function FormParameter(headers: seq<Byte>, name: seq<Byte>): Option<seq<Byte>> {
    match Field(headers, Ascii("Content-") + Ascii("Disposition"))
    case None => None
    case Some(value) =>
      var kind := Ascii("form-data");
      if kind <= value then Parameter(value[|kind|..], name) else None
  }

  function MediaType(headers: seq<Byte>): Option<seq<Byte>> {
    Field(headers, Ascii("Content-Type"))
  }

  // ---------- Searching past text without the pattern ----------

  lemma FoundByte(text: seq<Byte>, pattern: seq<Byte>, i: int)
    requires pattern != [] && At(text, pattern, i)
    ensures text[i] == pattern[0] && pattern[0] in text
  {
    ByteAt(text, pattern, i, 0);
    assert text[i] in text;
  }

  lemma FoundBehind(head: seq<Byte>, tail: seq<Byte>, pattern: seq<Byte>, i: int)
    requires pattern != [] && At(head + tail, pattern, i)
    ensures |head| <= i || pattern[0] in head
  {
    FoundByte(head + tail, pattern, i);
    if i < |head| { assert head[i] in head; }
  }

  lemma FindAfter(head: seq<Byte>, pattern: seq<Byte>, tail: seq<Byte>)
    requires pattern != [] && pattern[0] !in head
    ensures Find(head + pattern + tail, pattern) == Some(|head|)
  {
    var text := head + pattern + tail;
    assert text[|head|..|head| + |pattern|] == pattern;
    assert At(text, pattern, |head|) && text == head + (pattern + tail);
    forall i | At(text, pattern, i)
      ensures |head| <= i
    {
      FoundBehind(head, pattern + tail, pattern, i);
    }
  }

  lemma FindNone(text: seq<Byte>, pattern: seq<Byte>)
    requires pattern != [] && pattern[0] !in text
    ensures Find(text, pattern) == None
  {
    var found := Find(text, pattern);
    if found.Some? { FoundByte(text, pattern, found.value); }
  }

  // ---------- Two header lines ----------

  lemma LineFieldOf(name: seq<Byte>, value: seq<Byte>)
    ensures LineField(name + Ascii(": ") + value, name) == Some(value)
  {
    assert (name + Ascii(": ") + value)[|name| + 2..] == value;
  }

  lemma OtherLine(line: seq<Byte>, name: seq<Byte>)
    ensures LineField(line, name).Some? ==> name <= line
  {
    if LineField(line, name).Some? { assert name <= name + Ascii(": ") <= line; }
  }

  lemma FirstField(name: seq<Byte>, value: seq<Byte>, second: seq<Byte>)
    requires CR !in name + Ascii(": ") + value
    ensures Field(name + Ascii(": ") + value + CRLF + second, name) == Some(value)
  {
    var line := name + Ascii(": ") + value;
    FindAfter(line, CRLF, second);
    assert (line + CRLF + second)[..|line|] == line;
    LineFieldOf(name, value);
  }

  lemma SecondField(first: seq<Byte>, name: seq<Byte>, value: seq<Byte>)
    requires CR !in first && CR !in name + Ascii(": ") + value && !(name <= first)
    ensures Field(first + CRLF + (name + Ascii(": ") + value), name) == Some(value)
  {
    var line := name + Ascii(": ") + value;
    var headers := first + CRLF + line;
    FindAfter(first, CRLF, line);
    assert headers[..|first|] == first && headers[|first| + 2..] == line;
    OtherLine(first, name);
    FindNone(line, CRLF);
    LineFieldOf(name, value);
  }

  // ---------- Quoted strings ----------

  /** Text without quotes and backslashes is read back. */
  lemma {:induction false} QuotedPlain(text: seq<Byte>, rest: seq<Byte>)
    requires QUOTE !in text && BACKSLASH !in text
    ensures Quoted(text + [QUOTE] + rest) == Some((text, rest))
    decreases |text|
  {
    var all := text + [QUOTE] + rest;
    if text == [] {
      assert all[1..] == rest;
    } else {
      assert all[1..] == text[1..] + [QUOTE] + rest;
      QuotedPlain(text[1..], rest);
      assert text == [text[0]] + text[1..];
    }
  }

  /** Each quoted pair is read as one byte. */
  lemma {:induction false} QuotedShorter(text: seq<Byte>)
    requires QUOTE !in text
    ensures var r := Quoted(text + [QUOTE]);
      r.Some? ==> |r.value.0| <= |text| && (BACKSLASH in text ==> |r.value.0| < |text|)
    decreases |text|
  {
    var all := text + [QUOTE];
    if text != [] {
      if text[0] == BACKSLASH {
        if |text| >= 2 {
          assert all[2..] == text[2..] + [QUOTE];
          QuotedShorter(text[2..]);
        } else {
          assert all[2..] == [];
        }
      } else {
        assert all[1..] == text[1..] + [QUOTE];
        QuotedShorter(text[1..]);
      }
    }
  }

  // ---------- Parameters ----------

  lemma ParameterUnfolds(name: seq<Byte>, tail: seq<Byte>, key: seq<Byte>)
    requires 61 !in name
    ensures var r := Parameter(Ascii("; ") + (name + Ascii("=\"") + tail), key);
      && (Quoted(tail) == None ==> r == None)
      && (Quoted(tail).Some? ==>
        r == if name == key then Some(Quoted(tail).value.0) else Parameter(Quoted(tail).value.1, key))
  {
    var text := Ascii("; ") + (name + Ascii("=\"") + tail);
    assert text[2..] == name + Ascii("=\"") + tail;
    FindAfter(name, Ascii("=\""), tail);
    assert text[2..][|name| + 2..] == tail && text[2..][..|name|] == name;
  }

  /** A list of one plain parameter and what follows it. */
  lemma PlainParameter(name: seq<Byte>, value: seq<Byte>, rest: seq<Byte>, key: seq<Byte>)
    requires 61 !in name && QUOTE !in value && BACKSLASH !in value
    ensures Parameter(Ascii("; ") + (name + Ascii("=\"") + (value + [QUOTE] + rest)), key)
      == if name == key then Some(value) else Parameter(rest, key)
  {
    ParameterUnfolds(name, value + [QUOTE] + rest, key);
    QuotedPlain(value, rest);
  }

  /** The last parameter, whatever text without quotes it holds. */
  lemma LastParameter(name: seq<Byte>, value: seq<Byte>)
    requires 61 !in name && QUOTE !in value
    ensures Parameter(Ascii("; ") + (name + Ascii("=\"") + (value + [QUOTE])), name) == Some(value)
      <==> BACKSLASH !in value
  {
    ParameterUnfolds(name, value + [QUOTE], name);
    if BACKSLASH !in value { QuotedPlain(value, []); }
    assert value + [QUOTE] + [] == value + [QUOTE];
    QuotedShorter(value);
  }

  // ---------- The headers of the body ----------

  lemma AsciiConcat(a: string, b: string)
    requires forall i :: 0 <= i < |a + b| ==> (a + b)[i] as int < 128
    requires forall i :: 0 <= i < |a| ==> a[i] as int < 128
    requires forall i :: 0 <= i < |b| ==> b[i] as int < 128
    ensures Ascii(a + b) == Ascii(a) + Ascii(b)
  {
  }

  lemma DispositionText()
    ensures ContentDisposition() == Ascii("Content-") + Ascii("Disposition")
      + Ascii(": ") + (Ascii("form-data") + (Ascii("; ") + (Ascii("name") + Ascii("=\""))))
  {
    AsciiConcat(": ", "form-data");
    assert ": " + "form-data" == ": form-data";
    AsciiConcat("; ", "name");
    AsciiConcat("; name", "=\"");
    assert "; " + "name" == "; name" && "; name" + "=\"" == "; name=\"";
  }

  /** The first line of either part, as field name, kind and parameters. */
  lemma DispositionLine(parameters: seq<Byte>)
    ensures ContentDisposition() + parameters == Ascii("Content-") + Ascii("Disposition")
      + Ascii(": ") + (Ascii("form-data") + (Ascii("; ") + (Ascii("name") + Ascii("=\"") + parameters)))
  {
    DispositionText();
    var field, kind := Ascii("Content-") + Ascii("Disposition") + Ascii(": "), Ascii("form-data");
    var key := Ascii("name") + Ascii("=\"");
    assert field + (kind + (Ascii("; ") + key)) + parameters == field + (kind + (Ascii("; ") + key) + parameters);
    assert kind + (Ascii("; ") + key) + parameters == kind + (Ascii("; ") + (key + parameters));
  }

  lemma FormParameterOf(parameters: seq<Byte>, second: seq<Byte>, key: seq<Byte>)
    requires CR !in ContentDisposition() + parameters
    ensures FormParameter(ContentDisposition() + parameters + CRLF + second, key)
      == Parameter(Ascii("; ") + (Ascii("name") + Ascii("=\"") + parameters), key)
  {
    var list := Ascii("; ") + (Ascii("name") + Ascii("=\"") + parameters);
    var value := Ascii("form-data") + list;
    DispositionLine(parameters);
    FirstField(Ascii("Content-") + Ascii("Disposition"), value, second);
    assert value[|Ascii("form-data")|..] == list;
  }

  lemma MediaTypeOf(parameters: seq<Byte>, mediaType: seq<Byte>)
    requires CR !in ContentDisposition() + parameters && CR !in mediaType
    ensures MediaType(ContentDisposition() + parameters + CRLF + (ContentType() + mediaType)) == Some(mediaType)
  {
    var first, name := ContentDisposition() + parameters, Ascii("Content-Type");
    AsciiConcat("Content-Type", ": ");
    assert "Content-Type" + ": " == "Content-Type: ";
    DispositionLine(parameters);
    assert first[8] == 68 && name[8] == 84;
    SecondField(first, name, mediaType);
  }

  const NAME := Ascii("name")
  const FILE_NAME := Ascii("filename")
  const METADATA_PART := Ascii("metadata")
  const FILE_PART := Ascii("file")
  const JSON_TYPE := Ascii("application/") + Ascii("json; ") + Ascii("charset=") + Ascii("utf-8")

  lemma PlainNames()
    ensures 61 !in NAME && 61 !in FILE_NAME && NAME != FILE_NAME
    ensures QUOTE !in METADATA_PART && BACKSLASH !in METADATA_PART
    ensures QUOTE !in FILE_PART && BACKSLASH !in FILE_PART
  {
    assert |NAME| != |FILE_NAME|;
  }

  lemma MetadataParameters()
    ensures Ascii("metadata\"") == METADATA_PART + [QUOTE] + []
  {
    AsciiConcat("metadata", "\"");
    assert "metadata" + "\"" == "metadata\"";
    assert Ascii("\"") == [QUOTE];
  }

  lemma MetadataLines()
    ensures MetadataHeaders()
      == ContentDisposition() + (METADATA_PART + [QUOTE] + []) + CRLF + (ContentType() + JSON_TYPE)
    ensures CR !in ContentDisposition() + (METADATA_PART + [QUOTE] + []) && CR !in JSON_TYPE
  {
    MetadataParameters();
    var second := ContentType() + Ascii("application/") + Ascii("json; ") + Ascii("charset=") + Ascii("utf-8");
    assert second == ContentType() + JSON_TYPE;
  }

  lemma MetadataFields()
    ensures FormParameter(MetadataHeaders(), NAME) == Some(METADATA_PART)
    ensures MediaType(MetadataHeaders()) == Some(JSON_TYPE)
  {
    MetadataLines();
    PlainNames();
    FormParameterOf(METADATA_PART + [QUOTE] + [], ContentType() + JSON_TYPE, NAME);
    MediaTypeOf(METADATA_PART + [QUOTE] + [], JSON_TYPE);
    PlainParameter(NAME, METADATA_PART, [], NAME);
  }

  /** The file name as the last parameter. */
  function FileNameParameter(filename: seq<Byte>): seq<Byte> {
    Ascii("; ") + (FILE_NAME + Ascii("=\"") + (filename + [QUOTE]))
  }

  lemma FileWords()
    ensures Ascii("file\"; ") == FILE_PART + [QUOTE] + Ascii("; ")
    ensures Ascii("filename=\"") == FILE_NAME + Ascii("=\"")
  {
    AsciiConcat("file", "\"; ");
    AsciiConcat("\"", "; ");
    AsciiConcat("filename", "=\"");
    assert "file" + "\"; " == "file\"; " && "\"" + "; " == "\"; " && "filename" + "=\"" == "filename=\"";
    assert Ascii("\"") == [QUOTE];
  }

  lemma FileLines(filename: seq<Byte>, contentType: seq<Byte>)
    ensures FileHeaders(filename, contentType)
      == ContentDisposition() + (FILE_PART + [QUOTE] + FileNameParameter(SanitizeName(filename)))
      + CRLF + (ContentType() + contentType)
    ensures CR !in ContentDisposition() + (FILE_PART + [QUOTE] + FileNameParameter(SanitizeName(filename)))
  {
    FileWords();
    var clean := SanitizeName(filename);
    var first: Line := ContentDisposition() + Ascii("file\"; ") + Ascii("filename=\"") + clean + [34];
    Rejoin(ContentDisposition(), FILE_PART + [QUOTE], Ascii("; "), FILE_NAME + Ascii("=\""), clean + [QUOTE]);
    assert first
      == ContentDisposition() + (FILE_PART + [QUOTE] + Ascii("; ")) + (FILE_NAME + Ascii("=\"")) + (clean + [34]);
  }

  lemma Rejoin(a: seq<Byte>, b: seq<Byte>, c: seq<Byte>, d: seq<Byte>, e: seq<Byte>)
    ensures a + (b + c) + d + e == a + (b + (c + (d + e)))
  {
  }

  lemma FileFields(filename: seq<Byte>, contentType: seq<Byte>)
    requires CR !in contentType
    ensures var headers := FileHeaders(filename, contentType);
      && FormParameter(headers, NAME) == Some(FILE_PART) && MediaType(headers) == Some(contentType)
      && (FormParameter(headers, FILE_NAME) == Some(SanitizeName(filename))
          <==> BACKSLASH !in SanitizeName(filename))
  {
    var clean := SanitizeName(filename);
    var last := FileNameParameter(clean);
    FileLines(filename, contentType);
    PlainNames();
    FormParameterOf(FILE_PART + [QUOTE] + last, ContentType() + contentType, NAME);
    FormParameterOf(FILE_PART + [QUOTE] + last, ContentType() + contentType, FILE_NAME);
    MediaTypeOf(FILE_PART + [QUOTE] + last, contentType);
    PlainParameter(NAME, FILE_PART, last, NAME);
    PlainParameter(NAME, FILE_PART, last, FILE_NAME);
    LastParameter(FILE_NAME, clean);
  }

  /** What is no line break or quote stays in the name where it is. */
  lemma {:induction false} CleanKept(before: seq<Byte>, after: seq<Byte>)
    requires forall i :: 0 <= i < |before| ==> before[i] != 13 && before[i] != 10 && before[i] != 34
    ensures SanitizeName(before + after) == before + SanitizeName(after)
    decreases |before|
  {
    if before == [] {
      assert before + after == after;
    } else {
      assert (before + after)[1..] == before[1..] + after;
      CleanKept(before[1..], after);
      assert [before[0]] + before[1..] == before;
    }
  }

  /** A whole run of line breaks and quotes becomes one underscore. */
  lemma {:induction false} RunReplaced(run: seq<Byte>, after: seq<Byte>)
    requires run != [] && forall i :: 0 <= i < |run| ==> run[i] == 13 || run[i] == 10 || run[i] == 34
    requires after != [] ==> after[0] != 13 && after[0] != 10 && after[0] != 34
    ensures SanitizeName(run + after) == [95] + SanitizeName(after)
  {
    RunSkipped(run, after);
  }

  lemma {:induction false} RunSkipped(run: seq<Byte>, after: seq<Byte>)
    requires forall i :: 0 <= i < |run| ==> Unsafe(run[i])
    requires after != [] ==> !Unsafe(after[0])
    ensures SkipUnsafe(run + after) == after
    decreases |run|
  {
    if run == [] {
      assert run + after == after;
    } else {
      assert (run + after)[1..] == run[1..] + after;
      RunSkipped(run[1..], after);
    }
  }

  /**
   A receiver that can separate the parts finds metadata and file under their form names, with
   their media types and bytes; it reads the sanitized file name exactly when that has no
   backslash, which a quoted string takes for an escape.
   */
  lemma {:induction false} ReceivedAsSent(m: MultipartBody)
    requires m.Valid() && CR !in m.boundary && CR !in m.contentType
    requires Separable(m.metadata, m.boundary) && Separable(m.file, m.boundary)
    ensures var parsed := Parse(m.Whole(), m.boundary);
      && parsed.Some? && |parsed.value| == 2
      && var metadata, file := parsed.value[0], parsed.value[1];
      && FormParameter(metadata.headers, NAME) == Some(METADATA_PART)
      && MediaType(metadata.headers) == Some(JSON_TYPE) && metadata.content == m.metadata
      && FormParameter(file.headers, NAME) == Some(FILE_PART)
      && MediaType(file.headers) == Some(m.contentType) && file.content == m.file
      && (FormParameter(file.headers, FILE_NAME) == Some(SanitizeName(m.filename))
          <==> BACKSLASH !in SanitizeName(m.filename))
  {
    ParsesBack(m);
    MetadataFields();
    FileFields(m.filename, m.contentType);
  }
}
