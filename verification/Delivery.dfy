/**
 The filesystem connector (connectors.py): path rendering, the choice of a document name and
 the copy. Paths are lists of components below the file system root, without symbolic links.
 */
module Delivery {
  import opened Wrappers
  import opened Bytes

  type Place = seq<string>

  type Hash = seq<Byte> -> string

  type Store = map<Place, seq<Byte>>

  // ---------- safe ----------

  /** The characters \s matches. */
  predicate IsSpace(c: char) {
    || ('\t' <= c <= '\r') || ('\U{1c}' <= c <= ' ') || c == '\U{85}' || c == '\U{a0}' || c == '\U{1680}'
    || ('\U{2000}' <= c <= '\U{200a}') || c == '\U{2028}' || c == '\U{2029}' || c == '\U{202f}' || c == '\U{205f}'
      || c == '\U{3000}'
  }

  predicate Unsafe(c: char) {
    IsSpace(c) || c == '\\' || c == '/' || c == ':' || c == '*' || c == '?' || c == '"' || c == '<' || c == '>'
      || c == '|'
  }

  /** Blanks and the characters that file systems reserve are among them. */
  lemma ReservedUnsafe(c: char)
    ensures c in {'\\', '/', ':', '*', '?', '"', '<', '>', '|', ' ', '\t', '\n', '\r'} ==> Unsafe(c)
  {
  }

  predicate AllSafe(s: string) {
    forall i :: 0 <= i < |s| ==> !Unsafe(s[i])
  }

  /** Each run of unsafe characters and underscores becomes one underscore: both substitutions together. */
  function Underscored(s: string): (r: string)
    ensures AllSafe(r)
    ensures forall i :: 0 <= i < |r| - 1 ==> !(r[i] == '_' && r[i + 1] == '_')
  {
    if s == [] then []
    else
      var rest := Underscored(s[1..]);
      if Unsafe(s[0]) || s[0] == '_' then (if rest != [] && rest[0] == '_' then rest else ['_'] + rest)
      else [s[0]] + rest
  }

  predicate Trimmed(c: char) {
    c == '.' || c == '_'
  }

  function TrimLeft(s: string): (r: string)
    ensures r != [] ==> !Trimmed(r[0])
    ensures |r| <= |s| && r == s[|s| - |r|..]
  {
    if s != [] && Trimmed(s[0]) then TrimLeft(s[1..]) else s
  }

  function TrimRight(s: string): (r: string)
    ensures r != [] ==> !Trimmed(r[|r| - 1])
    ensures |r| <= |s| && r == s[..|r|]
  {
    if s != [] && Trimmed(s[|s| - 1]) then TrimRight(s[..|s| - 1]) else s
  }

  const MAX_NAME := 120
  const UNKNOWN_NAME := "Unbekannt"

  function StripLeft(s: string): string {
    if s != [] && IsSpace(s[0]) then StripLeft(s[1..]) else s
  }

  function StripRight(s: string): string {
    if s != [] && IsSpace(s[|s| - 1]) then StripRight(s[..|s| - 1]) else s
  }

  function Cleaned(value: string): string {
    TrimRight(TrimLeft(Underscored(StripRight(StripLeft(value)))))
  }

  function Shortened(s: string): string {
    if |s| <= MAX_NAME then s else s[..MAX_NAME]
  }

  function Safe(value: string): string {
    if Cleaned(value) == [] then UNKNOWN_NAME else Shortened(Cleaned(value))
  }

  /** A file or directory name that adds exactly one level. */
  predicate Component(name: string) {
    && name != [] && name != "." && name != ".."
    && forall i :: 0 <= i < |name| ==> name[i] != '/'
  }

  lemma SafePart(s: string, from: nat, to: nat)
    requires AllSafe(s) && from <= to <= |s|
    ensures AllSafe(s[from..to])
  {
  }

  lemma SafeComponent(s: string)
    requires AllSafe(s) && s != [] && !Trimmed(s[0])
    ensures Component(s)
  {
    assert forall i :: 0 <= i < |s| && s[i] == '/' ==> Unsafe(s[i]);
  }

  /** One short component without separators or blanks, trimmed unless it was cut off at the end. */
  predicate GoodName(s: string) {
    && Component(s) && AllSafe(s) && 1 <= |s| <= 120 && !Trimmed(s[0])
    && (|s| < 120 ==> !Trimmed(s[|s| - 1]))
  }

  lemma UnknownSafe()
    ensures GoodName(UNKNOWN_NAME)
  {
    var s := UNKNOWN_NAME;
    assert |s| == 9 && s[0] == 'U' && s[8] == 't';
    forall i | 0 <= i < |s|
      ensures !Unsafe(s[i])
    {
      assert 'A' <= s[i] <= 'z';
    }
  }

  lemma TrimmedSafe(u: string)
    requires AllSafe(u)
    ensures var r := TrimRight(TrimLeft(u)); AllSafe(r) && (r != [] ==> !Trimmed(r[0]) && !Trimmed(r[|r| - 1]))
  {
    var left := TrimLeft(u);
    SafePart(u, |u| - |left|, |u|);
    assert u[|u| - |left|..|u|] == left;
    var right := TrimRight(left);
    SafePart(left, 0, |right|);
    assert left[0..|right|] == right;
  }

  lemma ShortenedSafe(s: string)
    requires AllSafe(s) && s != [] && !Trimmed(s[0]) && !Trimmed(s[|s| - 1])
    ensures GoodName(Shortened(s))
  {
    var k := |Shortened(s)|;
    SafePart(s, 0, k);
    assert s[0..k] == Shortened(s);
    SafeComponent(Shortened(s));
  }

  lemma SafeIsComponent(value: string)
    ensures GoodName(Safe(value))
  {
    TrimmedSafe(Underscored(StripRight(StripLeft(value))));
    if Cleaned(value) == [] {
      UnknownSafe();
    } else {
      ShortenedSafe(Cleaned(value));
    }
  }

  /** Characters that safe() leaves where they are. */
  predicate Plain(s: string) {
    forall i :: 0 <= i < |s| ==> !Unsafe(s[i]) && s[i] != '_'
  }

  /** Characters that safe() turns into one underscore, however many there are. */
  predicate Replaced(s: string) {
    s != [] && forall i :: 0 <= i < |s| ==> Unsafe(s[i]) || s[i] == '_'
  }

  /** A word that nothing is trimmed from. */
  predicate Word(s: string) {
    s != [] && Plain(s) && s[0] != '.' && s[|s| - 1] != '.'
  }

  lemma {:induction false} PlainKept(s: string, rest: string)
    requires Plain(s)
    ensures Underscored(s + rest) == s + Underscored(rest)
    decreases |s|
  {
    if s == [] {
      assert s + rest == rest;
    } else {
      assert (s + rest)[1..] == s[1..] + rest;
      PlainKept(s[1..], rest);
      assert [s[0]] + s[1..] == s;
    }
  }

  lemma {:induction false} RunUnderscored(run: string, rest: string)
    requires Replaced(run) && (rest == [] || (!Unsafe(rest[0]) && rest[0] != '_'))
    ensures Underscored(run + rest) == "_" + Underscored(rest)
    decreases |run|
  {
    assert (run + rest)[1..] == run[1..] + rest;
    if |run| == 1 {
      assert run[1..] + rest == rest;
    } else {
      RunUnderscored(run[1..], rest);
    }
  }

  lemma KeptWhole(s: string)
    requires s != []
    ensures !IsSpace(s[0]) && !IsSpace(s[|s| - 1]) ==> StripRight(StripLeft(s)) == s
    ensures !Trimmed(s[0]) && !Trimmed(s[|s| - 1]) ==> TrimRight(TrimLeft(s)) == s
  {
  }

  lemma WordCleaned(word: string)
    requires Word(word)
    ensures Cleaned(word) == word
  {
    PlainKept(word, []);
    assert word + [] == word;
    KeptWhole(word);
  }

  lemma JoinUnderscored(first: string, run: string, second: string)
    requires Word(first) && Replaced(run) && Word(second)
    ensures Underscored(first + run + second) == first + "_" + second
  {
    PlainKept(first, run + second);
    assert first + run + second == first + (run + second);
    RunUnderscored(run, second);
    PlainKept(second, []);
    assert second + [] == second;
  }

  lemma JoinCleaned(first: string, run: string, second: string)
    requires Word(first) && Replaced(run) && Word(second)
    ensures Cleaned(first + run + second) == first + "_" + second
  {
    var value, joined := first + run + second, first + "_" + second;
    assert value[0] == first[0] && value[|value| - 1] == second[|second| - 1];
    assert joined[0] == first[0] && joined[|joined| - 1] == second[|second| - 1];
    KeptWhole(value);
    JoinUnderscored(first, run, second);
    KeptWhole(joined);
  }

  /** Words keep their characters, and what stands between two of them becomes one underscore. */
  lemma SafeJoins(first: string, run: string, second: string)
    requires Word(first) && Replaced(run) && Word(second)
    ensures Safe(first) == if |first| <= 120 then first else first[..120]
    ensures var joined := first + "_" + second;
      Safe(first + run + second) == if |joined| <= 120 then joined else joined[..120]
  {
    WordCleaned(first);
    JoinCleaned(first, run, second);
  }

  predicate Vanishes(c: char) {
    Unsafe(c) || Trimmed(c)
  }

  lemma {:induction false} TrimsAll(s: string)
    requires forall i :: 0 <= i < |s| ==> Trimmed(s[i])
    ensures TrimLeft(s) == []
  {
    if s != [] { TrimsAll(s[1..]); }
  }

  lemma {:induction false} UnderscoredTrimmed(s: string)
    requires forall i :: 0 <= i < |s| ==> Vanishes(s[i])
    ensures forall i :: 0 <= i < |Underscored(s)| ==> Trimmed(Underscored(s)[i])
  {
    if s != [] { UnderscoredTrimmed(s[1..]); }
  }

  lemma {:induction false} StripsToPart(s: string)
    ensures forall i :: 0 <= i < |StripRight(StripLeft(s))| ==> StripRight(StripLeft(s))[i] in s
  {
    StripLeftPart(s);
    StripRightPart(StripLeft(s));
  }

  lemma {:induction false} StripLeftPart(s: string)
    ensures forall i :: 0 <= i < |StripLeft(s)| ==> StripLeft(s)[i] in s
  {
    if s != [] && IsSpace(s[0]) { StripLeftPart(s[1..]); }
  }

  lemma {:induction false} StripRightPart(s: string)
    ensures forall i :: 0 <= i < |StripRight(s)| ==> StripRight(s)[i] in s
  {
    if s != [] && IsSpace(s[|s| - 1]) { StripRightPart(s[..|s| - 1]); }
  }

  /** Of a value of blanks, separators, underscores and dots nothing is left, and a fixed name stands in. */
  lemma {:induction false} SafeBlank(value: string)
    requires forall i :: 0 <= i < |value| ==> Vanishes(value[i])
    ensures Safe(value) == UNKNOWN_NAME
  {
    var stripped := StripRight(StripLeft(value));
    StripsToPart(value);
    UnderscoredTrimmed(stripped);
    TrimsAll(Underscored(stripped));
  }

  // ---------- Paths ----------

  /** The text between slashes. */
  function Split(s: string): (parts: seq<string>)
    ensures parts != []
  {
    if s == [] then [""]
    else
      var rest := Split(s[1..]);
      if s[0] == '/' then [""] + rest else [[s[0]] + rest[0]] + rest[1..]
  }

  /** Path(s).parts of a relative path: empty parts and single dots vanish. */
  function Parts(parts: seq<string>): seq<string> {
    if parts == [] then []
    else (if parts[0] == "" || parts[0] == "." then [] else [parts[0]]) + Parts(parts[1..])
  }

  predicate Absolute(s: string) {
    s != "" && s[0] == '/'
  }

  /** resolve(): two dots go up, as far as the file system root. */
  function Resolve(base: Place, parts: seq<string>): Place
    decreases |parts|
  {
    if parts == [] then base
    else if parts[0] == ".." then Resolve(if base == [] then [] else base[..|base| - 1], parts[1..])
    else Resolve(base + [parts[0]], parts[1..])
  }

  /** root is among the parents of the path. */
  predicate Inside(root: Place, path: Place) {
    |root| < |path| && path[..|root|] == root
  }

  function LastDot(name: string): (i: int)
    ensures -1 <= i < |name|
    ensures i >= 0 ==> name[i] == '.'
    ensures forall k :: i < k < |name| ==> name[k] != '.'
  {
    if name == [] then -1 else if name[|name| - 1] == '.' then |name| - 1 else LastDot(name[..|name| - 1])
  }

  predicate HasSuffix(name: string) {
    0 < LastDot(name) < |name| - 1
  }

  function Suffix(name: string): string {
    if HasSuffix(name) then name[LastDot(name)..] else ""
  }

  function Stem(name: string): string {
    if HasSuffix(name) then name[..LastDot(name)] else name
  }

  /** The text with slashes between the parts. */
  function Join(parts: seq<string>): string
    requires parts != []
  {
    if |parts| == 1 then parts[0] else parts[0] + "/" + Join(parts[1..])
  }

  /** Split takes the text apart at its slashes, losing nothing else. */
  lemma {:induction false} SplitJoins(s: string)
    ensures Join(Split(s)) == s
    ensures forall i :: 0 <= i < |Split(s)| ==> '/' !in Split(s)[i]
  {
    if s != [] {
      SplitJoins(s[1..]);
      var rest := Split(s[1..]);
      assert s == [s[0]] + s[1..];
      if s[0] == '/' {
        assert ([""] + rest)[1..] == rest;
      } else {
        var parts := [[s[0]] + rest[0]] + rest[1..];
        assert parts[1..] == rest[1..];
        if |rest| > 1 {
          assert Join(parts) == [s[0]] + rest[0] + "/" + Join(rest[1..]) == [s[0]] + (rest[0] + "/" + Join(rest[1..]));
        }
      }
    }
  }

  /** Of the parts, exactly the empty ones and the single dots go. */
  lemma {:induction false} PartsOneMore(parts: seq<string>, last: string)
    ensures Parts([]) == []
    ensures Parts(parts + [last]) == if last == "" || last == "." then Parts(parts) else Parts(parts) + [last]
    decreases |parts|
  {
    var all := parts + [last];
    if parts == [] {
      assert all == [last] && all[1..] == [];
    } else {
      assert all[1..] == parts[1..] + [last];
      PartsOneMore(parts[1..], last);
    }
  }

  /** Each part in turn goes one level down, two dots one level up and never above the root of the file system. */
  lemma {:induction false} ResolveSteps(base: Place, parts: seq<string>, last: string)
    ensures Resolve(base, []) == base
    ensures var before, after := Resolve(base, parts), Resolve(base, parts + [last]);
      && (last != ".." ==> after == before + [last])
      && (last == ".." ==> after == if before == [] then [] else before[..|before| - 1])
    decreases |parts|
  {
    var all := parts + [last];
    if parts == [] {
      assert all == [last] && all[1..] == [];
    } else {
      assert all[1..] == parts[1..] + [last];
      var next := if parts[0] == ".." then (if base == [] then [] else base[..|base| - 1]) else base + [parts[0]];
      ResolveSteps(next, parts[1..], last);
    }
  }

  lemma DotIn(name: string)
    ensures LastDot(name) >= 0 ==> '.' in name
  {
  }

  /** The suffix starts at the last dot, unless that is the first or last character of the name. */
  lemma StemAndSuffix(stem: string, extension: string)
    requires extension != [] && '.' !in extension
    ensures stem != [] ==> Stem(stem + "." + extension) == stem && Suffix(stem + "." + extension) == "." + extension
    ensures Suffix("." + extension) == "" && Suffix(extension) == "" && Suffix(stem + ".") == ""
  {
    LastDotIs(stem + "." + extension, |stem|);
    LastDotIs("." + extension, 0);
    LastDotIs(stem + ".", |stem|);
    DotIn(extension);
  }

  lemma {:induction false} LastDotIs(name: string, i: nat)
    requires i < |name| && name[i] == '.' && forall k :: i < k < |name| ==> name[k] != '.'
    ensures LastDot(name) == i
  {
  }

  /** A template's rendering with a safe document type and the job id always stays inside the root. */
  lemma DefaultTemplateInside(root: Place, documentType: string, id: string)
    requires Component(id)
    ensures var rendered := Safe(documentType) + "/" + id;
      && !Absolute(rendered) && Parts(Split(rendered)) == [Safe(documentType), id]
      && Inside(root, Resolve(root, Parts(Split(rendered))))
  {
    SafeIsComponent(documentType);
    TwoComponentsInside(root, Safe(documentType), id);
  }

  lemma TwoComponentsInside(root: Place, kind: string, id: string)
    requires Component(kind) && Component(id)
    ensures var rendered := kind + "/" + id;
      && !Absolute(rendered) && Parts(Split(rendered)) == [kind, id]
      && Resolve(root, Parts(Split(rendered))) == root + [kind] + [id]
      && Inside(root, Resolve(root, Parts(Split(rendered))))
  {
    SplitComponent(kind, id);
    SplitName(id);
    assert Split(kind + "/" + id) == [kind, id];
    assert Parts([kind, id]) == [kind] + Parts([id]);
    assert Parts([id]) == [id] + Parts([]);
    assert Resolve(root, [kind, id]) == Resolve(root + [kind], [id]) == Resolve(root + [kind] + [id], []);
    assert (root + [kind] + [id])[..|root|] == root;
  }

  lemma {:induction false} SplitName(name: string)
    requires forall i :: 0 <= i < |name| ==> name[i] != '/'
    ensures Split(name) == [name]
  {
    if name != [] {
      SplitName(name[1..]);
      assert [name[0]] + name[1..] == name;
    }
  }

  lemma {:induction false} SplitComponent(name: string, rest: string)
    requires forall i :: 0 <= i < |name| ==> name[i] != '/'
    ensures Split(name + "/" + rest) == [name] + Split(rest)
  {
    var s := name + "/" + rest;
    if name == [] {
      assert s[1..] == rest;
    } else {
      assert s[1..] == name[1..] + "/" + rest;
      SplitComponent(name[1..], rest);
      assert [name[0]] + name[1..] == name;
    }
  }

  // ---------- deliver ----------

  /** What deliver reads of a job: rendered is its path template filled in. */
  datatype Parcel = Parcel(id: string, filename: string, sha256: string, content: seq<Byte>, rendered: string)

  function Target(root: Place, p: Parcel): Place {
    Resolve(root, Parts(Split(p.rendered)))
  }

  predicate Allowed(root: Place, p: Parcel) {
    !Absolute(p.rendered) && Inside(root, Target(root, p))
  }

  /** The template names the file, not only its directory. */
  predicate NamesFile(p: Parcel) {
    var parts := Parts(Split(p.rendered));
    parts != [] && HasSuffix(parts[|parts| - 1])
  }

  function Parent(path: Place): Place
    requires path != []
  {
    path[..|path| - 1]
  }

  function Name(path: Place): string
    requires path != []
  {
    path[|path| - 1]
  }

  /** The document's path when nothing is in the way. */
  function Base(root: Place, p: Parcel): (path: Place)
    ensures Allowed(root, p) ==> path != []
  {
    if NamesFile(p) then Target(root, p) else Target(root, p) + [p.filename]
  }

  function IdPrefix(id: string): string {
    if |id| <= 8 then id else id[..8]
  }

  function WithId(path: Place, id: string): Place
    requires path != []
  {
    Parent(path) + [Stem(Name(path)) + "_" + IdPrefix(id) + Suffix(Name(path))]
  }

  const METADATA := "metadata.json"

  function MetadataPath(p: Parcel, document: Place): Place
    requires document != []
  {
    Parent(document) + [if NamesFile(p) then Stem(Name(document)) + ".metadata.json" else METADATA]
  }

  function Document(root: Place, sha: Hash, files: Store, p: Parcel): (path: Place)
    requires Allowed(root, p)
    ensures path != []
  {
    var base := Base(root, p);
    if base in files && sha(files[base]) != p.sha256 then WithId(base, p.id) else base
  }

  datatype DeliveryError = OutsideRoot

  function Delivered(
      root: Place, sha: Hash, files: Store, p: Parcel, metadata: seq<Byte>): (Result<Place, DeliveryError>, Store) {
    if !Allowed(root, p) then (Err(OutsideRoot), files)
    else
      var document := Document(root, sha, files, p);
      (Ok(document), files[document := p.content][MetadataPath(p, document) := metadata])
  }

  /** Both files are written, the metadata last. */
  predicate Wrote(
    files: Store, after: Store, document: Place, content: seq<Byte>, metadataPath: Place, metadata: seq<Byte>) {
    && document in after && metadataPath in after && after[metadataPath] == metadata
    && (document != metadataPath ==> after[document] == content)
    && after.Keys == files.Keys + {document, metadataPath}
    && forall path :: path in files && path != document && path != metadataPath ==> after[path] == files[path]
  }

  lemma WritesBoth(root: Place, sha: Hash, files: Store, p: Parcel, metadata: seq<Byte>)
    requires Allowed(root, p)
    ensures var (r, after) := Delivered(root, sha, files, p, metadata);
      && r == Ok(Document(root, sha, files, p))
      && Wrote(files, after, r.value, p.content, MetadataPath(p, r.value), metadata)
  {
  }

  /** The name is free, or holds the same bytes as far as the hash tells. */
  predicate Free(sha: Hash, files: Store, path: Place, p: Parcel) {
    path in files ==> sha(files[path]) == p.sha256
  }

  lemma DirectoryBase(root: Place, p: Parcel, kind: string)
    requires Component(kind) && Component(p.id) && '.' !in p.id && p.rendered == kind + "/" + p.id
    ensures Allowed(root, p) && !NamesFile(p) && Base(root, p) == root + [kind] + [p.id] + [p.filename]
  {
    TwoComponentsInside(root, kind, p.id);
    DotIn(p.id);
  }

  /**
   A template that renders to a directory and a job id: the document goes there under its own
   name, or with the id in its name when other bytes are in the way, and metadata.json beside it.
   */
  lemma DefaultDelivery(
    root: Place, sha: Hash, files: Store, p: Parcel, metadata: seq<Byte>, kind: string, stem: string, extension: string)
    requires Component(kind) && Component(p.id) && '.' !in p.id && p.rendered == kind + "/" + p.id
    requires p.filename == stem + "." + extension && stem != [] && extension != [] && '.' !in extension
    ensures var (r, after) := Delivered(root, sha, files, p, metadata);
      var directory := root + [kind] + [p.id];
      var own := directory + [p.filename];
      var name := if Free(sha, files, own, p) then p.filename else stem + "_" + IdPrefix(p.id) + "." + extension;
      r == Ok(directory + [name])
      && Wrote(files, after, directory + [name], p.content, directory + ["metadata.json"], metadata)
  {
    DirectoryBase(root, p, kind);
    StemAndSuffix(stem, extension);
    WritesBoth(root, sha, files, p, metadata);
    var directory := root + [kind] + [p.id];
    assert Parent(directory + [p.filename]) == directory;
    assert stem + "_" + IdPrefix(p.id) + "." + extension == stem + "_" + IdPrefix(p.id) + ("." + extension);
  }

  lemma FileBase(root: Place, p: Parcel, kind: string, name: string)
    requires Component(kind) && Component(name) && HasSuffix(name) && p.rendered == kind + "/" + name
    ensures Allowed(root, p) && NamesFile(p) && Base(root, p) == root + [kind] + [name]
  {
    TwoComponentsInside(root, kind, name);
  }

  lemma FileDocument(root: Place, sha: Hash, files: Store, p: Parcel, directory: Place, stem: string, extension: string)
    requires Allowed(root, p) && Base(root, p) == directory + [stem + "." + extension]
    requires stem != [] && extension != [] && '.' !in extension
    ensures var own := if Free(sha, files, directory + [stem + "." + extension], p) then stem
        else stem + "_" + IdPrefix(p.id);
      Document(root, sha, files, p) == directory + [own + "." + extension]
  {
    StemAndSuffix(stem, extension);
    assert Parent(directory + [stem + "." + extension]) == directory;
    assert stem + "_" + IdPrefix(p.id) + ("." + extension) == stem + "_" + IdPrefix(p.id) + "." + extension;
  }

  lemma FileMetadata(p: Parcel, directory: Place, own: string, extension: string)
    requires NamesFile(p) && own != [] && extension != [] && '.' !in extension
    ensures MetadataPath(p, directory + [own + "." + extension]) == directory + [own + ".metadata.json"]
  {
    StemAndSuffix(own, extension);
    assert Parent(directory + [own + "." + extension]) == directory;
  }

  /** A template that renders to a file name: the document takes that name, and the metadata its stem. */
  lemma FileTemplateDelivery(
    root: Place, sha: Hash, files: Store, p: Parcel, metadata: seq<Byte>, kind: string, stem: string, extension: string)
    requires Component(kind) && p.rendered == kind + "/" + (stem + "." + extension)
    requires Component(stem + "." + extension) && stem != [] && extension != [] && '.' !in extension
    ensures var (r, after) := Delivered(root, sha, files, p, metadata);
      var directory := root + [kind];
      var own := if Free(sha, files, directory + [stem + "." + extension], p) then stem
        else stem + "_" + IdPrefix(p.id);
      r == Ok(directory + [own + "." + extension])
      && Wrote(files, after, r.value, p.content, directory + [own + ".metadata.json"], metadata)
  {
    StemAndSuffix(stem, extension);
    FileBase(root, p, kind, stem + "." + extension);
    WritesBoth(root, sha, files, p, metadata);
    var directory := root + [kind];
    FileDocument(root, sha, files, p, directory, stem, extension);
    FileMetadata(p, directory, stem, extension);
    FileMetadata(p, directory, stem + "_" + IdPrefix(p.id), extension);
  }

  class FilesystemConnector {
    const root: Place
    const sha: Hash
    var files: Store

    constructor (root: Place, sha: Hash, files: Store)
      ensures this.root == root && this.sha == sha && this.files == files
    {
      this.root, this.sha, this.files := root, sha, files;
    }

    method Deliver(p: Parcel, metadata: seq<Byte>) returns (r: Result<Place, DeliveryError>)
      modifies this
      ensures (r, files) == Delivered(root, sha, old(files), p, metadata)
    {
      var relative := Parts(Split(p.rendered));
      var rendered := Resolve(root, relative);
      if Absolute(p.rendered) || !Inside(root, rendered) {
        return Err(OutsideRoot);
      }
      var isFile := relative != [] && HasSuffix(relative[|relative| - 1]);
      var destination := if isFile then Parent(rendered) else rendered;
      var document := if isFile then rendered else destination + [p.filename];
      assert document == Base(root, p) && Parent(document) == destination;
      if document in files {
        var existing := sha(files[document]);
        if existing != p.sha256 {
          document := destination + [Stem(Name(document)) + "_" + IdPrefix(p.id) + Suffix(Name(document))];
        }
      }
      assert document == Document(root, sha, files, p) && Parent(document) == destination;
      files := files[document := p.content];
      var name := if isFile then Stem(Name(document)) + ".metadata.json" else METADATA;
      files := files[destination + [name] := metadata];
      r := Ok(document);
    }
  }

  // ---------- Stability ----------

  /** What ingest and the job id guarantee: one plain name with a known suffix, a UUID, the job's own bytes. */
  predicate Proper(sha: Hash, p: Parcel) {
    && Component(p.filename) && HasSuffix(p.filename)
    && |p.id| >= 8 && (forall i :: 0 <= i < 8 ==> p.id[i] != '.')
    && p.sha256 == sha(p.content)
  }

  ghost predicate Injective(sha: Hash) {
    forall x, y :: sha(x) == sha(y) ==> x == y
  }

  /** No document or suffixed document of one parcel is another's suffixed document or metadata file. */
  predicate Apart(root: Place, p: Parcel, q: Parcel) {
    var base, other := Base(root, p), Base(root, q);
    (Allowed(root, p) && Allowed(root, q)) ==>
      && base != WithId(other, q.id)
      && base != MetadataPath(q, other) && base != MetadataPath(q, WithId(other, q.id))
      && WithId(base, p.id) != MetadataPath(q, other) && WithId(base, p.id) != MetadataPath(q, WithId(other, q.id))
  }

  /** The reference, once given, and the bytes that make the next delivery give it again. */
  predicate Settled(root: Place, files: Store, p: Parcel, reference: Place)
    requires Allowed(root, p)
  {
    var base := Base(root, p);
    if reference == base then base in files && files[base] == p.content
    else
      && reference == WithId(base, p.id) && reference in files && files[reference] == p.content
      && base in files && files[base] != p.content
  }

  lemma BaseHasSuffix(root: Place, sha: Hash, p: Parcel)
    requires Proper(sha, p) && Allowed(root, p)
    ensures HasSuffix(Name(Base(root, p)))
  {
    if NamesFile(p) {
      var parts := Parts(Split(p.rendered));
      ResolveKeepsName(root, parts);
    }
  }

  lemma DotDotHasNoSuffix()
    ensures !HasSuffix("..")
  {
    LastDotIs("..", 1);
  }

  /** A last part with a suffix is not "..", so it stays the last component. */
  lemma {:induction false} ResolveKeepsName(base: Place, parts: seq<string>)
    requires parts != [] && HasSuffix(parts[|parts| - 1])
    ensures var r := Resolve(base, parts); r != [] && r[|r| - 1] == parts[|parts| - 1]
    decreases |parts|
  {
    if |parts| == 1 {
      DotDotHasNoSuffix();
      assert Resolve(base, parts) == Resolve(base + [parts[0]], []);
    } else if parts[0] == ".." {
      ResolveKeepsName(if base == [] then [] else base[..|base| - 1], parts[1..]);
    } else {
      ResolveKeepsName(base + [parts[0]], parts[1..]);
    }
  }

  /** Suffixed names of jobs with different id prefixes differ. */
  lemma SuffixedNamesDiffer(a: string, b: string, x: string, y: string)
    requires HasSuffix(a) && HasSuffix(b) && |x| == 8 && |y| == 8
    requires forall i :: 0 <= i < 8 ==> x[i] != '.' && y[i] != '.'
    ensures Stem(a) + "_" + x + Suffix(a) == Stem(b) + "_" + y + Suffix(b) ==> x == y
  {
    var s, t := Stem(a) + "_" + x + Suffix(a), Stem(b) + "_" + y + Suffix(b);
    SuffixedDot(a, x);
    SuffixedDot(b, y);
    assert s[LastDot(s) - 8..LastDot(s)] == x && t[LastDot(t) - 8..LastDot(t)] == y;
  }

  lemma SuffixedDot(a: string, x: string)
    requires HasSuffix(a) && |x| == 8
    ensures LastDot(Stem(a) + "_" + x + Suffix(a)) == |Stem(a)| + 9
  {
    var s := Stem(a) + "_" + x + Suffix(a);
    var d := LastDot(a);
    assert forall k :: 0 <= k < |Suffix(a)| ==> Suffix(a)[k] == a[d + k] && s[d + 9 + k] == Suffix(a)[k];
    assert forall k :: d + 9 < k < |s| ==> s[k] == a[k - 9];
    LastDotIs(s, d + 9);
  }

  lemma DeliverSettles(root: Place, sha: Hash, files: Store, p: Parcel, metadata: seq<Byte>)
    requires Injective(sha) && Proper(sha, p) && Allowed(root, p) && Apart(root, p, p)
    ensures var (r, after) := Delivered(root, sha, files, p, metadata); Settled(root, after, p, r.value)
    ensures forall ref :: Settled(root, files, p, ref) ==> Delivered(root, sha, files, p, metadata).0 == Ok(ref)
  {
  }

  lemma SuffixedPathsDiffer(root: Place, sha: Hash, p: Parcel, q: Parcel)
    requires Proper(sha, p) && Proper(sha, q) && Allowed(root, p) && Allowed(root, q)
    requires IdPrefix(p.id) != IdPrefix(q.id)
    ensures WithId(Base(root, p), p.id) != WithId(Base(root, q), q.id)
  {
    BaseHasSuffix(root, sha, p);
    BaseHasSuffix(root, sha, q);
    var b, c := Base(root, p), Base(root, q);
    SuffixedNamesDiffer(Name(b), Name(c), IdPrefix(p.id), IdPrefix(q.id));
    assert Name(WithId(b, p.id)) == Stem(Name(b)) + "_" + IdPrefix(p.id) + Suffix(Name(b));
    assert Name(WithId(c, q.id)) == Stem(Name(c)) + "_" + IdPrefix(q.id) + Suffix(Name(c));
  }

  /** What a delivery does to one path: its document, its metadata, or nothing. */
  lemma DeliverWrites(root: Place, sha: Hash, files: Store, q: Parcel, metadata: seq<Byte>, path: Place)
    requires Allowed(root, q) && path in files
    requires path != MetadataPath(q, Document(root, sha, files, q))
    ensures var after := Delivered(root, sha, files, q, metadata).1;
      path in after && after[path] == if path == Document(root, sha, files, q) then q.content else files[path]
  {
  }

  /** A document name shared with another parcel is only written with the bytes it already has. */
  lemma BaseKept(root: Place, sha: Hash, files: Store, p: Parcel, q: Parcel, metadata: seq<Byte>)
    requires Injective(sha) && Proper(sha, q) && Allowed(root, p) && Allowed(root, q) && Base(root, p) in files
    requires Apart(root, p, q)
    ensures var base, after := Base(root, p), Delivered(root, sha, files, q, metadata).1;
      base in after && after[base] == files[base]
  {
    DeliverWrites(root, sha, files, q, metadata, Base(root, p));
  }

  /** Another job's suffixed document is not written at all. */
  lemma SuffixedKept(root: Place, sha: Hash, files: Store, p: Parcel, q: Parcel, metadata: seq<Byte>)
    requires Proper(sha, p) && Proper(sha, q) && Allowed(root, p) && Allowed(root, q)
    requires WithId(Base(root, p), p.id) in files
    requires Apart(root, p, q) && Apart(root, q, p) && IdPrefix(p.id) != IdPrefix(q.id)
    ensures var ref, after := WithId(Base(root, p), p.id), Delivered(root, sha, files, q, metadata).1;
      ref in after && after[ref] == files[ref]
  {
    SuffixedPathsDiffer(root, sha, p, q);
    DeliverWrites(root, sha, files, q, metadata, WithId(Base(root, p), p.id));
  }

  /** A delivery leaves what another parcel was given, and what makes that repeatable, as they are. */
  lemma DeliverKeeps(root: Place, sha: Hash, files: Store, p: Parcel, ref: Place, q: Parcel, metadata: seq<Byte>)
    requires Injective(sha) && Proper(sha, p) && Proper(sha, q) && Allowed(root, p) && Settled(root, files, p, ref)
    requires Apart(root, p, q) && Apart(root, q, p) && (p == q || IdPrefix(p.id) != IdPrefix(q.id))
    ensures Settled(root, Delivered(root, sha, files, q, metadata).1, p, ref)
  {
    if p == q {
      DeliverSettlesAgain(root, sha, files, p, ref, metadata);
    } else if Allowed(root, q) {
      BaseKept(root, sha, files, p, q, metadata);
      if ref != Base(root, p) {
        SuffixedKept(root, sha, files, p, q, metadata);
      }
    }
  }

  lemma DeliverSettlesAgain(root: Place, sha: Hash, files: Store, p: Parcel, ref: Place, metadata: seq<Byte>)
    requires Injective(sha) && Proper(sha, p) && Allowed(root, p) && Apart(root, p, p) && Settled(root, files, p, ref)
    ensures Settled(root, Delivered(root, sha, files, p, metadata).1, p, ref)
  {
    DeliverSettles(root, sha, files, p, metadata);
  }

  // ---------- Sequences of deliveries ----------

  /** The files after delivering all parcels in turn. */
  function After(root: Place, sha: Hash, files: Store, ps: seq<(Parcel, seq<Byte>)>): Store
    decreases |ps|
  {
    if ps == [] then files else After(root, sha, Delivered(root, sha, files, ps[0].0, ps[0].1).1, ps[1..])
  }

  /** Proper parcels, equal or with different id prefixes, whose names are apart. */
  predicate Compatible(root: Place, sha: Hash, p: Parcel, q: Parcel) {
    && Proper(sha, p) && Proper(sha, q) && (p == q || IdPrefix(p.id) != IdPrefix(q.id))
    && Apart(root, p, q) && Apart(root, q, p) && Apart(root, p, p)
  }

  ghost predicate AllCompatible(root: Place, sha: Hash, p: Parcel, ps: seq<(Parcel, seq<Byte>)>) {
    forall i {:trigger ps[i].0} :: 0 <= i < |ps| ==> Compatible(root, sha, p, ps[i].0)
  }

  lemma {:induction false} StaysSettled(
      root: Place, sha: Hash, files: Store, p: Parcel, ref: Place, ps: seq<(Parcel, seq<Byte>)>)
    requires Injective(sha) && AllCompatible(root, sha, p, ps) && Allowed(root, p) && Settled(root, files, p, ref)
    ensures Settled(root, After(root, sha, files, ps), p, ref)
    decreases |ps|
  {
    if ps != [] {
      var (q, metadata) := ps[0];
      DeliverKeeps(root, sha, files, p, ref, q, metadata);
      StaysSettled(root, sha, Delivered(root, sha, files, q, metadata).1, p, ref, ps[1..]);
    }
  }

  /**
   Whatever was delivered before and whatever is delivered later, a reference keeps its job's
   bytes, and delivering the job again gives the same reference.
   */
  lemma ReferencesStable(
      root: Place, sha: Hash, files: Store, p: Parcel, metadata: seq<Byte>, later: seq<(Parcel, seq<Byte>)>,
      again: seq<Byte>)
    requires Injective(sha) && Proper(sha, p) && Apart(root, p, p) && AllCompatible(root, sha, p, later)
    ensures var (r, after) := Delivered(root, sha, files, p, metadata);
      var end := After(root, sha, after, later);
      r.Ok? ==> r.value in end && end[r.value] == p.content && Delivered(root, sha, end, p, again).0 == r
  {
    var (r, after) := Delivered(root, sha, files, p, metadata);
    if r.Ok? {
      DeliverSettles(root, sha, files, p, metadata);
      StaysSettled(root, sha, after, p, r.value, later);
      DeliverSettles(root, sha, After(root, sha, after, later), p, again);
    }
  }

  /** Whatever the template renders to, a delivery writes inside the root or raises and writes nothing. */
  lemma WritesInside(root: Place, sha: Hash, files: Store, p: Parcel, metadata: seq<Byte>, path: Place)
    ensures var (r, after) := Delivered(root, sha, files, p, metadata);
      && (r.Ok? <==> !Absolute(p.rendered) && Inside(root, Resolve(root, Parts(Split(p.rendered)))))
      && (r.Ok? ==> Inside(root, r.value))
      && (r.Err? ==> after == files)
      && (path in after && (path !in files || after[path] != files[path]) ==> Inside(root, path))
  {
    if Allowed(root, p) {
      var target, document := Target(root, p), Document(root, sha, files, p);
      InsideParent(root, target, document);
      InsideParent(root, target, MetadataPath(p, document));
    }
  }

  lemma InsideParent(root: Place, target: Place, path: Place)
    requires Inside(root, target) && path != [] && (Parent(path) == target || Parent(path) == Parent(target))
    ensures Inside(root, path)
  {
    assert path[..|root|] == Parent(path)[..|root|] == target[..|root|];
  }

  // ---------- Why the names must be apart ----------

  /** The delivery takes the suffixed name, without looking whether it is free. */
  predicate TakesSuffixed(root: Place, sha: Hash, files: Store, q: Parcel) {
    Allowed(root, q) && Base(root, q) in files && sha(files[Base(root, q)]) != q.sha256
  }

  /**
   A delivered document loses its bytes to a later delivery exactly when it lies where that one
   writes its metadata, or where its suffixed name leads while its own name is taken.
   */
  lemma OverwrittenExactly(root: Place, sha: Hash, files: Store, ref: Place, q: Parcel, metadata: seq<Byte>)
    requires Injective(sha) && Proper(sha, q) && Allowed(root, q) && ref in files && files[ref] != metadata
    ensures var after := Delivered(root, sha, files, q, metadata).1;
      (ref !in after || after[ref] != files[ref]) <==>
        || ref == MetadataPath(q, Document(root, sha, files, q))
        || (TakesSuffixed(root, sha, files, q) && ref == WithId(Base(root, q), q.id) && files[ref] != q.content)
  {
    if ref != MetadataPath(q, Document(root, sha, files, q)) {
      DeliverWrites(root, sha, files, q, metadata, ref);
    }
  }

  /**
   A job whose document bears another job's suffixed name loses it: the suffixed name is written
   without looking whether it is taken.
   */
  lemma SuffixedNameOverwrites(root: Place, sha: Hash, files: Store, p: Parcel, q: Parcel, metadata: seq<Byte>)
    requires Allowed(root, p) && Allowed(root, q) && Base(root, p) == WithId(Base(root, q), q.id)
    requires Base(root, p) in files && files[Base(root, p)] == p.content && p.content != q.content
    requires p.content != metadata
    requires Base(root, q) in files && sha(files[Base(root, q)]) != q.sha256
    ensures var after := Delivered(root, sha, files, q, metadata).1;
      Base(root, p) in after && after[Base(root, p)] != p.content
  {
  }
}
