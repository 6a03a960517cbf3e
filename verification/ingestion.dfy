/**
 * The ingestion engine: reads a batch of files into pictures, one reader per file,
 * and returns once every file has been attempted (a latch counted down once per file).
 * The EXIF reader is an oracle: `extract` gives each file's outcome.
 */
module Ingestion {
  import opened Wrappers
  import opened Model
  import Lists

  // ---------------------------------------------------------------------------
  // Tag-name sanitisation: removing every match of the regular expression [^\w]
  // ---------------------------------------------------------------------------

  /** Java's `\w` without the Unicode flag: [a-zA-Z_0-9]. */
  predicate IsWordChar(c: char)
  {
    ('a' <= c <= 'z') || ('A' <= c <= 'Z') || ('0' <= c <= '9') || c == '_'
  }

  predicate AllWordChars(s: string)
  {
    forall i :: 0 <= i < |s| ==> IsWordChar(s[i])
  }

  /** `s.replaceAll("[^\\w]", "")`. */
  function Sanitize(s: string): (r: string)
    ensures AllWordChars(r)
    ensures |r| <= |s|
  {
    if s == [] then []
    else if IsWordChar(s[0]) then [s[0]] + Sanitize(s[1..])
    else Sanitize(s[1..])
  }

  /** Sanitising works character by character, so it keeps the relative order of what it keeps. */
  lemma {:induction false} SanitizeAppend(a: string, b: string)
    ensures Sanitize(a + b) == Sanitize(a) + Sanitize(b)
  {
    if a == [] {
      assert a + b == b;
    } else {
      assert (a + b)[1..] == a[1..] + b;
      SanitizeAppend(a[1..], b);
    }
  }

  /** A name made of word characters only is left as it is. */
  lemma {:induction false} SanitizeWordString(s: string)
    requires AllWordChars(s)
    ensures Sanitize(s) == s
  {
    if s != [] {
      SanitizeWordString(s[1..]);
      assert [s[0]] + s[1..] == s;
    }
  }

  /** Sanitising twice is sanitising once. */
  lemma SanitizeIdempotent(s: string)
    ensures Sanitize(Sanitize(s)) == Sanitize(s)
  {
    SanitizeWordString(Sanitize(s));
  }

  /** Every word character of the name survives, as many times as it occurs; nothing else does. */
  lemma {:induction false} SanitizeKeepsWordChars(s: string, c: char)
    ensures multiset(Sanitize(s))[c] == if IsWordChar(c) then multiset(s)[c] else 0
  {
    if s != [] {
      SanitizeKeepsWordChars(s[1..], c);
      assert s == [s[0]] + s[1..];
      assert multiset(s) == multiset{s[0]} + multiset(s[1..]);
      if IsWordChar(s[0]) {
        assert multiset(Sanitize(s)) == multiset{s[0]} + multiset(Sanitize(s[1..]));
      }
    }
  }

  // ---------------------------------------------------------------------------
  // Metadata maps: later entries with the same key overwrite earlier ones
  // ---------------------------------------------------------------------------

  /** The map obtained by putting the pairs in order, as `Map.put` does. */
  function Assoc<K, V>(kvs: seq<(K, V)>): (m: map<K, V>)
    ensures forall i :: 0 <= i < |kvs| ==> kvs[i].0 in m
  {
    if kvs == [] then map[]
    else
      var n := |kvs| - 1;
      var m := Assoc(kvs[..n]);
      assert forall i :: 0 <= i < n ==> kvs[..n][i] == kvs[i];
      m[kvs[n].0 := kvs[n].1]
  }

  /** Every entry of the map comes from one of the pairs. */
  lemma {:induction false} AssocFrom<K, V>(kvs: seq<(K, V)>, k: K)
    requires k in Assoc(kvs)
    ensures exists i :: 0 <= i < |kvs| && kvs[i] == (k, Assoc(kvs)[k])
  {
    var n := |kvs| - 1;
    if kvs[n].0 != k {
      AssocFrom(kvs[..n], k);
      var i :| 0 <= i < n && kvs[..n][i] == (k, Assoc(kvs[..n])[k]);
      assert kvs[i] == kvs[..n][i];
    }
  }

  /** The last pair with a given key decides its value. */
  lemma {:induction false} AssocLastWins<K, V>(kvs: seq<(K, V)>, i: nat)
    requires i < |kvs|
    requires forall j :: i < j < |kvs| ==> kvs[j].0 != kvs[i].0
    ensures Assoc(kvs)[kvs[i].0] == kvs[i].1
  {
    var n := |kvs| - 1;
    if i < n {
      assert kvs[..n][i] == kvs[i];
      assert forall j :: i < j < n ==> kvs[..n][j] == kvs[j];
      AssocLastWins(kvs[..n], i);
    }
  }

  /** One EXIF tag: its name and the description the tag descriptor gives for it. */
  datatype Tag = Tag(name: string, description: string)

  /** One metadata directory of a file. */
  datatype Directory = Directory(name: string, tags: seq<Tag>)

  /** What the EXIF reader returns for a readable file. */
  datatype RawMetadata = RawMetadata(thumbnailData: Option<seq<bv8>>, directories: seq<Directory>)

  /** Why reading a file failed. */
  datatype ReadError = ImageProcessingError | FileIOError

  datatype ReadResult = ReadFailed(error: ReadError) | ReadOk(raw: RawMetadata)

  /** The (sanitised tag name, description) pairs of a directory, in tag order. */
  function TagEntries(tags: seq<Tag>): seq<(string, string)>
  {
    seq(|tags|, i requires 0 <= i < |tags| => (Sanitize(tags[i].name), tags[i].description))
  }

  /** A directory's entry: sanitised tag name -> description. */
  function TagMap(tags: seq<Tag>): map<string, string>
  {
    Assoc(TagEntries(tags))
  }

  /** The (directory name, tag map) pairs of a file, in directory order. */
  function DirectoryEntries(dirs: seq<Directory>): seq<(string, map<string, string>)>
  {
    seq(|dirs|, i requires 0 <= i < |dirs| => (dirs[i].name, TagMap(dirs[i].tags)))
  }

  /** The metadata map of a picture: one entry per directory name. */
  function MetadataOf(dirs: seq<Directory>): (m: Metadata)
    ensures forall i :: 0 <= i < |dirs| ==> dirs[i].name in m
  {
    var e := DirectoryEntries(dirs);
    assert forall i :: 0 <= i < |dirs| ==> e[i].0 == dirs[i].name;
    Assoc(e)
  }

  /**
   * The metadata map holds exactly the directory names, each tag name in it is made of word
   * characters, and the last directory and the last tag with a given name win.
   */
  lemma MetadataShape(dirs: seq<Directory>, d: nat, t: nat)
    requires d < |dirs| && t < |dirs[d].tags|
    requires forall j :: d < j < |dirs| ==> dirs[j].name != dirs[d].name
    requires forall j :: t < j < |dirs[d].tags| ==>
               Sanitize(dirs[d].tags[j].name) != Sanitize(dirs[d].tags[t].name)
    ensures dirs[d].name in MetadataOf(dirs) && MetadataOf(dirs)[dirs[d].name] == TagMap(dirs[d].tags)
    ensures Sanitize(dirs[d].tags[t].name) in TagMap(dirs[d].tags)
    ensures MetadataOf(dirs)[dirs[d].name][Sanitize(dirs[d].tags[t].name)] == dirs[d].tags[t].description
  {
    AssocLastWins(DirectoryEntries(dirs), d);
    AssocLastWins(TagEntries(dirs[d].tags), t);
  }

  /** Every key of every directory's map is a sanitised name. */
  lemma MetadataKeysAreWords(dirs: seq<Directory>, dn: string, k: string)
    requires dn in MetadataOf(dirs) && k in MetadataOf(dirs)[dn]
    ensures AllWordChars(k)
  {
    AssocFrom(DirectoryEntries(dirs), dn);
    var i :| 0 <= i < |dirs| && DirectoryEntries(dirs)[i] == (dn, MetadataOf(dirs)[dn]);
    AssocFrom(TagEntries(dirs[i].tags), k);
  }

  /** The thumbnail: the EXIF thumbnail bytes when present, otherwise an empty array. */
  function ThumbnailOf(raw: RawMetadata): (b: seq<bv8>)
    ensures raw.thumbnailData.None? ==> b == []
    ensures raw.thumbnailData.Some? ==> b == raw.thumbnailData.value
  {
    match raw.thumbnailData
    case Some(data) => data
    case None => []
  }
}

module IngestionBatch {
  import opened Wrappers
  import opened Model
  import opened Ingestion
  import Lists

  /** The observable value of a picture. */
  datatype PictureData = PictureData(file: File, fileName: string, template: Template, metadata: Metadata,
                                     thumbnail: seq<bv8>, rendering: Rendering, state: State)

  function ValueOf(p: Picture): PictureData
    reads p
  {
    PictureData(p.file, p.fileName, p.template, p.metadata, p.thumbnail, p.rendering, p.state)
  }

  /** The observable values of a list of pictures, in list order. */
  function Values(ps: seq<Picture>): (r: seq<PictureData>)
    reads ps
    ensures |r| == |ps|
  {
    if ps == [] then [] else Values(ps[..|ps| - 1]) + [ValueOf(ps[|ps| - 1])]
  }

  /** The values of a concatenation are the values of its parts. */
  lemma {:induction false} ValuesAppend(a: seq<Picture>, b: seq<Picture>)
    ensures Values(a + b) == Values(a) + Values(b)
  {
    if b == [] {
      assert a + b == a;
    } else {
      var n := |b| - 1;
      assert (a + b)[..|a + b| - 1] == a + b[..n];
      ValuesAppend(a, b[..n]);
    }
  }

  /** Entry `k` of the values is the value of picture `k`. */
  lemma {:induction false} ValuesAt(ps: seq<Picture>, k: nat)
    requires k < |ps|
    ensures Values(ps)[k] == ValueOf(ps[k])
  {
    var n := |ps| - 1;
    if k < n {
      ValuesAt(ps[..n], k);
    }
  }

  /**
   * What one file contributes: nothing when its metadata cannot be read, otherwise one pending
   * picture named by the file's absolute path, built with the batch's template and rendered for `user`.
   */
  function Yield(file: File, result: ReadResult, template: Template, user: User): (r: seq<PictureData>)
    ensures |r| <= 1
    ensures r == [] <==> result.ReadFailed?
  {
    match result
    case ReadFailed(_) => []
    case ReadOk(raw) =>
      [PictureData(file, file.absolutePath, template, MetadataOf(raw.directories), ThumbnailOf(raw),
                   RenderedFor(user), Pending)]
  }

  /**
   * A readable file's picture is pending, is named by the file's absolute path, carries the batch's
   * template, the file's thumbnail and metadata, and is rendered for `user`.
   */
  lemma YieldPicture(file: File, result: ReadResult, template: Template, user: User)
    requires result.ReadOk?
    ensures var r := Yield(file, result, template, user);
      && r[0].file == file && r[0].fileName == file.absolutePath && r[0].template == template
      && r[0].rendering == RenderedFor(user) && r[0].state == Pending
      && r[0].thumbnail == ThumbnailOf(result.raw)
      && r[0].metadata == MetadataOf(result.raw.directories)
  {
  }

  /** The pictures of a whole batch, file after file. */
  function Expected(files: seq<File>, extract: File -> ReadResult, template: Template, user: User): (r: seq<PictureData>)
    ensures forall k :: 0 <= k < |r| ==> r[k].state == Pending && r[k].template == template
  {
    if files == [] then []
    else
      var n := |files| - 1;
      Expected(files[..n], extract, template, user) + Yield(files[n], extract(files[n]), template, user)
  }

  /** The pictures of the first `i` files followed by those of file `i` are those of the first `i + 1`. */
  lemma ValuesStep(done: seq<Picture>, step: seq<Picture>, files: seq<File>, i: nat,
                   extract: File -> ReadResult, template: Template, user: User)
    requires i < |files|
    requires Values(done) == Expected(files[..i], extract, template, user)
    requires Values(step) == Yield(files[i], extract(files[i]), template, user)
    ensures Values(done + step) == Expected(files[..i + 1], extract, template, user)
  {
    assert files[..i + 1][..i] == files[..i];
    ValuesAppend(done, step);
  }

  /** Number of files whose metadata could not be read. */
  function Failures(files: seq<File>, extract: File -> ReadResult): (k: nat)
    ensures k <= |files|
  {
    if files == [] then 0
    else
      var n := |files| - 1;
      Failures(files[..n], extract) + if extract(files[n]).ReadFailed? then 1 else 0
  }

  /** The failures of a concatenation are the failures of its parts. */
  lemma {:induction false} FailuresAppend(a: seq<File>, b: seq<File>, extract: File -> ReadResult)
    ensures Failures(a + b, extract) == Failures(a, extract) + Failures(b, extract)
  {
    if b == [] {
      assert a + b == a;
    } else {
      var n := |b| - 1;
      assert (a + b)[..|a| + n] == a + b[..n];
      FailuresAppend(a, b[..n], extract);
    }
  }

  /** The batch holds one picture per readable file: |pictures| = |files| - failures. */
  lemma {:induction false} ExpectedSize(files: seq<File>, extract: File -> ReadResult, template: Template, user: User)
    ensures |Expected(files, extract, template, user)| == |files| - Failures(files, extract)
  {
    if files != [] {
      ExpectedSize(files[..|files| - 1], extract, template, user);
    }
  }

  /** `copy`: stores the directory's tags, under their sanitised names, as the directory's entry. */
  method Copy(metadata: Metadata, directory: Directory) returns (m: Metadata)
    ensures m == metadata[directory.name := TagMap(directory.tags)]
  {
    var tags := directory.tags;
    var bean: map<string, string> := map[];
    for i := 0 to |tags|
      invariant bean == Assoc(TagEntries(tags)[..i])
    {
      assert TagEntries(tags)[..i + 1][..i] == TagEntries(tags)[..i];
      bean := bean[Sanitize(tags[i].name) := tags[i].description];
    }
    assert TagEntries(tags)[..|tags|] == TagEntries(tags);
    m := metadata[directory.name := bean];
  }

  /** A batch of files being read, with the latch the caller waits on. */
  class Pictures {
    const files: seq<File>
    const defaultTemplate: Template
    var pictures: seq<Picture>
    /** Readers still to finish. */
    var latch: nat

    ghost predicate Valid()
      reads this
    {
      latch <= |files|
    }

    constructor (files: seq<File>, defaultTemplate: Template)
      ensures this.files == files && this.defaultTemplate == defaultTemplate
      ensures pictures == [] && latch == |files| && Valid()
    {
      this.files := files;
      this.defaultTemplate := defaultTemplate;
      pictures := [];
      latch := |files|;
    }

    /** The `copy` loop of `PictureReader.run`: one entry per metadata directory, in directory order. */
    static method ReadMetadata(dirs: seq<Directory>) returns (metadata: Metadata)
      ensures metadata == MetadataOf(dirs)
    {
      metadata := map[];
      for i := 0 to |dirs|
        invariant metadata == Assoc(DirectoryEntries(dirs)[..i])
      {
        assert DirectoryEntries(dirs)[..i + 1][..i] == DirectoryEntries(dirs)[..i];
        metadata := Copy(metadata, dirs[i]);
      }
      assert DirectoryEntries(dirs)[..|dirs|] == DirectoryEntries(dirs);
    }

    /** `PictureReader.run`: reads one file, appends its picture if any, and always counts the latch down. */
    method ReadPicture(file: File, user: User, result: ReadResult) returns (ghost added: seq<Picture>)
      requires latch > 0
      modifies this`pictures, this`latch
      ensures latch == old(latch) - 1
      ensures pictures == old(pictures) + added
      ensures Values(added) == Yield(file, result, defaultTemplate, user)
      ensures forall k :: 0 <= k < |added| ==> fresh(added[k])
      ensures Lists.Distinct(old(pictures)) ==> Lists.Distinct(pictures)
    {
      added := [];
      match result {
        case ReadFailed(_) =>
        case ReadOk(raw) =>
          var thumbnail: seq<bv8>;
          if raw.thumbnailData.Some? {
            thumbnail := raw.thumbnailData.value;
          } else {
            thumbnail := [];
          }
          var metadata := ReadMetadata(raw.directories);
          var picture := new Picture(file, file.absolutePath, defaultTemplate, metadata, thumbnail);
          picture.RenderTemplate(user);
          pictures := pictures + [picture];
          added := [picture];
          assert [picture][..0] == [];
      }
      latch := latch - 1;
    }

    /**
     * `readFiles`: runs one reader per file, file after file, and then waits on the latch, which
     * an uninterrupted wait finds at zero; the pictures appended are the batch's expected ones.
     */
    method ReadFiles(user: User, extract: File -> ReadResult) returns (ghost added: seq<Picture>)
      requires Valid() && latch == |files|
      modifies this`pictures, this`latch
      ensures Valid() && latch == 0
      ensures pictures == old(pictures) + added
      ensures Values(added) == Expected(files, extract, defaultTemplate, user)
      ensures forall k :: 0 <= k < |added| ==> fresh(added[k])
      ensures Lists.Distinct(old(pictures)) ==> Lists.Distinct(pictures)
    {
      added := [];
      for i := 0 to |files|
        invariant latch == |files| - i
        invariant pictures == old(pictures) + added
        invariant forall k :: 0 <= k < |added| ==> fresh(added[k])
        invariant Lists.Distinct(old(pictures)) ==> Lists.Distinct(pictures)
        invariant Values(added) == Expected(files[..i], extract, defaultTemplate, user)
      {
        ghost var step := ReadPicture(files[i], user, extract(files[i]));
        ValuesStep(added, step, files, i, extract, defaultTemplate, user);
        Lists.AppendAssoc(old(pictures), added, step);
        added := added + step;
      }
      assert files[..|files|] == files;
    }
  }

  /** `new Pictures(files, template)`, `readFiles` and `getPictures`: the batch's pictures, all new. */
  method ReadBatch(files: seq<File>, defaultTemplate: Template, user: User, extract: File -> ReadResult)
    returns (r: seq<Picture>)
    ensures |r| == |Expected(files, extract, defaultTemplate, user)|
    ensures forall k :: 0 <= k < |r| ==>
              fresh(r[k]) && ValueOf(r[k]) == Expected(files, extract, defaultTemplate, user)[k]
    ensures Lists.Distinct(r)
  {
    var batch := new Pictures(files, defaultTemplate);
    ghost var added := batch.ReadFiles(user, extract);
    r := batch.pictures;
    assert r == added;
    forall k | 0 <= k < |r| ensures ValueOf(r[k]) == Expected(files, extract, defaultTemplate, user)[k] {
      ValuesAt(r, k);
    }
  }
}
