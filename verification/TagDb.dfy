/** The tag database of fuse/tag.c: printing it, and parsing it back line by line. Text is free of NUL. */
module TagDb {
  import opened Sums
  import opened Wrappers
  import CursorList

  /** A file with its tags, in the order of the file's tag table. */
  datatype FileTags = FileTags(name: string, tags: seq<string>)

  /** The file table and the tag table in their orders, and the file of the block being read. */
  datatype Db = Db(files: seq<FileTags>, tags: seq<string>, current: Option<string>)

  const MAX_LENGTH := 1000

  const EMPTY := Db([], [], None)

  predicate IsSpace(c: char) {
    c == ' ' || '\t' <= c <= '\r'
  }

  // ----- printing -------------------------------------------------------------------------------------

  ghost function TagLines(tags: seq<string>): string {
    if tags == [] then "" else TagLines(tags[..|tags| - 1]) + tags[|tags| - 1] + "\n"
  }

  ghost function Block(f: FileTags): string {
    if f.tags == [] then "" else "[" + f.name + "]\n" + TagLines(f.tags) + "\n"
  }

  /** file_list lists the newest file first. */
  ghost function Dump(files: seq<FileTags>): string {
    if files == [] then "" else Dump(files[1..]) + Block(files[0])
  }

  /** ht_to_list on the file table. */
  method FileList(files: seq<FileTags>) returns (l: CursorList.List<FileTags>)
    ensures l.Valid() && l.drift == 0 && l.Contents() == Reversed(files) && fresh(l) && fresh(l.nodes)
  {
    l := new CursorList.List<FileTags>();
    for i := 0 to |files|
      invariant l.Valid() && l.curpos == 0 && l.drift == 0 && fresh(l) && fresh(l.nodes)
      invariant l.Contents() == Reversed(files[..i])
    {
      ReversedAppend(files[..i], files[i]);
      assert files[..i + 1] == files[..i] + [files[i]];
      l.Add(files[i]);
    }
    assert files[..|files|] == files;
  }

  /** One turn of the loop in tag_db_dump. */
  method PrintFile(out0: string, f: FileTags) returns (out: string)
    ensures out == out0 + Block(f)
  {
    out := out0;
    if |f.tags| != 0 {
      out := out + "[" + f.name + "]\n";
      ghost var before := out;
      for j := 0 to |f.tags|
        invariant out == before + TagLines(f.tags[..j])
      {
        assert f.tags[..j + 1][..j] == f.tags[..j];
        out := out + f.tags[j] + "\n";
      }
      assert f.tags[..|f.tags|] == f.tags;
      out := out + "\n";
    }
  }

  /** tag_db_dump. */
  method TagDbDump(files: seq<FileTags>) returns (out: string)
    ensures out == Dump(files)
  {
    hide CursorList.List.Valid, CursorList.Elements, Dump, Block;
    var l := FileList(files);
    ghost var contents := l.Contents();
    var s := l.size;
    out := "";
    DumpOfNone(files);
    for i := 1 to s + 1
      invariant l.Valid() && l.drift == 0 && l.Contents() == contents && l.size == s
      invariant out == Dump(files[s + 1 - i..])
    {
      InRange(l, i);
      var x := l.Get(i);
      DumpStep(files, s - i);
      out := PrintFile(out, x.value);
    }
    assert files[0..] == files;
  }

  lemma InRange<T>(l: CursorList.List<T>, i: nat)
    requires l.Valid() && l.drift == 0 && i <= l.size
    ensures l.At(i) == i && i < |l.nodes|
  {
  }

  lemma DumpOfNone(files: seq<FileTags>)
    ensures Dump(files[|files|..]) == ""
  {
  }

  lemma DumpStep(files: seq<FileTags>, i: nat)
    requires i < |files|
    ensures Dump(files[i..]) == Dump(files[i + 1..]) + Block(files[i])
  {
    assert files[i..][1..] == files[i + 1..];
  }

  // ----- parsing --------------------------------------------------------------------------------------

  /** How much fgets reads into a buffer with `room` characters left. */
  ghost function LineLength(text: string, room: nat): (n: nat)
    ensures n <= |text| && n <= room && (text != "" && room > 0 ==> n > 0)
    ensures forall i :: 0 <= i < n - 1 ==> text[i] != '\n'
    ensures n < |text| && n < room ==> n > 0 && text[n - 1] == '\n'
  {
    if text == "" || room == 0 then 0
    else if text[0] == '\n' then 1
    else 1 + LineLength(text[1..], room - 1)
  }

  /** What `LineLength` is. */
  lemma {:induction false} LineLengthIs(text: string, room: nat, n: nat)
    requires n <= |text| && n <= room && forall i :: 0 <= i < n - 1 ==> text[i] != '\n'
    requires n == |text| || n == room || (n > 0 && text[n - 1] == '\n')
    ensures LineLength(text, room) == n
  {
    if text != "" && room != 0 && text[0] != '\n' {
      LineLengthIs(text[1..], room - 1, n - 1);
    }
  }

  ghost function Spaces(word: string): (n: nat)
    ensures n <= |word| && (n < |word| ==> !IsSpace(word[n]))
    ensures forall i :: 0 <= i < n ==> IsSpace(word[i])
  {
    if word != "" && IsSpace(word[0]) then 1 + Spaces(word[1..]) else 0
  }

  /** copy_word_until; without the end character it copies the whole string. */
  ghost function Until(word: string, end: char): (r: string)
    ensures r <= word && end !in r && (|r| < |word| ==> word[|r|] == end)
  {
    if word == "" || word[0] == end then "" else [word[0]] + Until(word[1..], end)
  }

  lemma {:induction false} UntilIs(word: string, end: char, n: nat)
    requires n <= |word| && (forall i :: 0 <= i < n ==> word[i] != end) && (n < |word| ==> word[n] == end)
    ensures Until(word, end) == word[..n]
  {
    if n > 0 {
      UntilIs(word[1..], end, n - 1);
    }
  }

  ghost predicate HasFile(files: seq<FileTags>, name: string) {
    exists i :: 0 <= i < |files| && files[i].name == name
  }

  /** parse_file: the file becomes the current one, if getattr accepts it. */
  ghost function OpenFile(db: Db, name: string, getattr: string -> bool): Db {
    if !getattr(name) then db.(current := None)
    else db.(files := if HasFile(db.files, name) then db.files else db.files + [FileTags(name, [])],
             current := Some(name))
  }

  ghost function Tagged(f: FileTags, name: string, tag: string): FileTags {
    if f.name == name && tag !in f.tags then f.(tags := f.tags + [tag]) else f
  }

  /** tag_get_or_create and, with a current file, tag_file. */
  ghost function AddTag(db: Db, tag: string): Db {
    db.(tags := if tag in db.tags then db.tags else db.tags + [tag],
        files := if db.current.None? then db.files
                 else seq(|db.files|, i requires 0 <= i < |db.files| => Tagged(db.files[i], db.current.value, tag)))
  }

  ghost function ParseTag(db: Db, word: string): Db {
    var data := Until(word, '\n');
    if data == "" then db else AddTag(db, data)
  }

  /** One line, not empty. */
  ghost function ParseLine(db: Db, line: string, getattr: string -> bool): Db
    requires line != ""
  {
    if line[0] == '#' then db
    else
      var word := line[Spaces(line)..];
      if word != "" && word[0] == '[' then OpenFile(db, Until(word[1..], ']'), getattr)
      else ParseTag(db, word)
  }

  ghost function Parse(db: Db, text: string, getattr: string -> bool): Db
    decreases |text|
  {
    if text == "" then db
    else
      var n := LineLength(text, MAX_LENGTH - 1);
      Parse(ParseLine(db, text[..n], getattr), text[n..], getattr)
  }

  /** fgets at position `at` of the file. */
  method Fgets(text: string, at: nat) returns (line: string)
    requires at <= |text|
    ensures line == text[at..][..LineLength(text[at..], MAX_LENGTH - 1)]
    ensures line == "" <==> at == |text|
  {
    var n := 0;
    while n < MAX_LENGTH - 1 && at + n < |text| && !(n > 0 && text[at + n - 1] == '\n')
      invariant n <= MAX_LENGTH - 1 && at + n <= |text|
      invariant forall j :: at <= j < at + n - 1 ==> text[j] != '\n'
    {
      n := n + 1;
    }
    assert forall j :: 0 <= j < |text[at..]| ==> text[at..][j] == text[at + j];
    LineLengthIs(text[at..], MAX_LENGTH - 1, n);
    line := text[at..at + n];
    assert text[at..][..n] == line;
  }

  method CopyWordUntil(word: string, end: char) returns (data: string)
    ensures data == Until(word, end)
  {
    var n := 0;
    while n < |word| && word[n] != end
      invariant n <= |word| && forall i :: 0 <= i < n ==> word[i] != end
    {
      n := n + 1;
    }
    UntilIs(word, end, n);
    data := word[..n];
  }

  lemma {:induction false} SpacesIs(word: string, n: nat)
    requires n <= |word| && (forall i :: 0 <= i < n ==> IsSpace(word[i])) && (n < |word| ==> !IsSpace(word[n]))
    ensures Spaces(word) == n
  {
    if n > 0 {
      SpacesIs(word[1..], n - 1);
    }
  }

  /** parse_file with file_get_or_create. */
  method ParseFile(db: Db, word: string, getattr: string -> bool) returns (r: Db)
    ensures r == OpenFile(db, Until(word, ']'), getattr)
  {
    var data := CopyWordUntil(word, ']');
    if !getattr(data) {
      return db.(current := None);
    }
    var found := false;
    for i := 0 to |db.files|
      invariant found <==> exists j :: 0 <= j < i && db.files[j].name == data
    {
      found := found || db.files[i].name == data;
    }
    r := db.(current := Some(data));
    if !found {
      r := r.(files := db.files + [FileTags(data, [])]);
    }
  }

  /** parse_tag with tag_file. */
  method ParseTagLine(db: Db, word: string) returns (r: Db)
    ensures r == ParseTag(db, word)
  {
    var data := CopyWordUntil(word, '\n');
    if |data| == 0 {
      return db;
    }
    var tags := db.tags;
    if data !in tags {
      tags := tags + [data];
    }
    var files := db.files;
    if db.current.Some? {
      files := [];
      for i := 0 to |db.files|
        invariant |files| == i && forall j :: 0 <= j < i ==> files[j] == Tagged(db.files[j], db.current.value, data)
      {
        var f := db.files[i];
        if f.name == db.current.value && data !in f.tags {
          f := f.(tags := f.tags + [data]);
        }
        files := files + [f];
      }
    }
    r := Db(files, tags, db.current);
  }

  /** The loop over leading white space. */
  method SkipSpaces(word: string) returns (i: nat)
    ensures i == Spaces(word)
  {
    i := 0;
    while i < |word| && IsSpace(word[i])
      invariant i <= |word| && forall j :: 0 <= j < i ==> IsSpace(word[j])
    {
      i := i + 1;
    }
    SpacesIs(word, i);
  }

  /** The body of the loop in parse_tags_db2. */
  method ParseWord(db: Db, word: string, getattr: string -> bool) returns (r: Db)
    requires word != ""
    ensures r == ParseLine(db, word, getattr)
  {
    if word[0] == '#' {
      return db;
    }
    var i := SkipSpaces(word);
    if i < |word| && word[i] == '[' {
      assert word[i..][1..] == word[i + 1..];
      r := ParseFile(db, word[i + 1..], getattr);
    } else {
      r := ParseTagLine(db, word[i..]);
    }
  }

  /** parse_tags_db2. */
  method ParseTagsDb(text: string, getattr: string -> bool) returns (db: Db)
    ensures db == Parse(EMPTY, text, getattr)
  {
    hide Parse, ParseLine, LineLength;
    db := EMPTY;
    var at := 0;
    assert text[0..] == text;
    var word := Fgets(text, at);
    while word != ""
      invariant at <= |text| && word == text[at..][..LineLength(text[at..], MAX_LENGTH - 1)]
      invariant (word == "" <==> at == |text|)
      invariant Parse(db, text[at..], getattr) == Parse(EMPTY, text, getattr)
      decreases |text| - at
    {
      LineParsed(db, text, at, getattr);
      at := at + |word|;
      db := ParseWord(db, word, getattr);
      word := Fgets(text, at);
    }
    NothingParsed(db, text, at, getattr);
  }

  lemma {:induction false} LineParsed(db: Db, text: string, at: nat, getattr: string -> bool)
    requires at < |text|
    ensures var n := LineLength(text[at..], MAX_LENGTH - 1);
            && 0 < n && at + n <= |text|
            && Parse(db, text[at..], getattr) == Parse(ParseLine(db, text[at..][..n], getattr), text[at + n..], getattr)
  {
    var n := LineLength(text[at..], MAX_LENGTH - 1);
    assert text[at..][n..] == text[at + n..];
  }

  lemma NothingParsed(db: Db, text: string, at: nat, getattr: string -> bool)
    requires at == |text|
    ensures Parse(db, text[at..], getattr) == db
  {
  }
}
