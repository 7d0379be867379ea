/** Parsing a printed tag database gives it back, in the other order of files. */
module TagDbRoundTrip {
  import opened Sums
  import opened Wrappers
  import opened TagDb

  /** File names that survive a header line. */
  ghost predicate CleanName(name: string) {
    ']' !in name && '\n' !in name && |name| <= MAX_LENGTH - 3
  }

  /** Tags that survive a line of their own. */
  ghost predicate CleanTag(tag: string) {
    && tag != "" && '\n' !in tag && |tag| <= MAX_LENGTH - 1
    && tag[0] != '#' && tag[0] != '[' && !IsSpace(tag[0])
  }

  ghost predicate CleanFile(f: FileTags, getattr: string -> bool) {
    && CleanName(f.name) && getattr(f.name)
    && NoDup(f.tags) && forall i :: 0 <= i < |f.tags| ==> CleanTag(f.tags[i])
  }

  ghost predicate CleanFiles(files: seq<FileTags>, getattr: string -> bool) {
    && (forall i :: 0 <= i < |files| ==> CleanFile(files[i], getattr))
    && forall i, j :: 0 <= i < j < |files| ==> files[i].name != files[j].name
  }

  ghost function KeptOne(f: FileTags): seq<FileTags> {
    if f.tags == [] then [] else [f]
  }

  ghost function WithTags(files: seq<FileTags>): seq<FileTags> {
    if files == [] then []
    else KeptOne(files[0]) + WithTags(files[1..])
  }

  // ----- lines ----------------------------------------------------------------------------------------

  /** Text that ends with a line is parsed before what follows it. */
  lemma {:induction false} ParseConcat(db: Db, a: string, b: string, getattr: string -> bool)
    requires a == "" || a[|a| - 1] == '\n'
    ensures Parse(db, a + b, getattr) == Parse(Parse(db, a, getattr), b, getattr)
    decreases |a|
  {
    if a == "" {
      assert a + b == b;
    } else {
      var n := LineLength(a, MAX_LENGTH - 1);
      LineLengthIs(a + b, MAX_LENGTH - 1, n);
      assert (a + b)[..n] == a[..n] && (a + b)[n..] == a[n..] + b;
      ParseConcat(ParseLine(db, a[..n], getattr), a[n..], b, getattr);
    }
  }

  lemma {:induction false} ParseBlank(db: Db, getattr: string -> bool)
    ensures Parse(db, "\n", getattr) == db
  {
    LineLengthIs("\n", MAX_LENGTH - 1, 1);
    assert "\n"[..1] == "\n" && "\n"[1..] == "";
    SpacesIs("\n", 1);
    UntilIs("\n"[1..], '\n', 0);
  }

  /** A line and its newline, when the buffer may be full just before the newline. */
  lemma {:induction false} ParseOneLine(db: Db, line: string, getattr: string -> bool)
    requires line != "" && '\n' !in line && |line| <= MAX_LENGTH - 1
    ensures Parse(db, line + "\n", getattr)
            == ParseLine(db, if |line| < MAX_LENGTH - 1 then line + "\n" else line, getattr)
  {
    var text := line + "\n";
    if |line| < MAX_LENGTH - 1 {
      LineLengthIs(text, MAX_LENGTH - 1, |text|);
      assert text[..|text|] == text && text[|text|..] == "";
    } else {
      LineLengthIs(text, MAX_LENGTH - 1, |line|);
      assert text[..|line|] == line && text[|line|..] == "\n";
      ParseBlank(ParseLine(db, line, getattr), getattr);
    }
  }

  /** The first character decides how a line is read. */
  lemma {:induction false} ParseTagLineText(db: Db, tag: string, line: string, getattr: string -> bool)
    requires CleanTag(tag) && (line == tag || line == tag + "\n")
    ensures ParseLine(db, line, getattr) == AddTag(db, tag)
  {
    SpacesIs(line, 0);
    assert line[0..] == line;
    UntilIs(line, '\n', |tag|);
    assert line[..|tag|] == tag;
  }

  lemma {:induction false} ParseHeaderText(db: Db, name: string, line: string, getattr: string -> bool)
    requires ']' !in name && (line == "[" + name + "]" || line == "[" + name + "]\n")
    ensures ParseLine(db, line, getattr) == OpenFile(db, name, getattr)
  {
    SpacesIs(line, 0);
    assert line[0..] == line;
    UntilIs(line[1..], ']', |name|);
    assert line[1..][..|name|] == name;
  }

  lemma {:induction false} ParseCleanTag(db: Db, tag: string, getattr: string -> bool)
    requires CleanTag(tag)
    ensures Parse(db, tag + "\n", getattr) == AddTag(db, tag)
  {
    ParseOneLine(db, tag, getattr);
    ParseTagLineText(db, tag, if |tag| < MAX_LENGTH - 1 then tag + "\n" else tag, getattr);
  }

  lemma {:induction false} ParseCleanName(db: Db, name: string, getattr: string -> bool)
    requires CleanName(name)
    ensures Parse(db, "[" + name + "]\n", getattr) == OpenFile(db, name, getattr)
  {
    var line := "[" + name + "]";
    assert "[" + name + "]\n" == line + "\n";
    ParseOneLine(db, line, getattr);
    ParseHeaderText(db, name, if |line| < MAX_LENGTH - 1 then line + "\n" else line, getattr);
  }

  // ----- blocks ---------------------------------------------------------------------------------------

  ghost function AddTags(db: Db, tags: seq<string>): Db {
    if tags == [] then db else AddTag(AddTags(db, tags[..|tags| - 1]), tags[|tags| - 1])
  }

  lemma EndsWithNewline(a: string, b: string)
    requires b != "" && b[|b| - 1] == '\n'
    ensures (a + b)[|a + b| - 1] == '\n'
  {
  }

  lemma {:induction false} ParseTagLines(db: Db, tags: seq<string>, getattr: string -> bool)
    requires forall i :: 0 <= i < |tags| ==> CleanTag(tags[i])
    ensures Parse(db, TagLines(tags), getattr) == AddTags(db, tags)
    ensures TagLines(tags) == "" || TagLines(tags)[|TagLines(tags)| - 1] == '\n'
  {
    if tags != [] {
      var init, tag := tags[..|tags| - 1], tags[|tags| - 1];
      hide CleanTag, Parse, AddTag;
      ParseTagLines(db, init, getattr);
      ParseConcat(db, TagLines(init), tag + "\n", getattr);
      ParseCleanTag(AddTags(db, init), tag, getattr);
      assert TagLines(tags) == TagLines(init) + (tag + "\n");
      EndsWithNewline(TagLines(init), tag + "\n");
    } else {
      hide AddTag;
    }
  }

  /** Reading tags into a file that was just opened fills exactly that file. */
  lemma {:induction false} FillFile(db: Db, name: string, tags: seq<string>)
    requires db.current == Some(name) && db.files != [] && db.files[|db.files| - 1] == FileTags(name, [])
    requires forall i :: 0 <= i < |db.files| - 1 ==> db.files[i].name != name
    requires NoDup(tags)
    ensures var db' := AddTags(db, tags);
            && db'.files == db.files[..|db.files| - 1] + [FileTags(name, tags)] && db'.current == db.current
            && forall t :: t in db'.tags <==> t in db.tags || t in tags
  {
    if tags == [] {
      assert db.files == db.files[..|db.files| - 1] + [db.files[|db.files| - 1]];
    } else {
      var init, tag := tags[..|tags| - 1], tags[|tags| - 1];
      FillFile(db, name, init);
      var mid := AddTags(db, init);
      assert tags == init + [tag];
      assert tag !in init;
      assert AddTags(db, tags) == AddTag(mid, tag);
      var rest := db.files[..|db.files| - 1];
      var after := AddTag(mid, tag).files;
      assert forall i :: 0 <= i < |rest| ==> after[i] == mid.files[i];
      assert after[|rest|] == FileTags(name, init + [tag]);
      assert after == rest + [FileTags(name, tags)];
    }
  }

  lemma {:induction false} ParseBlock(db: Db, f: FileTags, getattr: string -> bool)
    requires CleanFile(f, getattr) && f.tags != [] && !HasFile(db.files, f.name)
    ensures var db' := Parse(db, Block(f), getattr);
            db'.files == db.files + [f] && forall t :: t in db'.tags <==> t in db.tags || t in f.tags
    ensures Block(f) != "" && Block(f)[|Block(f)| - 1] == '\n'
  {
    hide Parse, CleanTag, AddTag, CleanName;
    var header, lines := "[" + f.name + "]\n", TagLines(f.tags);
    ParseConcat(db, header, lines + "\n", getattr);
    ParseCleanName(db, f.name, getattr);
    var opened_ := OpenFile(db, f.name, getattr);
    ParseTagLines(opened_, f.tags, getattr);
    ParseConcat(opened_, lines, "\n", getattr);
    ParseBlank(AddTags(opened_, f.tags), getattr);
    FillFile(opened_, f.name, f.tags);
    assert Block(f) == header + (lines + "\n");
    EndsWithNewline(header + lines, "\n");
  }

  ghost predicate SomeFileHas(files: seq<FileTags>, tag: string) {
    exists i :: 0 <= i < |files| && tag in files[i].tags
  }

  // ----- the whole file -------------------------------------------------------------------------------

  lemma {:induction false} DumpEndsWithNewline(files: seq<FileTags>)
    ensures Dump(files) == "" || Dump(files)[|Dump(files)| - 1] == '\n'
  {
    if files != [] {
      DumpEndsWithNewline(files[1..]);
      var block := Block(files[0]);
      if block == "" {
        assert Dump(files) == Dump(files[1..]);
      } else {
        EndsWithNewline("[" + files[0].name + "]\n" + TagLines(files[0].tags), "\n");
        EndsWithNewline(Dump(files[1..]), block);
      }
    }
  }

  lemma {:induction false} WithTagsMembers(files: seq<FileTags>, f: FileTags)
    ensures f in WithTags(files) <==> f in files && f.tags != []
  {
    if files != [] {
      WithTagsMembers(files[1..], f);
      assert files == [files[0]] + files[1..];
    }
  }

  lemma ReversedMembers<T>(s: seq<T>, x: T)
    ensures x in Reversed(s) <==> x in s
  {
    if i :| 0 <= i < |s| && s[i] == x {
      assert Reversed(s)[|s| - 1 - i] == x;
    }
  }

  lemma NameIsNew(files: seq<FileTags>, getattr: string -> bool)
    requires CleanFiles(files, getattr) && files != []
    ensures !HasFile(Reversed(WithTags(files[1..])), files[0].name)
  {
    var r := Reversed(WithTags(files[1..]));
    if i :| 0 <= i < |r| && r[i].name == files[0].name {
      ReversedMembers(WithTags(files[1..]), r[i]);
      WithTagsMembers(files[1..], r[i]);
    }
  }

  /** Round trip: the parser rebuilds every file that has tags, with its tags in order, in the reverse
      order of the file table, and no other file and no other tag. */
  lemma {:induction false} RoundTrip(files: seq<FileTags>, getattr: string -> bool)
    requires CleanFiles(files, getattr)
    ensures var db := Parse(EMPTY, Dump(files), getattr);
            && db.files == Reversed(WithTags(files))
            && forall t :: t in db.tags <==> SomeFileHas(files, t)
  {
    if files == [] {
      NoText(getattr);
    } else {
      RoundTrip(files[1..], getattr);
      ParseRest(files, getattr);
      ParseFirst(files, Parse(EMPTY, Dump(files[1..]), getattr), getattr);
      hide *;
      FirstOrRest(files);
    }
  }

  lemma {:induction false} ParseRest(files: seq<FileTags>, getattr: string -> bool)
    requires files != []
    ensures Parse(EMPTY, Dump(files), getattr) == Parse(Parse(EMPTY, Dump(files[1..]), getattr), Block(files[0]), getattr)
  {
    hide Parse, Block;
    DumpEndsWithNewline(files[1..]);
    ParseConcat(EMPTY, Dump(files[1..]), Block(files[0]), getattr);
  }

  /** The block printed last, that of the oldest file. */
  lemma {:induction false} ParseFirst(files: seq<FileTags>, db: Db, getattr: string -> bool)
    requires CleanFiles(files, getattr) && files != [] && db.files == Reversed(WithTags(files[1..]))
    ensures var db' := Parse(db, Block(files[0]), getattr);
            db'.files == Reversed(WithTags(files)) && forall t :: t in db'.tags <==> t in db.tags || t in files[0].tags
  {
    hide Parse, Block, CleanFile, HasFile;
    var f, rest := files[0], files[1..];
    if f.tags != [] {
      NameIsNew(files, getattr);
      ParseBlock(db, f, getattr);
      ReversedPrepend(f, WithTags(rest));
    } else {
      NoBlock(f, db, getattr);
      assert WithTags(files) == WithTags(rest);
    }
  }

  lemma NoText(getattr: string -> bool)
    ensures Parse(EMPTY, "", getattr) == EMPTY
  {
  }

  lemma NoBlock(f: FileTags, db: Db, getattr: string -> bool)
    requires f.tags == []
    ensures Block(f) == "" && Parse(db, Block(f), getattr) == db
  {
  }

  lemma FirstOrRest(files: seq<FileTags>)
    requires files != []
    ensures forall t :: SomeFileHas(files, t) <==> t in files[0].tags || SomeFileHas(files[1..], t)
  {
    forall t | SomeFileHas(files, t) ensures t in files[0].tags || SomeFileHas(files[1..], t) {
      var i :| 0 <= i < |files| && t in files[i].tags;
      if i > 0 {
        assert files[1..][i - 1] == files[i];
      }
    }
  }

  // ----- twice ----------------------------------------------------------------------------------------

  /** The blocks of the printed text, in its order. */
  ghost function Blocks(files: seq<FileTags>): seq<string> {
    if files == [] then [] else Blocks(files[1..]) + (if files[0].tags == [] then [] else [Block(files[0])])
  }

  ghost function Concat(blocks: seq<string>): string {
    if blocks == [] then "" else Concat(blocks[..|blocks| - 1]) + blocks[|blocks| - 1]
  }

  lemma {:induction false} DumpIsBlocks(files: seq<FileTags>)
    ensures Dump(files) == Concat(Blocks(files))
  {
    if files != [] {
      DumpIsBlocks(files[1..]);
      var rest := Blocks(files[1..]);
      assert (rest + [Block(files[0])])[..|rest|] == rest && rest + [] == rest;
      assert Dump(files) == Dump(files[1..]) + Block(files[0]);
    }
  }

  lemma {:induction false} BlocksAppend(files: seq<FileTags>, f: FileTags)
    ensures Blocks(files + [f]) == (if f.tags == [] then [] else [Block(f)]) + Blocks(files)
  {
    if files == [] {
      assert files + [f] == [f] && [f][1..] == [];
    } else {
      BlocksAppend(files[1..], f);
      assert (files + [f])[1..] == files[1..] + [f];
    }
  }

  lemma {:induction false} BlocksReversed(files: seq<FileTags>)
    ensures Blocks(Reversed(WithTags(files))) == Reversed(Blocks(files))
  {
    if files != [] {
      hide Block, WithTags, Reversed;
      var f, rest := files[0], files[1..];
      BlocksReversed(rest);
      assert files == [f] + rest;
      WithTagsFirst(f, rest);
      if f.tags == [] {
        assert [] + WithTags(rest) == WithTags(rest) && Blocks(rest) + [] == Blocks(rest);
      } else {
        BlocksAppend(Reversed(WithTags(rest)), f);
        ReversedAppend(Blocks(rest), Block(f));
        ReversedPrepend(f, WithTags(rest));
      }
    }
  }

  lemma ReversedTwice<T>(s: seq<T>)
    ensures Reversed(Reversed(s)) == s
  {
  }

  lemma {:induction false} CleanAgain(files: seq<FileTags>, getattr: string -> bool)
    requires CleanFiles(files, getattr)
    ensures CleanFiles(Reversed(WithTags(files)), getattr)
  {
    if files != [] {
      hide CleanFile;
      CleanAgain(files[1..], getattr);
      if files[0].tags != [] {
        NameIsNew(files, getattr);
        var r := Reversed(WithTags(files[1..]));
        ReversedPrepend(files[0], WithTags(files[1..]));
        forall i | 0 <= i < |r| ensures r[i].name != files[0].name {
          assert HasFile(r, r[i].name);
        }
      } else {
        assert WithTags(files) == WithTags(files[1..]);
      }
    }
  }

  /** What a dump leaves out it leaves out the first time. */
  lemma {:induction false} NothingMoreLeftOut(files: seq<FileTags>)
    ensures WithTags(Reversed(WithTags(files))) == Reversed(WithTags(files))
  {
    if files != [] {
      NothingMoreLeftOut(files[1..]);
      if files[0].tags != [] {
        ReversedPrepend(files[0], WithTags(files[1..]));
        AllWithTags(Reversed(WithTags(files[1..])), files[0]);
      } else {
        assert WithTags(files) == WithTags(files[1..]);
      }
    }
  }

  lemma {:induction false} AllWithTags(r: seq<FileTags>, f: FileTags)
    requires WithTags(r) == r && f.tags != []
    ensures WithTags(r + [f]) == r + [f]
  {
    WithTagsAppend(r, f);
  }

  lemma {:induction false} WithTagsFirst(f: FileTags, r: seq<FileTags>)
    ensures WithTags([f] + r) == KeptOne(f) + WithTags(r)
  {
    assert ([f] + r)[1..] == r;
  }

  lemma {:induction false} WithTagsAppend(r: seq<FileTags>, f: FileTags)
    ensures WithTags(r + [f]) == WithTags(r) + KeptOne(f)
  {
    if r == [] {
      WithTagsFirst(f, []);
      assert r + [f] == [f] + [];
    } else {
      hide WithTags, KeptOne;
      WithTagsAppend(r[1..], f);
      WithTagsFirst(r[0], r[1..]);
      WithTagsFirst(r[0], r[1..] + [f]);
      assert r == [r[0]] + r[1..] && r + [f] == [r[0]] + (r[1..] + [f]);
      Associate(KeptOne(r[0]), WithTags(r[1..]), KeptOne(f));
    }
  }

  /** Printing what was parsed gives the same blocks in the reverse order, and a second round gives the
      first text again. */
  lemma SecondRound(files: seq<FileTags>, getattr: string -> bool)
    requires CleanFiles(files, getattr)
    ensures var once := Parse(EMPTY, Dump(files), getattr).files;
            var twice := Parse(EMPTY, Dump(once), getattr).files;
            && Blocks(once) == Reversed(Blocks(files)) && Dump(once) == Concat(Reversed(Blocks(files)))
            && twice == WithTags(files) && Dump(twice) == Dump(files)
  {
    hide Parse, CleanFiles;
    RoundTrip(files, getattr);
    CleanAgain(files, getattr);
    NothingMoreLeftOut(files);
    var once := Reversed(WithTags(files));
    RoundTrip(once, getattr);
    ReversedTwice(WithTags(files));
    BlocksReversed(files);
    BlocksReversed(once);
    ReversedTwice(Blocks(files));
    DumpIsBlocks(files);
    DumpIsBlocks(once);
    DumpIsBlocks(WithTags(files));
  }
}
