/** What each line of a tag database means to the parser, and what text is printed, in so many words. */
module TagDbLines {
  import opened Sums
  import opened Wrappers
  import opened TagDb
  import opened TagDbExact
  import opened TagDbRoundTrip
  import Strings

  /** Space, tab, newline, vertical tab, form feed and carriage return. */
  predicate White(c: char) {
    c as int in {32, 9, 10, 11, 12, 13}
  }

  /** White space on one line. */
  ghost predicate Indent(s: string) {
    forall i :: 0 <= i < |s| ==> White(s[i]) && s[i] != '\n'
  }

  lemma WhiteIsSpace(c: char)
    ensures White(c) <==> IsSpace(c)
  {
  }

  // ----- comments -------------------------------------------------------------------------------------

  /** A comment does nothing. */
  lemma {:induction false} CommentLine(db: Db, c: string, getattr: string -> bool)
    requires '\n' !in c && |c| <= 998
    ensures Parse(db, "#" + c + "\n", getattr) == db
  {
    var line := "#" + c;
    ParseOneLine(db, line, getattr);
  }

  /** So it can stand between any two complete lines, the header and the tags of a file included. */
  lemma {:induction false} CommentAnywhere(db: Db, a: string, c: string, b: string, getattr: string -> bool)
    requires a == "" || a[|a| - 1] == '\n'
    requires '\n' !in c && |c| <= 998
    ensures Parse(db, a + ("#" + c + "\n") + b, getattr) == Parse(db, a + b, getattr)
  {
    var comment := "#" + c + "\n";
    var mid := Parse(db, a, getattr);
    ParseConcat(db, a, comment, getattr);
    CommentLine(mid, c, getattr);
    ParseConcat(db, a + comment, b, getattr);
    ParseConcat(db, a, b, getattr);
  }

  // ----- white space ----------------------------------------------------------------------------------

  lemma {:induction false} SkipsIndent(spaces: string, rest: string)
    requires Indent(spaces) && (rest == "" || !White(rest[0]))
    ensures Spaces(spaces + rest) == |spaces| && (spaces + rest)[|spaces|..] == rest
  {
    forall i | 0 <= i < |spaces| ensures IsSpace((spaces + rest)[i]) {
      WhiteIsSpace(spaces[i]);
    }
    if rest != "" {
      WhiteIsSpace(rest[0]);
    }
    SpacesIs(spaces + rest, |spaces|);
  }

  /** A line is read from its first character that is not white space, except that only '#' at its very
      beginning starts a comment. */
  lemma {:induction false} IndentedLine(db: Db, spaces: string, word: string, getattr: string -> bool)
    requires Indent(spaces) && word != "" && !White(word[0]) && (spaces == "" ==> word[0] != '#')
    ensures ParseLine(db, spaces + word, getattr)
            == if word[0] == '[' then OpenFile(db, Until(word[1..], ']'), getattr) else ParseTag(db, word)
  {
    hide OpenFile, ParseTag, Until;
    SkipsIndent(spaces, word);
    assert spaces != "" ==> White(spaces[0]);
  }

  /** The text of a line with its newline, of which the buffer may have no room for the last. */
  lemma {:induction false} OneLine(db: Db, spaces: string, word: string, getattr: string -> bool)
    requires spaces + word != "" && '\n' !in spaces + word && |spaces| + |word| <= 999
    ensures Parse(db, spaces + word + "\n", getattr)
            == ParseLine(db, spaces + if |spaces| + |word| < 999 then word + "\n" else word, getattr)
  {
    hide Parse, ParseLine;
    ParseOneLine(db, spaces + word, getattr);
    assert spaces + word + "\n" == spaces + (word + "\n");
  }

  /** A line of white space does nothing. */
  lemma {:induction false} BlankLine(db: Db, spaces: string, getattr: string -> bool)
    requires Indent(spaces) && |spaces| <= 999
    ensures Parse(db, spaces + "\n", getattr) == db
  {
    if spaces == "" {
      assert spaces + "\n" == "\n";
      ParseBlank(db, getattr);
    } else {
      ParseOneLine(db, spaces, getattr);
      var line := if |spaces| < 999 then spaces + "\n" else spaces;
      forall i | 0 <= i < |line| ensures IsSpace(line[i]) {
        WhiteIsSpace(line[i]);
      }
      SpacesIs(line, |line|);
    }
  }

  // ----- tags -----------------------------------------------------------------------------------------

  /** A tag may be indented, and then even start with '#'. It is one of the tags from then on, and one of the
      current file's, if there is a current file. */
  lemma {:induction false} TagLine(db: Db, spaces: string, tag: string, getattr: string -> bool)
    requires Indent(spaces) && tag != "" && '\n' !in tag && !White(tag[0]) && tag[0] != '['
    requires spaces == "" ==> tag[0] != '#'
    requires |spaces| + |tag| <= 999
    ensures var r := Parse(db, spaces + tag + "\n", getattr);
            && r.current == db.current && r.tags == (if tag in db.tags then db.tags else db.tags + [tag])
            && |r.files| == |db.files|
            && forall i :: 0 <= i < |db.files| ==>
                 var f := db.files[i];
                 r.files[i] == FileTags(f.name, if db.current == Some(f.name) && tag !in f.tags then f.tags + [tag] else f.tags)
  {
    hide Parse, ParseLine, AddTag;
    AddTagAdds(db, tag);
    NoNewline(spaces, tag);
    OneLine(db, spaces, tag, getattr);
    var word := if |spaces| + |tag| < 999 then tag + "\n" else tag;
    IndentedLine(db, spaces, word, getattr);
    UntilIs(word, '\n', |tag|);
    assert word[..|tag|] == tag;
  }

  lemma NoNewline(spaces: string, word: string)
    requires Indent(spaces) && '\n' !in word
    ensures '\n' !in spaces + word
  {
  }

  lemma AddTagAdds(db: Db, tag: string)
    ensures var r := AddTag(db, tag);
            && r.current == db.current && r.tags == (if tag in db.tags then db.tags else db.tags + [tag])
            && |r.files| == |db.files|
            && forall i :: 0 <= i < |db.files| ==>
                 var f := db.files[i];
                 r.files[i] == FileTags(f.name, if db.current == Some(f.name) && tag !in f.tags then f.tags + [tag] else f.tags)
  {
  }

  // ----- headers --------------------------------------------------------------------------------------

  lemma {:induction false} NameOf(name: string, rest: string)
    requires ']' !in name && (rest == "" || rest[0] == ']')
    ensures ("[" + name + rest)[1..] == name + rest && Until(name + rest, ']') == name
  {
    UntilIs(name + rest, ']', |name|);
    assert (name + rest)[..|name|] == name;
  }

  /** A header may be indented, and what follows its bracket is ignored. The file becomes the current one, at the
      end of the table if it was not there; when getattr refuses it, there is no current file. */
  lemma {:induction false} HeaderLine(db: Db, spaces: string, name: string, rest: string, getattr: string -> bool)
    requires Indent(spaces) && ']' !in name && '\n' !in name && '\n' !in rest
    requires |spaces| + |name| + |rest| <= 997
    ensures Parse(db, spaces + ("[" + name + "]" + rest) + "\n", getattr) == OpenFile(db, name, getattr)
    ensures var r := Parse(db, spaces + ("[" + name + "]" + rest) + "\n", getattr);
            && r.tags == db.tags && r.current == (if getattr(name) then Some(name) else None)
            && r.files == if getattr(name) && forall i :: 0 <= i < |db.files| ==> db.files[i].name != name
                          then db.files + [FileTags(name, [])] else db.files
  {
    hide Parse, ParseLine, OpenFile, Until;
    OpenFileOpens(db, name, getattr);
    var word := "[" + name + "]" + rest;
    NoNewline(spaces, word);
    OneLine(db, spaces, word, getattr);
    var end := if |spaces| + |word| < 999 then "\n" else "";
    IndentedLine(db, spaces, word + end, getattr);
    assert word + end == "[" + name + ("]" + rest + end);
    NameOf(name, "]" + rest + end);
    assert (if |spaces| + |word| < 999 then word + "\n" else word) == word + end;
  }

  /** A header without its bracket takes the newline into the name. */
  lemma {:induction false} OpenHeader(db: Db, spaces: string, name: string, getattr: string -> bool)
    requires Indent(spaces) && ']' !in name && '\n' !in name && |spaces| + |name| <= 997
    ensures Parse(db, spaces + ("[" + name) + "\n", getattr) == OpenFile(db, name + "\n", getattr)
  {
    hide Parse, ParseLine, OpenFile, Until;
    NoNewline(spaces, "[" + name);
    OneLine(db, spaces, "[" + name, getattr);
    var word := "[" + name + "\n";
    IndentedLine(db, spaces, word, getattr);
    assert word == "[" + (name + "\n") + "";
    NameOf(name + "\n", "");
    assert name + "\n" + "" == name + "\n";
  }

  lemma OpenFileOpens(db: Db, name: string, getattr: string -> bool)
    ensures var r := OpenFile(db, name, getattr);
            && r.tags == db.tags && r.current == (if getattr(name) then Some(name) else None)
            && r.files == if getattr(name) && forall i :: 0 <= i < |db.files| ==> db.files[i].name != name
                          then db.files + [FileTags(name, [])] else db.files
  {
  }

  // ----- long lines -----------------------------------------------------------------------------------

  /** A line is read 999 characters at a time, and what is left of it is read as a line of its own. */
  lemma {:induction false} LongLine(db: Db, line: string, rest: string, getattr: string -> bool)
    requires '\n' !in line && |line| >= 999
    ensures Parse(db, line + rest, getattr) == Parse(ParseLine(db, line[..999], getattr), line[999..] + rest, getattr)
  {
    var text := line + rest;
    forall i | 0 <= i < 999 ensures text[i] != '\n' {
      assert text[i] == line[i] && line[i] in line;
    }
    LineLengthIs(text, MAX_LENGTH - 1, 999);
    assert text[..999] == line[..999] && text[999..] == line[999..] + rest;
  }

  /** So a longer tag is cut: its first 999 characters are one tag and the others start another line. */
  lemma {:induction false} LongTag(db: Db, tag: string, getattr: string -> bool)
    requires |tag| >= 999 && '\n' !in tag && !White(tag[0]) && tag[0] != '[' && tag[0] != '#'
    ensures Parse(db, tag + "\n", getattr) == Parse(AddTag(db, tag[..999]), tag[999..] + "\n", getattr)
  {
    hide Parse, ParseLine, AddTag;
    LongLine(db, tag, "\n", getattr);
    var first := tag[..999];
    IndentedLine(db, "", first, getattr);
    assert "" + first == first;
    UntilIs(first, '\n', 999);
    assert first[..999] == first;
  }

  /** A tag and a file name that are otherwise fit to be read back have 999 and 997 characters at most. */
  lemma Limits(db: Db, tag: string, name: string, getattr: string -> bool)
    requires tag !in db.tags && tag != "" && '\n' !in tag && !White(tag[0]) && tag[0] != '[' && tag[0] != '#'
    requires !HasFile(db.files, name) && getattr(name) && ']' !in name && '\n' !in name
    ensures Parse(db, tag + "\n", getattr) == AddTag(db, tag) <==> |tag| <= 999
    ensures Parse(db, "[" + name + "]\n", getattr) == OpenFile(db, name, getattr) <==> |name| <= 997
  {
    TagLineExact(db, tag, getattr);
    HeaderExact(db, name, getattr);
    WhiteIsSpace(tag[0]);
  }

  // ----- blocks that are not new ----------------------------------------------------------------------

  /** The tags below a header that getattr refuses come to be tags of no file. */
  lemma {:induction false} RefusedBlock(db: Db, name: string, tags: seq<string>, getattr: string -> bool)
    requires CleanName(name) && !getattr(name) && forall i :: 0 <= i < |tags| ==> CleanTag(tags[i])
    ensures var r := Parse(db, "[" + name + "]\n" + TagLines(tags), getattr);
            r.files == db.files && r.current == None && forall c :: c in r.tags <==> c in db.tags || c in tags
  {
    hide Parse, CleanName, CleanTag;
    var opened_ := OpenFile(db, name, getattr);
    ParseConcat(db, "[" + name + "]\n", TagLines(tags), getattr);
    ParseCleanName(db, name, getattr);
    ParseTagLines(opened_, tags, getattr);
    AddTagsToNone(opened_, tags);
  }

  lemma {:induction false} AddTagsToNone(db: Db, tags: seq<string>)
    requires db.current == None
    ensures var r := AddTags(db, tags);
            r.files == db.files && r.current == None && forall c :: c in r.tags <==> c in db.tags || c in tags
  {
    if tags != [] {
      var init, last := tags[..|tags| - 1], tags[|tags| - 1];
      AddTagsToNone(db, init);
      assert tags == init + [last];
    }
  }

  /** File `i` has gained those of `tags` that it lacked, and no other file has changed. */
  ghost predicate GrownAt(before: seq<FileTags>, after: seq<FileTags>, i: nat, tags: seq<string>) {
    && |after| == |before| && i < |before| && after[i].name == before[i].name
    && (forall c :: c in after[i].tags <==> c in before[i].tags || c in tags)
    && (NoDup(before[i].tags) ==> NoDup(after[i].tags))
    && (forall j :: 0 <= j < |before| && j != i ==> after[j] == before[j])
  }

  /** A second block of a file adds to its tags what they lack, and changes no other file. */
  lemma {:induction false} SecondBlock(db: Db, f: FileTags, i: nat, getattr: string -> bool)
    requires i < |db.files| && db.files[i].name == f.name && f.tags != []
    requires forall j :: 0 <= j < |db.files| && j != i ==> db.files[j].name != f.name
    requires CleanName(f.name) && getattr(f.name) && forall j :: 0 <= j < |f.tags| ==> CleanTag(f.tags[j])
    ensures GrownAt(db.files, Parse(db, Block(f), getattr).files, i, f.tags)
  {
    hide Parse, CleanTag, AddTag, CleanName, AddTags, TagLines, GrownAt;
    var header, lines := "[" + f.name + "]\n", TagLines(f.tags);
    ParseConcat(db, header, lines + "\n", getattr);
    ParseCleanName(db, f.name, getattr);
    var opened_ := OpenFile(db, f.name, getattr);
    assert HasFile(db.files, f.name);
    ParseTagLines(opened_, f.tags, getattr);
    ParseConcat(opened_, lines, "\n", getattr);
    ParseBlank(AddTags(opened_, f.tags), getattr);
    assert Block(f) == header + (lines + "\n");
    AddTagsToOne(opened_, f.tags, i);
  }

  lemma {:induction false} AddTagsToOne(db: Db, tags: seq<string>, i: nat)
    requires i < |db.files| && db.current == Some(db.files[i].name)
    requires forall j :: 0 <= j < |db.files| && j != i ==> db.files[j].name != db.files[i].name
    ensures GrownAt(db.files, AddTags(db, tags).files, i, tags) && AddTags(db, tags).current == db.current
  {
    hide GrownAt, AddTag;
    if tags == [] {
      NotGrown(db.files, i);
    } else {
      var init, last := tags[..|tags| - 1], tags[|tags| - 1];
      AddTagsToOne(db, init, i);
      AddTagAdds(AddTags(db, init), last);
      GrownMore(db.files, AddTags(db, init), i, init, last);
      assert tags == init + [last];
    }
  }

  lemma NotGrown(files: seq<FileTags>, i: nat)
    requires i < |files|
    ensures GrownAt(files, files, i, [])
  {
  }

  lemma GrownMore(before: seq<FileTags>, mid: Db, i: nat, tags: seq<string>, last: string)
    requires GrownAt(before, mid.files, i, tags) && mid.current == Some(before[i].name)
    requires forall j :: 0 <= j < |before| && j != i ==> before[j].name != before[i].name
    ensures GrownAt(before, AddTag(mid, last).files, i, tags + [last])
  {
    hide AddTag;
    AddTagAdds(mid, last);
  }

  // ----- the printed text -----------------------------------------------------------------------------

  /** The text of one file: its name in brackets and its tags, each on a line, and an empty line. */
  ghost function FileText(f: FileTags): string {
    "[" + f.name + "]\n" + Strings.Join(f.tags, "\n") + "\n\n"
  }

  ghost function FileTexts(files: seq<FileTags>): (r: seq<string>)
    ensures |r| == |files|
  {
    seq(|files|, i requires 0 <= i < |files| => FileText(files[i]))
  }

  lemma {:induction false} TagLinesText(tags: seq<string>)
    requires tags != []
    ensures TagLines(tags) == Strings.Join(tags, "\n") + "\n"
  {
    var init, last := tags[..|tags| - 1], tags[|tags| - 1];
    if init == [] {
      assert tags == [last];
    } else {
      TagLinesText(init);
      JoinLast(init, last, "\n");
      assert tags == init + [last];
    }
  }

  lemma {:induction false} JoinLast(pieces: seq<string>, last: string, delim: string)
    requires pieces != []
    ensures Strings.Join(pieces + [last], delim) == Strings.Join(pieces, delim) + delim + last
  {
    if |pieces| == 1 {
      assert (pieces + [last])[1..] == [last];
    } else {
      JoinLast(pieces[1..], last, delim);
      assert (pieces + [last])[1..] == pieces[1..] + [last];
    }
  }

  lemma TextPrinted(f: FileTags)
    requires f.tags != []
    ensures Block(f) == FileText(f)
  {
    hide Strings.Join, TagLines;
    TagLinesText(f.tags);
  }

  lemma LastText(texts: seq<string>, text: string)
    ensures Strings.Join(texts + [text], "") == Strings.Join(texts, "") + text
  {
    if texts == [] {
      assert texts + [text] == [text];
    } else {
      JoinLast(texts, text, "");
    }
  }

  lemma FileTextsAppend(files: seq<FileTags>, f: FileTags)
    ensures FileTexts(files + [f]) == FileTexts(files) + [FileText(f)]
  {
    hide FileText;
  }

  /** What is printed: the texts of the files that have tags, the newest file first. */
  lemma {:induction false} DumpText(files: seq<FileTags>)
    ensures Dump(files) == Strings.Join(FileTexts(Reversed(WithTags(files))), "")
  {
    hide Block, FileText, FileTexts, Reversed, Strings.Join;
    if files == [] {
      NothingPrinted();
    } else {
      var f, rest := files[0], files[1..];
      DumpText(rest);
      if f.tags == [] {
        NoneOf(f);
        assert WithTags(files) == WithTags(rest);
      } else {
        TextPrinted(f);
        ReversedPrepend(f, WithTags(rest));
        FileTextsAppend(Reversed(WithTags(rest)), f);
        LastText(FileTexts(Reversed(WithTags(rest))), FileText(f));
      }
    }
  }

  lemma NothingPrinted()
    ensures Strings.Join(FileTexts(Reversed([])), "") == ""
  {
  }

  lemma NoneOf(f: FileTags)
    requires f.tags == []
    ensures Block(f) == ""
  {
  }

  /** One file with tags, by itself. */
  lemma FileTextPrinted(f: FileTags)
    requires f.tags != []
    ensures Dump([f]) == "[" + f.name + "]\n" + Strings.Join(f.tags, "\n") + "\n\n"
  {
    TagLinesText(f.tags);
    assert [f][1..] == [];
  }
}
