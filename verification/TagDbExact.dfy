/** Exactly which names and tags survive being printed on a line. */
module TagDbExact {
  import opened TagDb
  import opened TagDbRoundTrip

  lemma {:induction false} LineTag(db: Db, line: string, getattr: string -> bool, x: string)
    requires line != "" && x !in db.tags && x in ParseLine(db, line, getattr).tags
    ensures x != "" && '\n' !in x && |x| <= |line|
    ensures line[|line| - 1] == '\n' || IsSpace(line[0]) ==> |x| < |line|
    ensures line[0] != '#' && line[0] != '['
  {
    var word := line[Spaces(line)..];
    assert x == Until(word, '\n');
    if |x| == |line| {
      assert word == line;
      assert x == line;
    }
  }

  /** Tags that parsing adds are not empty, have no newline, and are shorter than the text. */
  lemma {:induction false} NewTags(db: Db, text: string, getattr: string -> bool, x: string)
    requires x !in db.tags && x in Parse(db, text, getattr).tags
    ensures x != "" && '\n' !in x && |x| <= |text|
    ensures text != "" && text[|text| - 1] == '\n' ==> |x| < |text|
    decreases |text|
  {
    var n := LineLength(text, MAX_LENGTH - 1);
    var next := ParseLine(db, text[..n], getattr);
    if x in next.tags {
      LineTag(db, text[..n], getattr, x);
    } else {
      NewTags(next, text[n..], getattr, x);
    }
  }

  lemma {:induction false} UncleanTagIsLost(db: Db, tag: string, getattr: string -> bool)
    requires tag !in db.tags && !CleanTag(tag)
    ensures tag !in Parse(db, tag + "\n", getattr).tags
  {
    var text := tag + "\n";
    if tag in Parse(db, text, getattr).tags {
      NewTags(db, text, getattr, tag);
      var n := LineLength(text, MAX_LENGTH - 1);
      var next := ParseLine(db, text[..n], getattr);
      if tag in next.tags {
        LineTag(db, text[..n], getattr, tag);
      } else {
        NewTags(next, text[n..], getattr, tag);
      }
    }
  }

  /** A new tag printed on its line is read back as that tag exactly when it is clean. */
  lemma TagLineExact(db: Db, tag: string, getattr: string -> bool)
    requires tag !in db.tags
    ensures Parse(db, tag + "\n", getattr) == AddTag(db, tag) <==> CleanTag(tag)
  {
    if CleanTag(tag) {
      ParseCleanTag(db, tag, getattr);
    } else {
      UncleanTagIsLost(db, tag, getattr);
    }
  }

  lemma SameNames(db: Db, tag: string, x: string)
    ensures HasFile(AddTag(db, tag).files, x) <==> HasFile(db.files, x)
  {
    var files := AddTag(db, tag).files;
    assert forall i :: 0 <= i < |files| ==> files[i].name == db.files[i].name;
    if HasFile(db.files, x) {
      var i :| 0 <= i < |db.files| && db.files[i].name == x;
      assert files[i].name == x;
    }
  }

  lemma {:induction false} LineFile(db: Db, line: string, getattr: string -> bool, x: string)
    requires line != "" && (forall i :: 0 <= i < |line| - 1 ==> line[i] != '\n')
    requires !HasFile(db.files, x) && HasFile(ParseLine(db, line, getattr).files, x)
    ensures |x| < |line| && forall i :: 0 <= i < |x| - 1 ==> x[i] != '\n'
  {
    var word := line[Spaces(line)..];
    if word != "" && word[0] == '[' {
      var r := Until(word[1..], ']');
      assert forall i :: 0 <= i < |r| ==> r[i] == line[Spaces(line) + 1 + i];
    } else {
      SameNames(db, Until(word, '\n'), x);
    }
  }

  /** Names of files that parsing adds are shorter than the text, and a newline can only end them. */
  lemma {:induction false} NewFiles(db: Db, text: string, getattr: string -> bool, x: string)
    requires !HasFile(db.files, x) && HasFile(Parse(db, text, getattr).files, x)
    ensures |x| < |text| && forall i :: 0 <= i < |x| - 1 ==> x[i] != '\n'
    decreases |text|
  {
    var n := LineLength(text, MAX_LENGTH - 1);
    var next := ParseLine(db, text[..n], getattr);
    if HasFile(next.files, x) {
      LineFile(db, text[..n], getattr, x);
    } else {
      NewFiles(next, text[n..], getattr, x);
    }
  }

  /** The first line of a header. */
  lemma {:induction false} HeaderLine(db: Db, name: string, getattr: string -> bool)
    ensures var text := "[" + name + "]\n";
            var n := LineLength(text, MAX_LENGTH - 1);
            && n > 1 && ParseLine(db, text[..n], getattr) == OpenFile(db, Until(text[1..n], ']'), getattr)
            && Parse(db, text, getattr) == Parse(OpenFile(db, Until(text[1..n], ']'), getattr), text[n..], getattr)
  {
    var text := "[" + name + "]\n";
    var n := LineLength(text, MAX_LENGTH - 1);
    assert text[0] == '[' && text[..n][0] == '[';
    SpacesIs(text[..n], 0);
    assert text[..n][0..] == text[..n] && text[..n][1..] == text[1..n];
  }

  /** A name that is cut off right before the closing bracket: the bracket becomes a tag of the file. */
  lemma {:induction false} BracketBecomesTag(db: Db, name: string, getattr: string -> bool)
    requires !HasFile(db.files, name) && getattr(name)
    ensures Parse(OpenFile(db, name, getattr), "]\n", getattr) != OpenFile(db, name, getattr)
  {
    var opened_ := OpenFile(db, name, getattr);
    assert "]" + "\n" == "]\n";
    ParseCleanTag(opened_, "]", getattr);
    var i := |db.files|;
    assert opened_.files[i] == FileTags(name, []);
    assert AddTag(opened_, "]").files[i].tags == ["]"];
  }

  lemma {:induction false} UncleanNameIsLost(db: Db, name: string, getattr: string -> bool)
    requires !HasFile(db.files, name) && getattr(name) && !CleanName(name)
    ensures Parse(db, "[" + name + "]\n", getattr) != OpenFile(db, name, getattr)
  {
    hide Parse, HasFile;
    var text := "[" + name + "]\n";
    var n := LineLength(text, MAX_LENGTH - 1);
    HeaderLine(db, name, getattr);
    var read := Until(text[1..n], ']');
    assert forall i :: 0 <= i < |name| ==> text[1 + i] == name[i];
    if read == name {
      CutBeforeBracket(name, n);
      assert text[n..] == "]\n";
      BracketBecomesTag(db, name, getattr);
    } else if Parse(db, text, getattr) == OpenFile(db, name, getattr) {
      LastIsThere(db, name, getattr);
      OtherFile(db, read, name, getattr);
      NewFiles(OpenFile(db, read, getattr), text[n..], getattr, name);
    }
  }

  lemma LastIsThere(db: Db, name: string, getattr: string -> bool)
    requires getattr(name)
    ensures HasFile(OpenFile(db, name, getattr).files, name)
  {
    var files := OpenFile(db, name, getattr).files;
    assert !HasFile(db.files, name) ==> files[|db.files|].name == name;
  }

  lemma OtherFile(db: Db, other: string, name: string, getattr: string -> bool)
    requires other != name && !HasFile(db.files, name)
    ensures !HasFile(OpenFile(db, other, getattr).files, name)
  {
  }

  /** An unclean name can be read in full only if its line ends before the bracket. */
  lemma CutBeforeBracket(name: string, n: nat)
    requires var text := "[" + name + "]\n"; n == LineLength(text, MAX_LENGTH - 1) && n > 1 && Until(text[1..n], ']') == name
    requires !CleanName(name)
    ensures n == |name| + 1
  {
    var text := "[" + name + "]\n";
    assert name <= text[1..n];
    assert forall i :: 0 <= i < |name| ==> text[1 + i] == name[i];
    if '\n' in name {
      var i :| 0 <= i < |name| && name[i] == '\n';
      assert text[1 + i] == '\n';
    }
  }

  /** A new file name printed in a header opens that file, and does nothing else, exactly when it is
      clean. */
  lemma HeaderExact(db: Db, name: string, getattr: string -> bool)
    requires !HasFile(db.files, name) && getattr(name)
    ensures Parse(db, "[" + name + "]\n", getattr) == OpenFile(db, name, getattr) <==> CleanName(name)
  {
    if CleanName(name) {
      ParseCleanName(db, name, getattr);
    } else {
      UncleanNameIsLost(db, name, getattr);
    }
  }

  /** Seen over a whole file an unclean name can come back by accident: this one ends with a newline,
      and the bracket that it loses is a tag of the file anyway. */
  lemma UncleanByAccident(getattr: string -> bool)
    requires getattr("x\n")
    ensures !CleanName("x\n")
    ensures Parse(EMPTY, Dump([FileTags("x\n", ["]"])]), getattr).files == [FileTags("x\n", ["]"])]
  {
    hide Parse, CleanTag;
    var f := FileTags("x\n", ["]"]);
    var rest := "]\n" + ("]\n" + "\n");
    assert TagLines(["]"]) == "]\n" by {
      assert ["]"][..0] == [];
    }
    var text := "[x\n" + rest;
    assert Dump([f]) == text by {
      assert [f][1..] == [];
    }
    AccidentHeader(getattr);
    ParseConcat(EMPTY, "[x\n", rest, getattr);
    var db := OpenFile(EMPTY, "x\n", getattr);
    ParseConcat(db, "]\n", "]\n" + "\n", getattr);
    AccidentTag(db, getattr);
    var db' := AddTag(db, "]");
    ParseConcat(db', "]\n", "\n", getattr);
    AccidentTag(db', getattr);
    ParseBlank(AddTag(db', "]"), getattr);
    assert db.files == [FileTags("x\n", [])];
    assert db'.files[0] == f;
    assert db'.files == [f];
    assert AddTag(db', "]").files == [f];
    assert "x\n"[1] == '\n';
  }

  lemma {:induction false} AccidentTag(db: Db, getattr: string -> bool)
    ensures Parse(db, "]\n", getattr) == AddTag(db, "]")
  {
    assert "]" + "\n" == "]\n";
    ParseCleanTag(db, "]", getattr);
  }

  lemma {:induction false} AccidentHeader(getattr: string -> bool)
    ensures Parse(EMPTY, "[x\n", getattr) == OpenFile(EMPTY, "x\n", getattr)
  {
    var text := "[x\n";
    LineLengthIs(text, MAX_LENGTH - 1, 3);
    assert text[..3] == text && text[3..] == "";
    SpacesIs(text, 0);
    assert text[0..] == text && text[1..] == "x\n";
    UntilIs("x\n", ']', 2);
    assert "x\n"[..2] == "x\n";
  }
}
