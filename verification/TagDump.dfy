/** Printing the tag database from the tables (tag_db_dump), and what reading it back yields. */
module TagDump {
  import opened Sums
  import opened Tags
  import opened TagDb
  import opened TagDbRoundTrip
  import opened TagFs
  import opened TagNames
  import opened TagReaddir

  ghost function FileNames(files: seq<FileTags>): set<string> {
    set i | 0 <= i < |files| :: files[i].name
  }

  /** The files of a database paired with their tags. */
  function RelationOf(files: seq<FileTags>): Relation {
    set i, v | 0 <= i < |files| && v in files[i].tags :: (files[i].name, v)
  }

  lemma PairOf(files: seq<FileTags>, n: string, v: string)
    ensures (n, v) in RelationOf(files) <==> exists i :: 0 <= i < |files| && files[i].name == n && v in files[i].tags
  {
    if i :| 0 <= i < |files| && files[i].name == n && v in files[i].tags {
      assert (files[i].name, v) in RelationOf(files);
    }
  }

  /** `files` lists the files of a table, each once, with their tags, each once. */
  ghost predicate Snapshot(files: seq<FileTags>, rel: Relation) {
    && (forall i, j :: 0 <= i < j < |files| ==> files[i].name != files[j].name)
    && forall i :: 0 <= i < |files| ==> NoDup(files[i].tags) && SetOf(files[i].tags) == TagsOn(rel, files[i].name)
  }

  /** file_list. */
  method FileList(fs: Store) returns (l: seq<File>)
    requires fs.Indexed()
    modifies fs`locks
    ensures forall n :: n in fs.files ==> fs.files[n] in l
    ensures forall i :: 0 <= i < |l| ==> l[i] in fs.knownFiles
    ensures forall i, j :: 0 <= i < j < |l| ==> l[i].name != l[j].name
    ensures fs.locks == old(fs.locks)
  {
    hide TagSide, FileSide, UnusedEmpty;
    l := [];
    var left := fs.files.Keys;
    ghost var before := fs.locks;
    fs.BeginWalk(AllFiles);
    ghost var during := fs.locks;
    while left != {}
      invariant left <= fs.files.Keys && fs.locks == during
      invariant forall n :: n in fs.files && n !in left ==> fs.files[n] in l
      invariant forall i :: 0 <= i < |l| ==> l[i] in fs.knownFiles && l[i].name !in left
      invariant forall i, j :: 0 <= i < j < |l| ==> l[i].name != l[j].name
      decreases |left|
    {
      var n :| n in left;
      assert n in fs.files;
      l := [fs.files[n]] + l;
      left := left - {n};
    }
    fs.EndWalk(AllFiles, before);
  }

  /** tag_db_dump on the tables. */
  method DumpTags(fs: Store) returns (text: string, files: seq<FileTags>)
    requires fs.Idle()
    modifies fs`useAfterFree, fs`locks
    ensures fs.Idle() && fs.useAfterFree == old(fs.useAfterFree) && fs.locks == old(fs.locks)
    ensures text == Dump(files) && Snapshot(files, fs.rel) && RelationOf(files) == fs.rel
  {
    hide Store.Balanced, Store.LiveInUse, TagsOn, SetOf, NoDup, Dump, TagSide, FileSide, UnusedEmpty, Tables, TableLive;
    TableIsLive(fs);
    var l := FileList(fs);
    files := [];
    for i := 0 to |l|
      invariant |files| == i && forall j :: 0 <= j < i ==> files[j].name == l[j].name
      invariant forall j :: 0 <= j < i ==> NoDup(files[j].tags) && SetOf(files[j].tags) == TagsOn(fs.rel, files[j].name)
      invariant fs.useAfterFree == old(fs.useAfterFree) && fs.locks == old(fs.locks)
    {
      var names := NamesOfTags(fs, l[i]);
      files := files + [FileTags(l[i].name, names)];
    }
    text := TagDbDump(files);
    AllListed(fs, l, files);
  }

  lemma AllListed(fs: Store, l: seq<File>, files: seq<FileTags>)
    requires fs.Indexed() && |files| == |l| && forall j :: 0 <= j < |l| ==> files[j].name == l[j].name
    requires forall n :: n in fs.files ==> fs.files[n] in l
    requires forall j :: 0 <= j < |files| ==> SetOf(files[j].tags) == TagsOn(fs.rel, files[j].name)
    ensures RelationOf(files) == fs.rel
  {
    forall n, v ensures (n, v) in RelationOf(files) <==> (n, v) in fs.rel {
      PairOf(files, n, v);
      OnFile(fs.rel, n, v);
      if i :| 0 <= i < |files| && files[i].name == n && v in files[i].tags {
        assert v in SetOf(files[i].tags);
      }
      if (n, v) in fs.rel {
        assert (n, v).0 in fs.files && fs.files[n].name == n;
        var i :| 0 <= i < |l| && l[i] == fs.files[n];
        assert v in SetOf(files[i].tags);
      }
    }
    assert forall p :: p in RelationOf(files) <==> (p.0, p.1) in fs.rel;
  }

  // ----- reading it back -------------------------------------------------------------------------------

  /** Every file that has a tag, and every tag that a file has, survives being printed. */
  ghost predicate CleanRelation(rel: Relation, getattr: string -> bool) {
    forall p :: p in rel ==> CleanName(p.0) && getattr(p.0) && CleanTag(p.1)
  }

  /** Files without tags are not printed. */
  lemma {:induction false} DumpWithTags(files: seq<FileTags>)
    ensures Dump(WithTags(files)) == Dump(files)
  {
    if files != [] {
      DumpWithTags(files[1..]);
      if files[0].tags == [] {
        assert WithTags(files) == WithTags(files[1..]);
      } else {
        assert WithTags(files)[0] == files[0] && WithTags(files)[1..] == WithTags(files[1..]);
      }
    }
  }

  lemma {:induction false} WithTagsAre(files: seq<FileTags>)
    ensures forall f :: f in WithTags(files) <==> f in files && f.tags != []
    ensures (forall i, j :: 0 <= i < j < |files| ==> files[i].name != files[j].name) ==>
              forall i, j :: 0 <= i < j < |WithTags(files)| ==> WithTags(files)[i].name != WithTags(files)[j].name
  {
    if files != [] {
      WithTagsAre(files[1..]);
    }
  }

  /** What is loaded from the dump of a snapshot: the same relation, and as tags exactly those that some
      file has. */
  lemma LoadedFromDump(files: seq<FileTags>, rel: Relation, getattr: string -> bool)
    requires Snapshot(files, rel) && RelationOf(files) == rel && CleanRelation(rel, getattr)
    ensures var db := Parse(EMPTY, Dump(files), getattr);
            RelationOf(db.files) == rel && forall v :: v in db.tags <==> !Bare(v, rel)
  {
    hide *;
    DumpWithTags(files);
    PrintedAreClean(files, rel, getattr);
    RoundTrip(WithTags(files), getattr);
    DumpWithTags(files);
    PrintedOnly(files, rel);
  }

  lemma SameMembers(a: seq<FileTags>, b: seq<FileTags>)
    requires forall f :: f in a && f.tags != [] ==> f in b
    ensures RelationOf(a) <= RelationOf(b)
  {
    forall p | p in RelationOf(a) ensures p in RelationOf(b) {
      PairOf(a, p.0, p.1);
      PairOf(b, p.0, p.1);
      var i :| 0 <= i < |a| && a[i].name == p.0 && p.1 in a[i].tags;
      assert a[i] in a;
      var j :| 0 <= j < |b| && b[j] == a[i];
      assert p == (p.0, p.1);
    }
  }

  lemma {:induction false} WithTagsTwice(files: seq<FileTags>)
    ensures WithTags(WithTags(files)) == WithTags(files)
  {
    if files != [] {
      WithTagsTwice(files[1..]);
      if files[0].tags == [] {
        assert WithTags(files) == WithTags(files[1..]);
      } else {
        assert WithTags(files)[0] == files[0] && WithTags(files)[1..] == WithTags(files[1..]);
      }
    }
  }

  /** What is left of a snapshot after one round. */
  lemma PrintedOnly(files: seq<FileTags>, rel: Relation)
    requires RelationOf(files) == rel
    ensures RelationOf(Reversed(WithTags(WithTags(files)))) == rel
    ensures forall v :: SomeFileHas(WithTags(files), v) <==> !Bare(v, rel)
  {
    hide RelationOf, Reversed, WithTags;
    WithTagsTwice(files);
    WithTagsAre(files);
    forall f ensures f in Reversed(WithTags(files)) <==> f in WithTags(files) {
      ReversedMembers(WithTags(files), f);
    }
    SameMembers(files, Reversed(WithTags(files)));
    SameMembers(Reversed(WithTags(files)), files);
    forall v ensures SomeFileHas(WithTags(files), v) <==> !Bare(v, rel) {
      CarriedIsNotBare(files, rel, v);
    }
  }

  lemma CarriedIsNotBare(files: seq<FileTags>, rel: Relation, v: string)
    requires RelationOf(files) == rel && forall f :: f in WithTags(files) <==> f in files && f.tags != []
    ensures SomeFileHas(WithTags(files), v) <==> !Bare(v, rel)
  {
    var printed := WithTags(files);
    hide WithTags, RelationOf;
    if i :| 0 <= i < |printed| && v in printed[i].tags {
      assert printed[i] in printed && printed[i] in files;
      var j :| 0 <= j < |files| && files[j] == printed[i];
      PairOf(files, files[j].name, v);
      assert (files[j].name, v).1 == v && (files[j].name, v) in rel;
    }
    if !Bare(v, rel) {
      var p :| p in rel && p.1 == v;
      PairOf(files, p.0, v);
      assert p == (p.0, v);
      var j :| 0 <= j < |files| && files[j].name == p.0 && v in files[j].tags;
      assert files[j] in files && files[j] in printed;
      var i :| 0 <= i < |printed| && printed[i] == files[j];
    }
  }

  lemma PrintedAreClean(files: seq<FileTags>, rel: Relation, getattr: string -> bool)
    requires Snapshot(files, rel) && RelationOf(files) == rel && CleanRelation(rel, getattr)
    ensures CleanFiles(WithTags(files), getattr)
  {
    var printed := WithTags(files);
    WithTagsAre(files);
    hide WithTags, CleanRelation, CleanName, CleanTag, RelationOf;
    forall i | 0 <= i < |printed| ensures CleanFile(printed[i], getattr) {
      assert printed[i] in printed;
      var j :| 0 <= j < |files| && files[j] == printed[i];
      forall k | 0 <= k < |files[j].tags| ensures CleanName(files[j].name) && getattr(files[j].name) && CleanTag(files[j].tags[k]) {
        CleanPair(files, rel, getattr, j, k);
      }
      assert files[j].tags[0] in files[j].tags;
    }
  }

  lemma CleanPair(files: seq<FileTags>, rel: Relation, getattr: string -> bool, j: nat, k: nat)
    requires RelationOf(files) == rel && CleanRelation(rel, getattr) && j < |files| && k < |files[j].tags|
    ensures CleanName(files[j].name) && getattr(files[j].name) && CleanTag(files[j].tags[k])
  {
    hide CleanName, CleanTag;
    var p := (files[j].name, files[j].tags[k]);
    PairOf(files, p.0, p.1);
    assert p in rel;
  }
}
