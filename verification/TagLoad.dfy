/** The start of the daemon: loading the tag database into the tables of `Tags`, which `TagDb` describes by
    names and orders only. */
module TagLoad {
  import opened Tags
  import opened TagDb
  import opened TagDump
  import opened TagFs
  import opened TagLink
  import opened TagMachine
  import opened TagServe
  import opened Wrappers

  /** The tables hold the database, and `f` is the file of the block being read. */
  ghost predicate Loaded(fs: Store, f: File?, db: Db)
    reads fs, fs.known, fs.knownFiles
  {
    && fs.Idle() && !fs.useAfterFree && !fs.locks.deadlocked && fs.live == multiset{} && fs.leaked == multiset{}
    && AllInUse(fs.tags, fs.known) && fs.tags.Keys == SetOf(db.tags)
    && fs.files.Keys == FileNames(db.files) && fs.rel == RelationOf(db.files)
    && (if f == null then db.current == None
        else f in fs.knownFiles && db.current == Some(f.name) && HasFile(db.files, f.name))
  }

  ghost predicate AllInUse(tags: map<string, Tag>, known: set<Tag>)
    reads known`inUse
  {
    forall k :: k in tags ==> tags[k] in known && tags[k].inUse
  }

  lemma OpenFileNames(db: Db, name: string, getattr: string -> bool)
    requires getattr(name)
    ensures var db' := OpenFile(db, name, getattr);
            && FileNames(db'.files) == FileNames(db.files) + {name} && RelationOf(db'.files) == RelationOf(db.files)
            && HasFile(db'.files, name)
  {
    var db' := OpenFile(db, name, getattr);
    if !HasFile(db.files, name) {
      assert db'.files[|db.files|].name == name;
      forall n, v ensures (n, v) in RelationOf(db'.files) <==> (n, v) in RelationOf(db.files) {
        PairOf(db.files, n, v);
        PairOf(db'.files, n, v);
        if i :| 0 <= i < |db.files| && db.files[i].name == n && v in db.files[i].tags {
          assert db'.files[i] == db.files[i];
        }
      }
      assert forall p :: p in RelationOf(db'.files) <==> (p.0, p.1) in RelationOf(db.files);
      forall i | 0 <= i < |db.files| ensures db.files[i].name in FileNames(db'.files) {
        assert db'.files[i] == db.files[i];
      }
    }
  }

  lemma AddTagRelation(db: Db, tag: string)
    requires db.current.Some? ==> HasFile(db.files, db.current.value)
    ensures var db' := AddTag(db, tag);
            && FileNames(db'.files) == FileNames(db.files) && SetOf(db'.tags) == SetOf(db.tags) + {tag}
            && RelationOf(db'.files)
               == RelationOf(db.files) + (if db.current.None? then {} else {(db.current.value, tag)})
            && forall n :: HasFile(db.files, n) ==> HasFile(db'.files, n)
  {
    var db' := AddTag(db, tag);
    if db.current.Some? {
      var c := db.current.value;
      assert forall i :: 0 <= i < |db.files| ==> db'.files[i] == TagDb.Tagged(db.files[i], c, tag);
      assert forall i :: 0 <= i < |db.files| ==> db'.files[i].name == db.files[i].name;
      forall n, v ensures (n, v) in RelationOf(db'.files) <==> (n, v) in RelationOf(db.files) || (n == c && v == tag) {
        PairOf(db.files, n, v);
        PairOf(db'.files, n, v);
        AddedPair(db.files, db'.files, c, tag, n, v);
      }
      assert forall p :: p in RelationOf(db'.files) <==> (p.0, p.1) in RelationOf(db.files) + {(c, tag)};
    }
  }

  lemma AddedPair(files: seq<FileTags>, files': seq<FileTags>, c: string, tag: string, n: string, v: string)
    requires |files'| == |files| && forall i :: 0 <= i < |files| ==> files'[i] == TagDb.Tagged(files[i], c, tag)
    requires HasFile(files, c)
    ensures (exists i :: 0 <= i < |files'| && files'[i].name == n && v in files'[i].tags)
            <==> (exists i :: 0 <= i < |files| && files[i].name == n && v in files[i].tags) || (n == c && v == tag)
  {
    if i :| 0 <= i < |files| && files[i].name == n && v in files[i].tags {
      assert files'[i].name == n && v in files'[i].tags;
    }
    if n == c && v == tag {
      var i :| 0 <= i < |files| && files[i].name == c;
      assert files'[i].name == n && v in files'[i].tags;
    }
  }

  /** parse_file. */
  method ParseFile(fs: Store, word: string, getattr: string -> bool, ghost db: Db, ghost f0: File?) returns (f: File?)
    requires Loaded(fs, f0, db)
    modifies fs`files, fs`knownFiles, fs`locks
    ensures Loaded(fs, f, OpenFile(db, Until(word, ']'), getattr)) && fs.onDisk == old(fs.onDisk)
    ensures old(fs.knownFiles) <= fs.knownFiles && fresh(fs.knownFiles - old(fs.knownFiles))
  {
    hide Tables, TagSide, FileSide, UnusedEmpty, Held, Speculative, HandlesUsed, HasFile, FileNames, RelationOf, Until;
    var data := CopyWordUntil(word, ']');
    if getattr(data) {
      OpenFileNames(db, data, getattr);
      f := fs.FileGetOrCreate(data);
    } else {
      f := null;
    }
  }

  /** tag_get_or_create: one reference more for each mention. */
  method TagGetOrCreate(fs: Store, name: string) returns (t: Tag)
    requires fs.Idle() && AllInUse(fs.tags, fs.known)
    modifies fs`tags, fs`known, fs`useAfterFree, fs`locks, fs.known`refCount
    ensures fs.Idle() && AllInUse(fs.tags, fs.known) && fs.useAfterFree == old(fs.useAfterFree)
    ensures fs.locks == old(fs.locks) && fs.tags.Keys == old(fs.tags).Keys + {name}
    ensures t in fs.known && InTable(t, fs.tags) && t.value == name && t.inUse
    ensures old(fs.known) <= fs.known && fresh(fs.known - old(fs.known))
  {
    hide *;
    ghost var tags0, known0 := fs.tags, fs.known;
    IdleParts(fs);
    IdleFacts(fs);
    if name in fs.tags {
      t := fs.tags[name];
      StillThere(fs, name, multiset{});
      TableFacts(fs);
      IncUsed(fs, t);
      assert fs.tags.Keys == tags0.Keys + {name};
    } else {
      HandlesNow(fs);
      t := CreateUsed(fs, name, multiset{});
      HandlesAmongMore(fs, known0);
      TableFacts(fs);
      assert fs.tags[name] == t;
      UsedJoins(tags0, known0, fs.tags, fs.known, name, t);
    }
    IdleAgain(fs);
  }

  /** tag_inc_ref on a tag in use. */
  method IncUsed(fs: Store, t: Tag)
    requires fs.Balanced(multiset{}) && t in fs.known && InTable(t, fs.tags) && AllInUse(fs.tags, fs.known) && !t.freed
    modifies fs`useAfterFree, t`refCount
    ensures fs.Balanced(multiset{}) && fs.useAfterFree == old(fs.useAfterFree) && t.inUse
  {
    hide *;
    Mentioned(fs, t);
    fs.Touch(t);
    t.refCount := t.refCount + 1;
    OneMore(fs, t);
  }

  lemma IdleParts(fs: Store)
    requires fs.Idle()
    ensures fs.Indexed() && fs.Balanced(multiset{}) && fs.LiveInUse() && fs.locks.walked == multiset{}
    ensures AllTags !in fs.locks.walked && fs.Undisturbed()
  {
  }

  lemma IdleAgain(fs: Store)
    requires fs.Indexed() && fs.Balanced(multiset{}) && fs.LiveInUse() && fs.locks.walked == multiset{}
    ensures fs.Idle()
  {
  }

  /** What counts when `t` gains a reference. */
  ghost predicate OthersCounted(tags: map<string, Tag>, known: set<Tag>, live: multiset<Tag>, t: Tag, refs: int)
    reads (known - {t})`freed, (known - {t})`inUse, (known - {t})`refCount, t`freed, t`inUse
  {
    && t in known && t.inUse && !t.freed && refs >= live[t] + 1 && (forall u :: u in live ==> u in known)
    && forall u :: u in known - {t} ==> Counted(u, tags, live, multiset{})
  }

  lemma Mentioned(fs: Store, t: Tag)
    requires fs.Balanced(multiset{}) && t in fs.known && InTable(t, fs.tags) && AllInUse(fs.tags, fs.known)
    ensures OthersCounted(fs.tags, fs.known, fs.live, t, t.refCount) && t.inUse && t.value in fs.tags
    ensures Speculative(fs.tags, fs.known, fs.live, multiset{})
  {
    assert Counted(t, fs.tags, fs.live, multiset{});
    assert fs.tags[t.value] == t;
  }

  lemma OneMore(fs: Store, t: Tag)
    requires OthersCounted(fs.tags, fs.known, fs.live, t, t.refCount - 1)
    requires Speculative(fs.tags, fs.known, fs.live, multiset{})
    ensures fs.Balanced(multiset{})
  {
    forall u | u in fs.known ensures Counted(u, fs.tags, fs.live, multiset{}) {
      assert u != t ==> u in fs.known - {t};
    }
  }

  lemma UsedJoins(tags0: map<string, Tag>, known0: set<Tag>, tags: map<string, Tag>, known: set<Tag>, name: string, t: Tag)
    requires AllInUse(tags0, known0) && tags == tags0[name := t] && known == known0 + {t} && t.inUse && t.value == name
    ensures AllInUse(tags, known) && tags.Keys == tags0.Keys + {name} && InTable(t, tags)
  {
  }

  /** parse_tag. */
  method ParseTagLine(fs: Store, f: File?, word: string, ghost db: Db)
    requires Loaded(fs, f, db)
    modifies fs`tags, fs`known, fs`rel, fs`useAfterFree, fs`locks, fs.known, fs.knownFiles`tags
    ensures Loaded(fs, f, ParseTag(db, word)) && fs.onDisk == old(fs.onDisk)
    ensures old(fs.known) <= fs.known && fresh(fs.known - old(fs.known))
  {
    hide *;
    LoadedMeans(fs, f, db);
    var data := CopyWordUntil(word, '\n');
    ParseTagIs(db, word);
    if |data| > 0 {
      AddTagRelation(db, data);
      AddTagKeeps(db, data);
      var t := TagGetOrCreate(fs, data);
      IdleParts(fs);
      if f != null {
        TagOne(fs, t, f, multiset{});
        IdleAgain(fs);
      }
      LoadedMeans(fs, f, AddTag(db, data));
    }
  }

  lemma ParseTagIs(db: Db, word: string)
    ensures ParseTag(db, word) == if Until(word, '\n') == "" then db else AddTag(db, Until(word, '\n'))
  {
  }

  lemma AddTagKeeps(db: Db, tag: string)
    ensures AddTag(db, tag).current == db.current
  {
  }

  lemma LoadedMeans(fs: Store, f: File?, db: Db)
    ensures Loaded(fs, f, db) <==>
              && fs.Idle() && !fs.useAfterFree && !fs.locks.deadlocked && fs.live == multiset{} && fs.leaked == multiset{}
              && AllInUse(fs.tags, fs.known) && fs.tags.Keys == SetOf(db.tags)
              && fs.files.Keys == FileNames(db.files) && fs.rel == RelationOf(db.files)
              && (if f == null then db.current == None
                  else f in fs.knownFiles && db.current == Some(f.name) && HasFile(db.files, f.name))
  {
  }

  /** The body of the loop in parse_tags_db2. */
  method ParseWord(fs: Store, f0: File?, word: string, getattr: string -> bool, ghost db: Db) returns (f: File?)
    requires word != "" && Loaded(fs, f0, db)
    modifies fs`tags, fs`known, fs`files, fs`knownFiles, fs`rel, fs`useAfterFree, fs`locks, fs.known, fs.knownFiles`tags
    ensures Loaded(fs, f, ParseLine(db, word, getattr)) && fs.onDisk == old(fs.onDisk)
    ensures old(fs.known) <= fs.known && fresh(fs.known - old(fs.known))
    ensures old(fs.knownFiles) <= fs.knownFiles && fresh(fs.knownFiles - old(fs.knownFiles))
  {
    hide Loaded, OpenFile, ParseTag, Until, Spaces;
    f := f0;
    if word[0] == '#' {
      return;
    }
    var i := SkipSpaces(word);
    if i < |word| && word[i] == '[' {
      assert word[i..][1..] == word[i + 1..];
      f := ParseFile(fs, word[i + 1..], getattr, db, f0);
    } else {
      ParseTagLine(fs, f, word[i..], db);
    }
  }

  /** parse_tags_db2, into an empty store: what the daemon starts from is the parsed database. */
  method Load(text: string, getattr: string -> bool, onDisk: set<string>) returns (fs: Store)
    ensures fresh(fs) && fresh(fs.known) && fresh(fs.knownFiles) && Serving(fs, [])
    ensures var db := Parse(EMPTY, text, getattr);
            ViewOf(fs, []) == View(RelationOf(db.files), SetOf(db.tags), onDisk, [])
  {
    hide *;
    fs := new Store(onDisk);
    var f: File? := null;
    ghost var db := EMPTY;
    NothingLoaded(fs);
    var at := 0;
    assert text[0..] == text;
    var word := Fgets(text, at);
    while word != ""
      invariant at <= |text| && word == text[at..][..LineLength(text[at..], MAX_LENGTH - 1)]
      invariant word == "" <==> at == |text|
      invariant Parse(db, text[at..], getattr) == Parse(EMPTY, text, getattr)
      invariant Loaded(fs, f, db) && fs.onDisk == onDisk
      invariant fresh(fs) && fresh(fs.known) && fresh(fs.knownFiles)
      decreases |text| - at
    {
      LineParsed(db, text, at, getattr);
      f := ParseWord(fs, f, word, getattr, db);
      db := ParseLine(db, word, getattr);
      at := at + |word|;
      word := Fgets(text, at);
    }
    NothingParsed(db, text, at, getattr);
    ReadyToServe(fs, f, db);
  }

  lemma NothingLoaded(fs: Store)
    requires fs.Idle() && fs.tags == map[] && fs.files == map[] && fs.rel == {} && !fs.useAfterFree
    requires fs.live == fs.leaked == multiset{} && !fs.locks.deadlocked
    ensures Loaded(fs, null, EMPTY)
  {
  }

  lemma ReadyToServe(fs: Store, f: File?, db: Db)
    requires Loaded(fs, f, db)
    ensures Serving(fs, []) && ViewOf(fs, []) == View(RelationOf(db.files), SetOf(db.tags), fs.onDisk, [])
  {
    assert UsedNames(fs.tags) == fs.tags.Keys;
    assert AllOpened([], fs.tags) == [];
  }

  /** The daemon from its start to its end: the replies are those of the machine begun on the parsed
      database, and the database saved at the end, if its names are clean, would load as the relation
      at the end, with exactly the tags that some file has. */
  method Daemon(text: string, getattr: string -> bool, onDisk: set<string>, requests: seq<Request>)
    returns (replies: seq<Reply>, saved: string)
    ensures var db := Parse(EMPTY, text, getattr);
            var v := View(RelationOf(db.files), SetOf(db.tags), onDisk, []);
            replies == RunReplies(v, requests) && Saves(saved, RunView(v, requests).rel)
  {
    hide *;
    var fs := Load(text, getattr, onDisk);
    var handles: seq<Handle>;
    handles, replies := Serve(fs, requests);
    ServingMeans(fs, handles);
    var files;
    saved, files := DumpTags(fs);
    SavedLoads(saved, files, fs.rel);
  }

  /** The text loads as the relation, whenever it is clean. */
  ghost predicate Saves(saved: string, rel: Relation) {
    forall getattr: string -> bool {:trigger CleanRelation(rel, getattr)} :: CleanRelation(rel, getattr) ==>
      var db := Parse(EMPTY, saved, getattr);
      RelationOf(db.files) == rel && forall v :: v in db.tags <==> !Bare(v, rel)
  }

  lemma SavedLoads(saved: string, files: seq<FileTags>, rel: Relation)
    requires saved == Dump(files) && Snapshot(files, rel) && RelationOf(files) == rel
    ensures Saves(saved, rel)
  {
    hide Snapshot, CleanRelation, RelationOf, Dump, Parse;
    forall getattr: string -> bool | CleanRelation(rel, getattr)
      ensures RelationOf(Parse(EMPTY, saved, getattr).files) == rel
      ensures forall v :: v in Parse(EMPTY, saved, getattr).tags <==> !Bare(v, rel)
    {
      LoadedFromDump(files, rel, getattr);
    }
  }

  /** A restart on a clean saved database: files keep their tags, and a tag is kept exactly when some file
      has it. */
  method Restart(fs: Store, handles: seq<Handle>, getattr: string -> bool) returns (fs': Store)
    requires Serving(fs, handles) && CleanRelation(fs.rel, getattr)
    modifies fs`useAfterFree, fs`locks
    ensures fresh(fs') && Serving(fs', [])
    ensures ViewOf(fs', []) == View(fs.rel, set p | p in fs.rel :: p.1, fs.onDisk, [])
  {
    hide *;
    ServingMeans(fs, handles);
    var saved, files := DumpTags(fs);
    LoadedFromDump(files, fs.rel, getattr);
    fs' := Load(saved, getattr, fs.onDisk);
    TagsCarried(fs.rel, Parse(EMPTY, saved, getattr).tags);
  }

  lemma TagsCarried(rel: Relation, tags: seq<string>)
    requires forall v :: v in tags <==> !Bare(v, rel)
    ensures SetOf(tags) == set p | p in rel :: p.1
  {
    forall v ensures v in tags <==> exists p :: p in rel && p.1 == v {
      assert Bare(v, rel) <==> forall p :: p in rel ==> p.1 != v;
    }
  }
}
