/** The callbacks that read what a path or a descriptor stands for: fgetattr, getxattr and ioctl. */
module TagNames {
  import opened Sums
  import opened Tags
  import opened TagFs
  import opened TagReaddir
  import Strings
  import TagsString

  /** The tags of file `n`. */
  ghost function TagsOn(rel: Relation, n: string): set<string> {
    set p | p in rel && p.0 == n :: p.1
  }

  lemma OnFile(rel: Relation, n: string, v: string)
    ensures v in TagsOn(rel, n) <==> (n, v) in rel
  {
    if (n, v) in rel {
      assert (n, v).0 == n && (n, v).1 == v;
    }
  }

  lemma AllOnFile(names: seq<string>, rel: Relation, n: string)
    requires forall v :: v in names <==> (n, v) in rel
    ensures SetOf(names) == TagsOn(rel, n)
  {
    forall v ensures v in TagsOn(rel, n) <==> v in names {
      OnFile(rel, n, v);
    }
  }

  /** The walk over a file's tags. */
  method NamesOfTags(fs: Store, f: File) returns (names: seq<string>)
    requires fs.Indexed() && f in fs.knownFiles && TableLive(fs.tags)
    modifies fs`useAfterFree, fs`locks
    ensures NoDup(names) && SetOf(names) == TagsOn(fs.rel, f.name)
    ensures fs.useAfterFree == old(fs.useAfterFree) && fs.locks == old(fs.locks)
  {
    hide *;
    TagsOfFile(fs, f);
    NoneTwice();
    names := [];
    var left := f.tags.Keys;
    ghost var before := fs.locks;
    fs.BeginWalk(TagsOf(f));
    ghost var during := fs.locks;
    while left != {}
      invariant left <= f.tags.Keys && NoDup(names)
      invariant forall v :: v in names <==> v in f.tags && v !in left
      invariant fs.useAfterFree == old(fs.useAfterFree) && fs.locks == during
      decreases |left|
    {
      var v :| v in left;
      assert v in f.tags;
      fs.Touch(f.tags[v]);
      NoDupAppend(names, v);
      names := names + [f.tags[v].value];
      left := left - {v};
    }
    fs.EndWalk(TagsOf(f), before);
    AllOnFile(names, fs.rel, f.name);
  }

  /** fgetattr on a descriptor whose tags are in use. */
  method Fgetattr(fs: Store, selected: seq<Tag>, n: string) returns (res: Attr)
    requires fs.Idle() && multiset(selected) <= fs.live - fs.leaked
    modifies fs`files, fs`knownFiles, fs`useAfterFree, fs`locks
    ensures fs.Idle() && fs.useAfterFree == old(fs.useAfterFree) && fs.locks == old(fs.locks)
    ensures res == AttrOf(fs.onDisk, fs.rel, Names(selected), n)
    ensures old(fs.knownFiles) <= fs.knownFiles && fresh(fs.knownFiles - old(fs.knownFiles))
  {
    hide Store.Indexed, Store.Balanced, Store.LiveInUse, AttrOf, Names, AllLive;
    HandleFacts(fs, selected);
    res := GetattrIntra(fs, selected, n);
  }

  /** ioctl_read_tags on the file of a descriptor: its tags in the order of its table, and the same as one
      string. */
  method IoctlReadTags(fs: Store, f: File) returns (names: seq<string>, str: string)
    requires fs.Idle() && f in fs.knownFiles
    modifies fs`useAfterFree, fs`locks
    ensures fs.Idle() && fs.useAfterFree == old(fs.useAfterFree) && fs.locks == old(fs.locks)
    ensures NoDup(names) && SetOf(names) == TagsOn(fs.rel, f.name) && str == Strings.Join(names, " ")
  {
    hide Store.Indexed, Store.Balanced, Store.LiveInUse, TagsOn, SetOf, NoDup, Strings.Join;
    TableIsLive(fs);
    names := NamesOfTags(fs, f);
    var size;
    str, size := TagsString.FileGetTagsString(names);
  }

  /** getxattr of "tags". It creates and deletes a path like getattr. */
  method Getxattr(fs: Store, components: seq<string>, n: string) returns (res: Status, names: seq<string>, str: string)
    requires fs.Idle()
    modifies fs`tags, fs`known, fs`files, fs`knownFiles, fs`useAfterFree, fs`locks, fs.known`refCount, fs.known`freed
    ensures fs.Idle() && fs.tags == old(Swept(fs.tags, SetOf(components)))
    ensures fs.useAfterFree == old(fs.useAfterFree) && fs.locks == old(fs.locks)
    ensures res == match AttrOf(fs.onDisk, fs.rel, components, n)
                   case NoEntry => ENOENT case Directory => EISDIR case Regular => Ok
    ensures res == Ok ==> NoDup(names) && SetOf(names) == TagsOn(fs.rel, n) && str == Strings.Join(names, " ")
    ensures old(fs.known) <= fs.known && fresh(fs.known - old(fs.known))
    ensures old(fs.knownFiles) <= fs.knownFiles && fresh(fs.knownFiles - old(fs.knownFiles))
  {
    hide *;
    ghost var rest := Swept(fs.tags, SetOf(components));
    var selected := Begin(fs, components);
    res, names, str := TagsBelow(fs, selected, n);
    assert fs.tags - UnusedNames(selected) == rest;
    Finish(fs, selected, rest);
  }

  /** getxattr on the created path. */
  method TagsBelow(fs: Store, selected: seq<Tag>, n: string) returns (res: Status, names: seq<string>, str: string)
    requires fs.Indexed() && fs.Balanced(multiset(selected)) && AllLive(selected) && fs.locks.walked == multiset{}
    modifies fs`files, fs`knownFiles, fs`useAfterFree, fs`locks
    ensures fs.Indexed() && fs.Balanced(multiset(selected))
    ensures fs.useAfterFree == old(fs.useAfterFree) && fs.locks == old(fs.locks)
    ensures res == match AttrOf(fs.onDisk, fs.rel, Names(selected), n)
                   case NoEntry => ENOENT case Directory => EISDIR case Regular => Ok
    ensures res == Ok ==> NoDup(names) && SetOf(names) == TagsOn(fs.rel, n) && str == Strings.Join(names, " ")
    ensures old(fs.knownFiles) <= fs.knownFiles && fresh(fs.knownFiles - old(fs.knownFiles))
  {
    hide *;
    var attr := GetattrIntra(fs, selected, n);
    names, str := [], "";
    res := match attr case NoEntry => ENOENT case Directory => EISDIR case Regular => Ok;
    if attr == Regular {
      names, str := TagsByName(fs, n, multiset(selected));
    }
  }

  /** file_get_or_create and file_get_tags_string. */
  method TagsByName(fs: Store, n: string, ghost own: multiset<Tag>) returns (names: seq<string>, str: string)
    requires fs.Indexed() && fs.Balanced(own) && fs.locks.walked == multiset{}
    modifies fs`files, fs`knownFiles, fs`useAfterFree, fs`locks
    ensures fs.Indexed() && fs.useAfterFree == old(fs.useAfterFree) && fs.locks == old(fs.locks)
    ensures NoDup(names) && SetOf(names) == TagsOn(fs.rel, n) && str == Strings.Join(names, " ")
    ensures old(fs.knownFiles) <= fs.knownFiles && fresh(fs.knownFiles - old(fs.knownFiles))
  {
    hide *;
    var f := fs.FileGetOrCreate(n);
    LiveTable(fs, own);
    names := NamesOfTags(fs, f);
    var size;
    str, size := TagsString.FileGetTagsString(names);
  }

  lemma LiveTable(fs: Store, own: multiset<Tag>)
    requires fs.Indexed() && fs.Balanced(own)
    ensures TableLive(fs.tags)
  {
    forall k | k in fs.tags ensures !fs.tags[k].freed {
      assert Counted(fs.tags[k], fs.tags, fs.live, own);
    }
  }
}
