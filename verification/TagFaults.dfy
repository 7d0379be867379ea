/** Runs in which the callbacks go wrong, with concrete inputs. */
module TagFaults {
  import opened Tags
  import opened TagFs
  import opened TagHandles
  import opened TagLink
  import opened TagRename

  // ----- a freed tag is used ------------------------------------------------------------------------------

  /** rename of "/zz/f" to "/a/f" when there is neither a file nor a tag: "zz" is freed and then used. */
  method RenameFrees() returns (fs: Store)
    ensures fs.useAfterFree
  {
    hide Store.Idle;
    fs := new Store({});
    var res := Rename(fs, ["zz"], "f", ["a"]);
  }

  /** unlink of "/zz/x" when "x" is a known file and "zz" no tag. */
  method UnlinkFrees() returns (fs: Store)
    ensures fs.useAfterFree
  {
    hide *;
    fs := FileInA();
    Undone(fs.tags);
    var res := Unlink(fs, ["zz"], "x");
  }

  lemma Undone(tags: map<string, Tag>)
    ensures "zz" !in tags ==> Overdraws(["zz"], tags)
  {
    assert ["zz"][0] == "zz";
  }

  /** A new store with one file, linked into "/a". */
  method FileInA() returns (fs: Store)
    ensures fs.Idle() && UsedNames(fs.tags) == {"a"} && "zz" !in fs.tags && "x" in fs.onDisk && ("x", "a") in fs.rel
    ensures fresh(fs) && fresh(fs.known) && fresh(fs.knownFiles) && !fs.useAfterFree && "x" in fs.files
  {
    hide *;
    fs := new Store({"x"});
    NoneUsed(fs.tags);
    FileAtRoot(fs, "x");
    var linked := Link(fs, [], "x", ["a"]);
    OnePair("x", "a", fs.rel);
    OnlyOneUsed(fs.tags, "a");
    RelatedFile(fs, "x", "a");
  }

  lemma NoneUsed(tags: map<string, Tag>)
    requires tags == map[]
    ensures UsedNames(tags) == {}
  {
  }

  lemma FileAtRoot(fs: Store, n: string)
    requires n in fs.onDisk
    ensures AttrOf(fs.onDisk, fs.rel, [], n) == Regular
  {
  }

  lemma OnlyOneUsed(tags: map<string, Tag>, a: string)
    requires UsedNames(tags) == {} + {ParentName([a])} + SetOf([a])
    requires forall k :: k in tags ==> tags[k].inUse
    ensures UsedNames(tags) == {a} && forall k :: k in tags ==> k == a
  {
    assert forall k :: k in tags ==> k in UsedNames(tags);
  }

  lemma RelatedFile(fs: Store, n: string, v: string)
    requires fs.Idle() && (n, v) in fs.rel
    ensures n in fs.files && fs.files[n] in fs.knownFiles && v in fs.files[n].tags && !Bare(v, fs.rel)
  {
    assert (n, v).0 in fs.files && fs.files[n].name == n;
  }

  // ----- the index breaks ---------------------------------------------------------------------------------

  /** opendir of "/zz/a", where "zz" is no tag. The handle is booked among the paths that nobody will
      delete for as long as it stays open, so that the contracts of the callbacks in between apply. */
  method HoldInventedTag(fs: Store) returns (handle: seq<Tag>)
    requires fs.Idle() && UsedNames(fs.tags) == {"a"} && "zz" !in fs.tags
    modifies fs`tags, fs`known, fs`live, fs`leaked, fs`useAfterFree, fs`locks, fs.known`refCount
    ensures fs.Idle() && ZzHandle(fs, handle) && "zz" in fs.tags && handle[0] == fs.tags["zz"] && handle[1].inUse
    ensures old(fs.known) <= fs.known && fresh(fs.known - old(fs.known))
  {
    hide *;
    ghost var tags0, used := fs.tags, UsedNames(fs.tags);
    LastOpens();
    var res: Status;
    res, handle := OpenDir(fs, ["zz", "a"]);
    ghost var leaked := fs.leaked + multiset(handle);
    assert UsedNames(tags0) == used by { UsedMeans(tags0); }
    TableFacts(fs);
    fs.leaked := leaked;
    HandleTags(fs, tags0, handle);
    IdleNow(fs);
  }

  /** The handle of that path. */
  ghost predicate ZzHandle(fs: Store, handle: seq<Tag>)
    reads fs, fs.known
  {
    && |handle| == 2 && handle[0] != handle[1] && handle[0] in fs.known && handle[1] in fs.known
    && handle[0].value == "zz" && handle[1].value == "a" && !handle[0].inUse
    && multiset(handle) <= fs.live
  }

  lemma LastOpens()
    ensures Opens(["zz", "a"], {"a"})
  {
    assert ["zz", "a"][1] == "a";
  }

  lemma HandleTags(fs: Store, tags0: map<string, Tag>, handle: seq<Tag>)
    requires fs.Indexed() && PathTags(tags0, fs.tags, ["zz", "a"], handle) && UsedNames(fs.tags) == {"a"}
    requires multiset(handle) <= fs.live
    ensures ZzHandle(fs, handle) && "zz" in fs.tags && handle[0] == fs.tags["zz"] && handle[1].inUse
  {
    assert ["zz", "a"][0] == "zz" && ["zz", "a"][1] == "a";
    assert "zz" !in UsedNames(fs.tags) && "a" in UsedNames(fs.tags);
    assert fs.tags["zz"].value == "zz" && fs.tags["a"].value == "a";
  }

  /** A lookup below "/zz" and a link from "/a/x" into "/zz": the table has another tag "zz" then. */
  method LinkIntoSecond(fs: Store, handle: seq<Tag>)
    requires fs.Idle() && ZzHandle(fs, handle) && "zz" in fs.tags && handle[0] == fs.tags["zz"] && handle[1].inUse
    requires "x" in fs.onDisk && ("x", "a") in fs.rel
    modifies fs, fs.known, fs.knownFiles`tags
    ensures fs.Idle() && ZzHandle(fs, handle) && ("x", "zz") in fs.rel && !NoRival(handle[0], fs.tags)
    ensures old(fs.known) <= fs.known && fresh(fs.known - old(fs.known))
  {
    hide *;
    ghost var tags0 := fs.tags;
    HandleMeans(fs, handle);
    SweptAway(tags0, "zz");
    var looked := Getattr(fs, ["zz"], "q");
    ghost var tags2, known2, live2 := fs.tags, fs.known, fs.live;
    FileBelow(fs, "x", "a");
    var linked := Link(fs, ["a"], "x", ["zz"]);
    OnePair("x", "zz", fs.rel);
    SetOfOne("zz");
    RivalMade(fs, tags2, known2, handle[0]);
    StillHeld(fs, handle, live2);
  }

  lemma HandleMeans(fs: Store, handle: seq<Tag>)
    requires ZzHandle(fs, handle)
    ensures |handle| == 2 && handle[0] != handle[1] && handle[0] in fs.known && handle[1] in fs.known
    ensures handle[0].value == "zz" && handle[1].value == "a" && !handle[0].inUse
    ensures multiset(handle) <= fs.live
  {
  }

  lemma StillHeld(fs: Store, handle: seq<Tag>, live: multiset<Tag>)
    requires |handle| == 2 && handle[0] != handle[1] && handle[0] in fs.known && handle[1] in fs.known
    requires handle[0].value == "zz" && handle[1].value == "a" && !handle[0].inUse
    requires multiset(handle) <= live && fs.live[handle[0]] == live[handle[0]] && fs.live[handle[1]] == live[handle[1]]
    ensures ZzHandle(fs, handle)
  {
    assert handle == [handle[0], handle[1]];
  }

  lemma SweptAway(tags: map<string, Tag>, name: string)
    requires name in tags && !tags[name].inUse
    ensures name !in Swept(tags, SetOf([name]))
  {
    SetOfOne(name);
  }

  lemma FileBelow(fs: Store, n: string, c: string)
    ensures n in fs.onDisk && (n, c) in fs.rel ==> AttrOf(fs.onDisk, fs.rel, [c], n) == Regular
  {
  }

  lemma RivalMade(fs: Store, tags2: map<string, Tag>, known2: set<Tag>, zz: Tag)
    requires SameTags(tags2, known2, fs.tags) && "zz" !in tags2 && zz in known2 && zz.value == "zz"
    requires "zz" in UsedNames(fs.tags)
    ensures !NoRival(zz, fs.tags) && !InTable(zz, fs.tags)
  {
  }

  /** opendir of "/zz/a" while "zz" is no tag, a lookup below "/zz", a link into "/zz", and the release of the
      handle. The file then carries a tag that the tag table no longer has. */
  method StaleRelease() returns (fs: Store, f: File)
    ensures f in fs.knownFiles && "zz" in f.tags && "zz" !in fs.tags && !fs.Indexed()
  {
    hide *;
    fs := FileInA();
    var handle := HoldInventedTag(fs);
    LinkIntoSecond(fs, handle);
    HandleMeans(fs, handle);
    RelatedFile(fs, "x", "zz");
    f := fs.files["x"];
    ReadyToRelease(fs);
    ZzIsNotClear(handle, fs.tags, fs.rel);
    var res := Release(fs, handle, false);
  }

  lemma ReadyToRelease(fs: Store)
    requires fs.Idle()
    ensures fs.Indexed() && Held(fs.tags, fs.known, fs.live, multiset{}) && fs.locks.walked == multiset{}
  {
  }

  lemma ZzIsNotClear(handle: seq<Tag>, tags: map<string, Tag>, rel: Relation)
    requires |handle| == 2 && !handle[0].inUse && handle[0].value == "zz" && !NoRival(handle[0], tags)
    requires !Bare("zz", rel)
    ensures !AllClear(handle, tags, rel) && "zz" in UnusedNames(handle)
  {
    assert !EntryClear(handle[0], tags, rel);
  }
}
