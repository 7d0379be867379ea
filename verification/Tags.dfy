/** The in-memory state of the fuse version: the tag table, the file table, the tags and files they
    point to, and the reference counts that path resolution takes and gives back. Tables with
    unique keys are maps here; `HashTable` shows that the real ones act as maps. */
module Tags {

  /** `struct tag`. `freed` is set where the program calls `free`. */
  class Tag {
    const value: string
    var files: map<string, File>
    var inUse: bool
    var refCount: int
    ghost var freed: bool

    constructor (value: string, inUse: bool)
      ensures this.value == value && this.inUse == inUse && files == map[] && refCount == 0 && !freed
    {
      this.value, this.inUse := value, inUse;
      files, refCount, freed := map[], 0, false;
    }
  }

  /** `struct file`, without descriptors. */
  class File {
    const name: string
    var tags: map<string, Tag>

    constructor (name: string)
      ensures this.name == name && tags == map[]
    {
      this.name, tags := name, map[];
    }
  }

  /** The hash tables that have a lock. The tables of tags of all paths share one identity here, which
      is stricter than the program; the last four are local to one callback each. */
  datatype TableId = AllTags | AllFiles | FilesOf(tag: Tag) | TagsOf(file: File) | OfPath
    | FoundFiles | MissingFiles | ShownTags | GatheredFiles

  /** How often each table is being walked by `ht_for_each`, which holds its read lock, and whether a
      table was written, which takes its write lock, while it was being walked: then the callback
      waits for itself. */
  datatype Locks = Locks(walked: multiset<TableId>, deadlocked: bool) {
    ghost function Written(id: TableId): Locks {
      this.(deadlocked := deadlocked || id in walked)
    }

    ghost function Walking(id: TableId): Locks {
      this.(walked := walked + multiset{id})
    }
  }

  /** File names paired with the tags the files carry. */
  type Relation = set<(string, string)>

  ghost predicate Tables(tags: map<string, Tag>, files: map<string, File>, known: set<Tag>, knownFiles: set<File>) {
    && (forall k :: k in tags ==> tags[k] in known && tags[k].value == k)
    && (forall n :: n in files ==> files[n] in knownFiles && files[n].name == n)
    && (forall f :: f in knownFiles ==> f.name in files && files[f.name] == f)
  }

  ghost predicate InTable(t: Tag, tags: map<string, Tag>) {
    t.value in tags && tags[t.value] == t
  }

  /** The tag-to-file side: a tag in the table lists exactly the files related to it, and any other
      tag lists none. */
  ghost predicate TagSide(tags: map<string, Tag>, files: map<string, File>, known: set<Tag>, rel: Relation)
    reads known`files
  {
    && (forall p :: p in rel ==> p.0 in files && p.1 in tags)
    && forall t, n {:trigger t in known, n in t.files} {:trigger t in known, (n, t.value) in rel} :: t in known ==>
         && (n in t.files <==> InTable(t, tags) && (n, t.value) in rel)
         && (n in t.files ==> n in files && t.files[n] == files[n])
  }

  /** The file-to-tag side: a file carries exactly the tags related to it. */
  ghost predicate FileSide(tags: map<string, Tag>, knownFiles: set<File>, rel: Relation)
    reads knownFiles`tags
  {
    forall f, v {:trigger f in knownFiles, v in f.tags} {:trigger f in knownFiles, (f.name, v) in rel} :: f in knownFiles ==>
      && (v in f.tags <==> (f.name, v) in rel)
      && (v in f.tags ==> v in tags && f.tags[v] == tags[v])
  }

  /** The counts, while the running callback holds the path entries `own` and open handles hold
      `live`: a tag is freed only when nothing refers to it, a tag in use keeps one reference beyond
      those of the open handles, and any other tag is counted exactly. */
  ghost predicate Held(tags: map<string, Tag>, known: set<Tag>, live: multiset<Tag>, own: multiset<Tag>)
    reads known`freed, known`inUse, known`refCount
  {
    && (forall t :: t in own ==> t in known)
    && (forall t :: t in live ==> t in known)
    && forall t :: t in known ==> Counted(t, tags, live, own)
  }

  /** Tags in use are counted beyond the open handles and the callback's own entries. */
  ghost predicate Surplus(known: set<Tag>, live: multiset<Tag>, own: multiset<Tag>)
    reads known`freed, known`inUse, known`refCount
  {
    forall t :: t in known && t.inUse && !t.freed ==> t.refCount >= live[t] + own[t] + 1
  }

  ghost predicate Counted(t: Tag, tags: map<string, Tag>, live: multiset<Tag>, own: multiset<Tag>)
    reads t`freed, t`inUse, t`refCount
  {
    if t.freed then live[t] == 0 && own[t] == 0 && !t.inUse && !InTable(t, tags)
    else if t.inUse then t.refCount >= live[t] + 1
    else t.refCount == live[t] + own[t] && t.refCount >= 1
  }

  /** Only tags that some path holds may be in the table without being in use, and the table holds no
      other tag under the name of one that the callback itself speculated on. */
  ghost predicate Speculative(tags: map<string, Tag>, known: set<Tag>, live: multiset<Tag>, own: multiset<Tag>)
    reads known`inUse
  {
    && (forall k :: k in tags && tags[k] in known && !tags[k].inUse ==> own[tags[k]] > 0 || live[tags[k]] > 0)
    && (forall t :: t in known && own[t] > 0 && !t.inUse && t.value in tags ==> tags[t.value] == t)
  }

  /** The entries that outlive their callback without being leaked are in use. */
  ghost predicate HandlesUsed(live: multiset<Tag>, leaked: multiset<Tag>, known: set<Tag>)
    reads known`inUse
  {
    leaked <= live && forall t :: t in live && live[t] > leaked[t] ==> t in known && t.inUse
  }

  /** A tag that is not in use has no file. */
  ghost predicate UnusedEmpty(known: set<Tag>)
    reads known`inUse, known`files
  {
    forall t :: t in known && !t.inUse ==> t.files == map[]
  }

  lemma UnusedApart(known: set<Tag>, t: Tag)
    requires UnusedEmpty(known) && t in known
    ensures UnusedEmpty(known - {t}) && (!t.inUse ==> t.files == map[])
  {
  }

  lemma UnusedTogether(known: set<Tag>, t: Tag)
    requires UnusedEmpty(known - {t}) && (!t.inUse ==> t.files == map[])
    ensures UnusedEmpty(known)
  {
    assert forall u :: u in known && u != t ==> u in known - {t};
  }

  /** While paths are being created, the speculative tags are all still in the table. */
  ghost predicate Current(tags: map<string, Tag>, known: set<Tag>, own: multiset<Tag>)
    reads known`inUse
  {
    forall t :: t in known && own[t] > 0 && !t.inUse ==> t.value in tags
  }

  // ----- a new reference -----------------------------------------------------------------------------

  lemma TagSideGrows(tags: map<string, Tag>, files: map<string, File>, known: set<Tag>, rel: Relation, t: Tag)
    requires TagSide(tags, files, known, rel)
    requires t !in known && t.files == map[] && t.value !in tags
    ensures TagSide(tags[t.value := t], files, known + {t}, rel)
  {
    var tags' := tags[t.value := t];
    forall u, n | u in known + {t}
      ensures (n in u.files <==> InTable(u, tags') && (n, u.value) in rel)
      ensures n in u.files ==> n in files && u.files[n] == files[n]
    {
      assert (n, t.value) !in rel;
      if u in known {
        assert n in u.files <==> InTable(u, tags) && (n, u.value) in rel;
      }
    }
  }

  lemma FileSideGrows(tags: map<string, Tag>, knownFiles: set<File>, rel: Relation, t: Tag)
    requires FileSide(tags, knownFiles, rel) && t.value !in tags
    ensures FileSide(tags[t.value := t], knownFiles, rel)
  {
  }

  lemma SpeculativeGrows(tags: map<string, Tag>, known: set<Tag>, live: multiset<Tag>, own: multiset<Tag>, t: Tag)
    requires Speculative(tags, known, live, own) && Current(tags, known, own)
    requires if t.value in tags then tags[t.value] == t else t !in known && own[t] == 0
    ensures Speculative(tags[t.value := t], known + {t}, live, own + multiset{t})
    ensures Current(tags[t.value := t], known + {t}, own + multiset{t})
  {
  }

  // ----- a tag leaving the table ------------------------------------------------------------------------

  /** The table names no other tag than `t` by the name of `t`. */
  ghost predicate NoRival(t: Tag, tags: map<string, Tag>) {
    t.value in tags ==> tags[t.value] == t
  }

  lemma NothingTagged(tags: map<string, Tag>, files: map<string, File>, known: set<Tag>, rel: Relation, t: Tag, n: string)
    requires TagSide(tags, files, known, rel) && t in known && t.files == map[] && NoRival(t, tags)
    ensures (n, t.value) !in rel
  {
  }

  /** No file has tag `v`. */
  ghost predicate Bare(v: string, rel: Relation) {
    forall p :: p in rel ==> p.1 != v
  }

  /** Names can leave the table exactly when no file has them. */
  lemma SidesShrink(tags: map<string, Tag>, files: map<string, File>, known: set<Tag>, knownFiles: set<File>,
                    rel: Relation, gone: set<string>)
    requires TagSide(tags, files, known, rel) && FileSide(tags, knownFiles, rel)
    ensures TagSide(tags - gone, files, known, rel) && FileSide(tags - gone, knownFiles, rel)
            <==> forall v :: v in gone ==> Bare(v, rel)
  {
    if forall v :: v in gone ==> Bare(v, rel) {
      BareLeave(tags, files, known, knownFiles, rel, gone);
    } else {
      var v :| v in gone && !Bare(v, rel);
      var p :| p in rel && p.1 == v;
      assert p.1 !in tags - gone;
    }
  }

  lemma BareLeave(tags: map<string, Tag>, files: map<string, File>, known: set<Tag>, knownFiles: set<File>,
                  rel: Relation, gone: set<string>)
    requires TagSide(tags, files, known, rel) && FileSide(tags, knownFiles, rel)
    requires forall v :: v in gone ==> Bare(v, rel)
    ensures TagSide(tags - gone, files, known, rel) && FileSide(tags - gone, knownFiles, rel)
  {
    var tags' := tags - gone;
    forall u, n | u in known
      ensures (n in u.files <==> InTable(u, tags') && (n, u.value) in rel)
      ensures n in u.files ==> n in files && u.files[n] == files[n]
    {
      assert n in u.files <==> InTable(u, tags) && (n, u.value) in rel;
      assert (n, u.value) in rel ==> (n, u.value).1 !in gone;
    }
    forall f, v | f in knownFiles && v in f.tags ensures v in tags' && f.tags[v] == tags[v] {
      assert (f.name, v) in rel && (f.name, v).1 !in gone;
    }
  }

  /** Whether an entry of a path can be given back: it is in use, or the table has no other tag of its name, or
      that other tag has no file. */
  ghost predicate EntryClear(t: Tag, tags: map<string, Tag>, rel: Relation)
    reads t`inUse
  {
    t.inUse || NoRival(t, tags) || Bare(t.value, rel)
  }

  /** The names of a path's unused entries can leave the table exactly when every entry is clear. */
  lemma IndexWithout(tags: map<string, Tag>, files: map<string, File>, known: set<Tag>, knownFiles: set<File>,
                     rel: Relation, selected: seq<Tag>)
    requires TagSide(tags, files, known, rel) && FileSide(tags, knownFiles, rel) && UnusedEmpty(known)
    requires forall i :: 0 <= i < |selected| ==> selected[i] in known
    ensures var tags' := tags - UnusedNames(selected);
            TagSide(tags', files, known, rel) && FileSide(tags', knownFiles, rel)
            <==> forall i :: 0 <= i < |selected| ==> EntryClear(selected[i], tags, rel)
  {
    hide TagSide, FileSide;
    SidesShrink(tags, files, known, knownFiles, rel, UnusedNames(selected));
    forall i | 0 <= i < |selected| && !selected[i].inUse
      ensures EntryClear(selected[i], tags, rel) <==> Bare(selected[i].value, rel)
    {
      if NoRival(selected[i], tags) {
        forall p | p in rel ensures p.1 != selected[i].value {
          NothingTagged(tags, files, known, rel, selected[i], p.0);
        }
      }
    }
    forall i | 0 <= i < |selected| && !selected[i].inUse ensures selected[i].value in UnusedNames(selected) {
    }
  }

  /** The speculative tags after a path has been given back. */
  lemma SpeculativeSwept(tags: map<string, Tag>, known: set<Tag>, live: multiset<Tag>, own: multiset<Tag>,
                         selected: seq<Tag>)
    requires Speculative(tags, known, live, own) && multiset(selected) <= own
    requires forall k :: k in tags ==> tags[k].value == k
    ensures Speculative(tags - UnusedNames(selected), known, live, own - multiset(selected))
  {
    var tags' := tags - UnusedNames(selected);
    forall k | k in tags' && tags'[k] in known && !tags'[k].inUse
      ensures (own - multiset(selected))[tags'[k]] > 0 || live[tags'[k]] > 0
    {
      assert tags'[k].value == k && k !in UnusedNames(selected);
      assert tags'[k] !in selected;
    }
  }

  /** The entries of a callback have no rivals in the table. */
  lemma OwnAreClear(tags: map<string, Tag>, known: set<Tag>, live: multiset<Tag>, own: multiset<Tag>, rel: Relation,
                    selected: seq<Tag>)
    requires Speculative(tags, known, live, own) && multiset(selected) <= own
    requires forall i :: 0 <= i < |selected| ==> selected[i] in known
    ensures forall i :: 0 <= i < |selected| ==> EntryClear(selected[i], tags, rel)
  {
    forall i | 0 <= i < |selected| ensures EntryClear(selected[i], tags, rel) {
      assert selected[i] in multiset(selected);
    }
  }

  // ----- a new file ------------------------------------------------------------------------------------

  lemma SidesWithNewFile(tags: map<string, Tag>, files: map<string, File>, known: set<Tag>, knownFiles: set<File>,
                         rel: Relation, f: File)
    requires TagSide(tags, files, known, rel) && FileSide(tags, knownFiles, rel)
    requires f.name !in files && f.tags == map[]
    ensures TagSide(tags, files[f.name := f], known, rel) && FileSide(tags, knownFiles + {f}, rel)
  {
    assert forall p :: p in rel ==> p.0 != f.name;
  }

  /** The globals `tags` and `files`, and the directory below. */
  class Store {
    var tags: map<string, Tag>
    var files: map<string, File>
    /** Names in the real directory that `stat` finds and that are not directories. */
    var onDisk: set<string>
    /** Every tag and file ever created. */
    ghost var known: set<Tag>
    ghost var knownFiles: set<File>
    ghost var rel: Relation
    /** The `selected_tags` entries of the paths that outlive their callback: those of open handles,
        and those that nobody will ever give back. */
    ghost var live: multiset<Tag>
    /** Of these, the entries of paths that were dropped without being deleted. */
    ghost var leaked: multiset<Tag>
    /** Whether the program has touched a tag after freeing it. */
    ghost var useAfterFree: bool
    ghost var locks: Locks

    /** The index: what the tables, the tags and the files say about each other. */
    ghost predicate Indexed()
      reads `tags, `files, `known, `knownFiles, `rel, known`files, known`inUse, knownFiles`tags
    {
      && Tables(tags, files, known, knownFiles)
      && TagSide(tags, files, known, rel) && FileSide(tags, knownFiles, rel) && UnusedEmpty(known)
    }

    ghost predicate Balanced(own: multiset<Tag>)
      reads `tags, `known, `live, known`freed, known`inUse, known`refCount
    {
      Held(tags, known, live, own) && Speculative(tags, known, live, own)
    }

    /** No open handle holds a tag that is not in use. */
    ghost predicate LiveInUse()
      reads `live, `leaked, `known, known`inUse
    {
      HandlesUsed(live, leaked, known)
    }

    /** Between callbacks, with no handle open on a tag that is not in use. */
    ghost predicate Idle()
      reads this, known, knownFiles
    {
      Indexed() && Balanced(multiset{}) && LiveInUse() && locks.walked == multiset{}
    }

    /** No table is being walked but at most that of a path. */
    ghost predicate Undisturbed()
      reads `locks
    {
      forall id :: id in locks.walked ==> id == OfPath
    }

    constructor (onDisk: set<string>)
      ensures Idle() && tags == map[] && files == map[] && rel == {} && !useAfterFree && this.onDisk == onDisk
      ensures known == {} && knownFiles == {} && live == leaked == multiset{} && !locks.deadlocked
    {
      tags, files, this.onDisk := map[], map[], onDisk;
      known, knownFiles, rel, live, leaked := {}, {}, {}, multiset{}, multiset{};
      useAfterFree, locks := false, Locks(multiset{}, false);
    }

    /** Any use of a tag through a pointer. */
    ghost method Touch(t: Tag)
      modifies `useAfterFree
      ensures useAfterFree == (old(useAfterFree) || t.freed)
    {
      useAfterFree := useAfterFree || t.freed;
    }

    /** Any write to a table. */
    ghost method Write(id: TableId)
      modifies `locks
      ensures locks == old(locks).(deadlocked := old(locks).deadlocked || id in old(locks).walked)
    {
      locks := locks.Written(id);
    }

    /** `ht_for_each` starts on a table. */
    ghost method BeginWalk(id: TableId)
      modifies `locks
      ensures locks == old(locks).(walked := old(locks).walked + multiset{id})
    {
      locks := locks.Walking(id);
    }

    /** `ht_for_each` ends, with nothing amiss since it started. */
    ghost method EndWalk(id: TableId, before: Locks)
      requires locks == before.(walked := before.walked + multiset{id})
      modifies `locks
      ensures locks == before
    {
      locks := locks.(walked := locks.walked - multiset{id});
      assert locks.walked == before.walked;
    }

    /** tag_get, or tag_get_or_create__ with `in_use` false. */
    method Resolve(component: string) returns (t: Tag)
      requires Indexed() && AllTags !in locks.walked
      modifies `tags, `known, `locks
      ensures locks == old(locks)
      ensures Indexed() && t.value == component
      ensures tags == old(tags)[component := t] && known == old(known) + {t}
      ensures if component in old(tags) then t == old(tags)[component]
              else fresh(t) && t !in old(known) && !t.inUse && t.refCount == 0 && !t.freed
    {
      hide *;
      EntriesNamed();
      if component in tags {
        t := tags[component];
      } else {
        t := new Tag(component, false);
        IndexGrows(t);
        Write(AllTags);
        tags := tags[component := t];
        known := known + {t};
        IndexParts();
      }
    }

    lemma IndexGrows(t: Tag)
      requires Indexed() && t !in known && t.files == map[] && t.value !in tags
      ensures var tags', known' := tags[t.value := t], known + {t};
              && Tables(tags', files, known', knownFiles)
              && TagSide(tags', files, known', rel) && FileSide(tags', knownFiles, rel) && UnusedEmpty(known')
    {
      hide TagSide, FileSide;
      TagSideGrows(tags, files, known, rel, t);
      FileSideGrows(tags, knownFiles, rel, t);
    }

    /** The counts are right but for the tag `t`, which may have no reference yet. */
    ghost predicate Referable(t: Tag, own: multiset<Tag>)
      reads `tags, `known, `live, known`freed, known`inUse, known`refCount
    {
      && t in known && !t.freed
      && (forall u :: u in known && u != t ==> Counted(u, tags, live, own))
      && (if t.inUse then t.refCount >= live[t] + 1 else t.refCount == live[t] + own[t])
      && (forall u :: u in own ==> u in known) && (forall u :: u in live ==> u in known)
    }

    /** tag_inc_ref on a tag just resolved. */
    method IncRef(t: Tag, ghost own: multiset<Tag>)
      requires Referable(t, own)
      modifies `useAfterFree, t`refCount
      ensures Held(tags, known, live, own + multiset{t}) && t.refCount == old(t.refCount) + 1
      ensures useAfterFree == old(useAfterFree)
    {
      Touch(t);
      t.refCount := t.refCount + 1;
      forall u | u in known ensures Counted(u, tags, live, own + multiset{t}) {
        if u != t {
          assert old(Counted(u, tags, live, own));
        }
      }
    }

    /** A fresh table entry changes nothing for the tags already known. */
    lemma StillCounted(u: Tag, tags0: map<string, Tag>, t: Tag, own: multiset<Tag>)
      requires Counted(u, tags0, live, own) && u != t
      ensures Counted(u, tags0[t.value := t], live, own)
    {
    }

    lemma EntriesNamed()
      requires Indexed()
      ensures forall k :: k in tags ==> tags[k] in known && InTable(tags[k], tags) && tags[k].value == k
    {
    }

    /** One component of compute_selected_tags. */
    method Select(component: string, ghost own: multiset<Tag>) returns (t: Tag)
      requires Indexed() && Balanced(own) && Current(tags, known, own) && AllTags !in locks.walked
      modifies `tags, `known, `useAfterFree, `locks, known`refCount
      ensures Indexed() && Balanced(own + multiset{t}) && Current(tags, known, own + multiset{t})
      ensures t.value == component && tags == old(tags)[component := t] && known == old(known) + {t}
      ensures if component in old(tags) then t == old(tags)[component] else fresh(t) && !t.inUse
      ensures t.refCount == (if component in old(tags) then old(tags[component].refCount) else 0) + 1
      ensures forall u :: u in old(known) && u != t ==> u.refCount == old(u.refCount)
      ensures useAfterFree == old(useAfterFree) && locks == old(locks)
    {
      hide *;
      ghost var tags0, known0 := tags, known;
      EntriesNamed();
      BalancedParts(own);
      t := Resolve(component);
      CountedNow(t, tags0, known0, own);
      SpeculativeGrows(tags0, known0, live, own, t);
      IncRef(t, own);
      BalancedParts(own + multiset{t});
    }

    lemma BalancedParts(own: multiset<Tag>)
      ensures Balanced(own) <==> Held(tags, known, live, own) && Speculative(tags, known, live, own)
      ensures Balanced(own) ==> forall u :: u in own ==> u in known
    {
    }

    /** The counts when a component has just been resolved, before it gets its reference. */
    lemma CountedNow(t: Tag, tags0: map<string, Tag>, known0: set<Tag>, own: multiset<Tag>)
      requires Held(tags0, known0, live, own) && tags == tags0[t.value := t] && known == known0 + {t}
      requires if t in known0 then InTable(t, tags0) else !t.inUse && t.refCount == 0 && !t.freed
      ensures !t.freed && Referable(t, own)
    {
      forall u | u in known && u != t ensures Counted(u, tags, live, own) {
        StillCounted(u, tags0, t, own);
      }
      assert t in known0 ==> Counted(t, tags0, live, own);
    }

    /** One turn of the loop in compute_selected_tags. */
    method SelectNext(component: string, selected: seq<Tag>, ghost own: multiset<Tag>,
                      ghost tags0: map<string, Tag>, ghost known0: set<Tag>, ghost was: map<Tag, int>) returns (t: Tag)
      requires Indexed() && Balanced(own + multiset(selected)) && Current(tags, known, own + multiset(selected))
      requires Grown(tags0, known0, was, tags, known, selected) && locks.walked == multiset{}
      modifies `tags, `known, `useAfterFree, `locks, known`refCount
      ensures Indexed() && Balanced(own + multiset(selected + [t]))
      ensures Current(tags, known, own + multiset(selected + [t]))
      ensures Grown(tags0, known0, was, tags, known, selected + [t])
      ensures tags == old(tags)[component := t] && (component in old(tags) ==> old(tags)[component] == t)
      ensures old(known) <= known && fresh(known - old(known))
      ensures useAfterFree == old(useAfterFree) && locks == old(locks)
    {
      hide *;
      ghost var tags1, known1 := tags, known;
      GrownMeans(tags0, known0, was, tags, known, selected);
      EntriesNamed();
      t := Select(component, own + multiset(selected));
      Write(OfPath);
      OneMoreEntry(selected, t, own);
      GrownStep(tags0, known0, was, tags1, known1, tags, known, component, selected, t);
    }

    /** path_create: compute_selected_tags over the components of the directory part. */
    method PathCreate(components: seq<string>, ghost own: multiset<Tag>) returns (selected: seq<Tag>)
      requires Indexed() && Balanced(own) && Current(tags, known, own) && locks.walked == multiset{}
      modifies `tags, `known, `useAfterFree, `locks, known`refCount
      ensures Indexed() && Balanced(own + multiset(selected)) && Current(tags, known, own + multiset(selected))
      ensures PathTags(old(tags), tags, components, selected)
      ensures old(known) <= known && fresh(known - old(known))
      ensures forall u :: u in known && u !in old(known) ==> !u.inUse
      ensures forall k :: k in tags && k !in old(tags) ==> !tags[k].inUse && tags[k] !in old(known)
      ensures forall u :: u in old(known) ==> u.refCount == old(u.refCount) + multiset(selected)[u]
      ensures useAfterFree == old(useAfterFree) && locks == old(locks)
    {
      hide Store.Indexed, Store.Balanced, Current, PathTags, Grown;
      selected := [];
      ghost var tags0, known0, was := tags, known, map u | u in known :: u.refCount;
      NothingSelected(tags, components, own);
      NothingGrown(tags, known, was);
      for i := 0 to |components|
        invariant Indexed() && Balanced(own + multiset(selected)) && Current(tags, known, own + multiset(selected))
        invariant PathTags(tags0, tags, components[..i], selected) && Grown(tags0, known0, was, tags, known, selected)
        invariant old(known) <= known && fresh(known - old(known))
        invariant useAfterFree == old(useAfterFree) && locks == old(locks)
      {
        ghost var tags1 := tags;
        var t := SelectNext(components[i], selected, own, tags0, known0, was);
        SelectedStep(tags0, tags1, components, i, selected, t, own);
        selected := selected + [t];
      }
      assert components[..|components|] == components;
      GrownMeans(tags0, known0, was, tags, known, selected);
    }

    /** file_remove_tag. */
    method FileRemoveTag(f: File, t: Tag)
      modifies f`tags, `locks
      ensures f.tags == old(f.tags) - {t.value}
      ensures old(FileSide(tags, knownFiles, rel)) && Tables(tags, files, known, knownFiles) && f in knownFiles ==>
                FileSide(tags, knownFiles, rel - {(f.name, t.value)})
      ensures locks == old(locks).(deadlocked := old(locks).deadlocked || TagsOf(f) in old(locks).walked)
    {
      Write(TagsOf(f));
      f.tags := f.tags - {t.value};
    }

    /** tag_dec_ref, after the table entry is gone. */
    method DecRef(t: Tag)
      modifies `tags, `locks, t`refCount, t`freed
      ensures t.refCount == old(t.refCount) - 1 && t.freed == (old(t.freed) || t.refCount == 0)
      ensures tags == if t.refCount == 0 then old(tags) - {t.value} else old(tags)
      ensures AllTags !in old(locks).walked ==> locks == old(locks)
    {
      t.refCount := t.refCount - 1;
      if t.refCount == 0 {
        Write(AllTags);
        tags := tags - {t.value};
        t.freed := true;
      }
    }

    /** The first pass of tag_remove: the tag's files, gathered so that the tag's own table is not
        written while it is being read. */
    method CollectFiles(t: Tag) returns (tmp: seq<File>)
      requires Undisturbed()
      modifies `locks
      ensures forall n :: n in t.files ==> t.files[n] in tmp
      ensures forall i :: 0 <= i < |tmp| ==> tmp[i] in t.files.Values
      ensures locks == old(locks)
    {
      tmp := [];
      var names := t.files.Keys;
      ghost var before := locks;
      BeginWalk(FilesOf(t));
      ghost var during := locks;
      while names != {}
        invariant names <= t.files.Keys && locks == during
        invariant forall n :: n in t.files && n !in names ==> t.files[n] in tmp
        invariant forall i :: 0 <= i < |tmp| ==> tmp[i] in t.files.Values
        decreases |names|
      {
        var n :| n in names;
        assert n in t.files;
        Write(GatheredFiles);
        tmp := tmp + [t.files[n]];
        names := names - {n};
      }
      EndWalk(FilesOf(t), before);
    }

    lemma GatheredOnly()
      requires Undisturbed()
      ensures forall f: File :: TagsOf(f) !in locks.walked + multiset{GatheredFiles}
    {
    }

    /** The second pass of tag_remove. */
    method ForgetTag(tmp: seq<File>, t: Tag)
      requires Undisturbed()
      modifies `locks, (set f | f in tmp)`tags
      ensures forall j :: 0 <= j < |tmp| ==> tmp[j].tags == old(tmp[j].tags) - {t.value}
      ensures locks == old(locks)
    {
      hide *;
      GatheredOnly();
      ghost var before := locks;
      BeginWalk(GatheredFiles);
      ghost var during := locks;
      for i := 0 to |tmp|
        invariant locks == during
        invariant forall j :: 0 <= j < i ==> tmp[j].tags == old(tmp[j].tags) - {t.value}
        invariant forall j :: i <= j < |tmp| ==>
                    tmp[j].tags == old(tmp[j].tags) || tmp[j].tags == old(tmp[j].tags) - {t.value}
      {
        FileRemoveTag(tmp[i], t);
      }
      EndWalk(GatheredFiles, before);
    }

    /** tag_remove. */
    method TagRemove(t: Tag)
      requires Undisturbed()
      modifies `tags, `useAfterFree, `locks, t`refCount, t`freed, t.files.Values`tags
      ensures tags == old(tags) - {t.value}
      ensures t.refCount == old(t.refCount) - 1 && t.freed == (old(t.freed) || t.refCount == 0)
      ensures useAfterFree == (old(useAfterFree) || old(t.freed)) && locks == old(locks)
      ensures forall n :: n in t.files ==> t.files[n].tags == old(t.files[n].tags) - {t.value}
    {
      Touch(t);
      var tmp := CollectFiles(t);
      ForgetTag(tmp, t);
      Write(AllTags);
      tags := tags - {t.value};
      DecRef(t);
    }

    /** The callback of free_selected_tags on one entry. When the counts are sound it touches no
        freed tag and keeps them sound; a freed entry is always touched. */
    method DropEntry(t: Tag, ghost own: multiset<Tag>, ghost sound: bool)
      requires UnusedEmpty(known) && t in known && own[t] > 0 && Undisturbed()
      requires sound ==> Held(tags, known, live, own)
      modifies `tags, `useAfterFree, `locks, t`refCount, t`freed
      ensures sound ==> Held(tags, known, live, own - multiset{t}) && useAfterFree == old(useAfterFree)
      ensures useAfterFree == (old(useAfterFree) || old(t.freed)) && locks == old(locks)
      ensures tags == if t.inUse then old(tags) else old(tags) - {t.value}
      ensures t.refCount == old(t.refCount) - (if t.inUse then 0 else 1)
      ensures t.freed == (old(t.freed) || (!t.inUse && t.refCount == 0))
    {
      hide Counted;
      ghost var tags0 := tags;
      Touch(t);
      if sound {
        CountedEntry(t, tags, own);
      }
      if !t.inUse {
        TagRemove(t);
      }
      if sound {
        forall u | u in known ensures Counted(u, tags, live, own - multiset{t}) {
          assert old(Counted(u, tags, live, own));
          if u != t {
            AnotherDropped(u, tags0, tags, own, t);
          } else {
            EntryDropped(t, tags, own);
          }
        }
      }
    }

    lemma CountedEntry(t: Tag, tags: map<string, Tag>, own: multiset<Tag>)
      requires Counted(t, tags, live, own) && own[t] > 0
      ensures !t.freed
      ensures if t.inUse then t.refCount >= live[t] + 1 else t.refCount == live[t] + own[t]
    {
    }

    lemma EntryDropped(t: Tag, tags: map<string, Tag>, own: multiset<Tag>)
      requires own[t] > 0
      requires if t.inUse then !t.freed && t.refCount >= live[t] + 1
               else t.refCount == live[t] + own[t] - 1 && t.freed == (t.refCount == 0) && t.value !in tags
      ensures Counted(t, tags, live, own - multiset{t})
    {
    }

    lemma AnotherDropped(u: Tag, tags0: map<string, Tag>, tags: map<string, Tag>, own: multiset<Tag>, t: Tag)
      requires Counted(u, tags0, live, own) && u != t && (tags == tags0 || tags == tags0 - {t.value})
      ensures Counted(u, tags, live, own - multiset{t})
    {
    }

    /** The callback on entry `i` of a path: `DropEntry`, with what becomes of an overdrawn tag `d`. */
    method DropNext(selected: seq<Tag>, i: nat, ghost own: multiset<Tag>, ghost sound: bool,
                    ghost d: Tag?, ghost before: int, ghost wasFreed: bool)
      requires i < |selected| && Undisturbed() && UnusedEmpty(known)
      requires multiset(selected) <= own && selected[i] in known
      requires sound ==> Held(tags, known, live, Rest(own, selected, i))
      requires d != null ==> Draining(d, before, wasFreed, multiset(selected[..i])[d], useAfterFree)
      modifies `tags, `useAfterFree, `locks, known`refCount, known`freed
      ensures sound ==> Held(tags, known, live, Rest(own, selected, i + 1)) && useAfterFree == old(useAfterFree)
      ensures old(useAfterFree) ==> useAfterFree
      ensures d != null ==> Draining(d, before, wasFreed, multiset(selected[..i + 1])[d], useAfterFree)
      ensures tags == old(tags) - (if selected[i].inUse then {} else {selected[i].value}) && locks == old(locks)
    {
      hide Counted, Held, UnusedNames, UnusedEmpty;
      EntryStep(selected, i, own);
      DropEntry(selected[i], Rest(own, selected, i), sound);
    }

    /** The iteration of free_selected_tags. */
    method DropAll(selected: seq<Tag>, ghost own: multiset<Tag>, ghost sound: bool,
                   ghost d: Tag?, ghost refs: int, ghost wasFreed: bool)
      requires Undisturbed() && UnusedEmpty(known)
      requires multiset(selected) <= own && forall i :: 0 <= i < |selected| ==> selected[i] in known
      requires sound ==> Held(tags, known, live, own)
      requires d != null ==> Draining(d, refs, wasFreed, multiset(selected[..0])[d], useAfterFree)
      modifies `tags, `useAfterFree, `locks, known`refCount, known`freed
      ensures sound ==> Held(tags, known, live, own - multiset(selected)) && useAfterFree == old(useAfterFree)
      ensures old(useAfterFree) ==> useAfterFree
      ensures d != null ==> Draining(d, refs, wasFreed, multiset(selected)[d], useAfterFree)
      ensures tags == old(tags) - UnusedNames(selected) && locks == old(locks)
    {
      hide Held, UnusedNames, Draining, Rest, Store.Undisturbed, UnusedEmpty;
      ghost var tags0, during, touched := tags, locks, useAfterFree;
      NothingDropped(selected, tags, own);
      EverythingDropped(selected, own);
      for i := 0 to |selected|
        invariant locks == during
        invariant sound ==> Held(tags, known, live, Rest(own, selected, i)) && useAfterFree == touched
        invariant touched ==> useAfterFree
        invariant d != null ==> Draining(d, refs, wasFreed, multiset(selected[..i])[d], useAfterFree)
        invariant tags == tags0 - UnusedNames(selected[..i])
      {
        UnusedNamesStep(selected, i);
        DropNext(selected, i, own, sound, d, refs, wasFreed);
      }
      assert selected[..|selected|] == selected;
    }

    /** free_selected_tags, whatever the entries are. With sound counts it touches no freed tag and keeps
        them sound; with an overdrawn tag `d` it does touch one. */
    method FreeSelectedTags(selected: seq<Tag>, ghost own: multiset<Tag>, ghost d: Tag?)
      requires UnusedEmpty(known) && locks.walked == multiset{}
      requires multiset(selected) <= own && forall i :: 0 <= i < |selected| ==> selected[i] in known
      requires if d == null then Held(tags, known, live, own) || useAfterFree else Overdrawn(d, selected)
      modifies `tags, `useAfterFree, `locks, known`refCount, known`freed
      ensures d == null && old(Held(tags, known, live, own)) ==>
                Held(tags, known, live, own - multiset(selected)) && useAfterFree == old(useAfterFree)
      ensures d != null || old(useAfterFree) ==> useAfterFree
      ensures tags == old(tags) - UnusedNames(selected) && locks == old(locks)
    {
      hide Held, UnusedNames, Draining, Overdrawn, UnusedEmpty;
      ghost var before, sound := locks, d == null && Held(tags, known, live, own);
      ghost var refs, wasFreed := if d == null then 0 else d.refCount, d != null && d.freed;
      if d != null {
        DrainStarts(d, selected, useAfterFree);
      }
      BeginWalk(OfPath);
      DropAll(selected, own, sound, d, refs, wasFreed);
      EndWalk(OfPath, before);
      if d != null {
        Drained(d, refs, wasFreed, selected, useAfterFree);
      }
    }

    /** The index and the table after a path that a callback created has been given back. */
    lemma SweptIndex(tags0: map<string, Tag>, selected: seq<Tag>, own: multiset<Tag>)
      requires Tables(tags0, files, known, knownFiles) && TagSide(tags0, files, known, rel)
      requires FileSide(tags0, knownFiles, rel) && UnusedEmpty(known)
      requires Speculative(tags0, known, live, own) && multiset(selected) <= own
      requires forall i :: 0 <= i < |selected| ==> selected[i] in known
      requires tags == tags0 - UnusedNames(selected)
      ensures Indexed() && Speculative(tags, known, live, own - multiset(selected))
    {
      hide TagSide, FileSide, UnusedEmpty, Speculative, UnusedNames, EntryClear;
      OwnAreClear(tags0, known, live, own, rel, selected);
      IndexWithout(tags0, files, known, knownFiles, rel, selected);
      SpeculativeSwept(tags0, known, live, own, selected);
    }

    lemma IndexParts()
      ensures Indexed() <==>
                && Tables(tags, files, known, knownFiles)
                && TagSide(tags, files, known, rel) && FileSide(tags, knownFiles, rel) && UnusedEmpty(known)
    {
    }

    /** path_delete of a path that the callback created. */
    method PathDelete(selected: seq<Tag>, ghost own: multiset<Tag>, ghost d: Tag?)
      requires Indexed() && Speculative(tags, known, live, own) && locks.walked == multiset{}
      requires multiset(selected) <= own && forall i :: 0 <= i < |selected| ==> selected[i] in known
      requires if d == null then Held(tags, known, live, own) || useAfterFree else Overdrawn(d, selected)
      modifies `tags, `useAfterFree, `locks, known`refCount, known`freed
      ensures Indexed() && Speculative(tags, known, live, own - multiset(selected))
      ensures d == null && old(Held(tags, known, live, own)) ==>
                Held(tags, known, live, own - multiset(selected)) && useAfterFree == old(useAfterFree)
      ensures d != null || old(useAfterFree) ==> useAfterFree
      ensures tags == old(tags) - UnusedNames(selected) && locks == old(locks)
    {
      hide *;
      IndexParts();
      ghost var tags0, gone := tags, UnusedNames(selected);
      FreeSelectedTags(selected, own, d);
      assert UnusedNames(selected) == gone;
      SweptIndex(tags0, selected, own);
    }

    // ----- files -----------------------------------------------------------------------------------

    /** file_get_or_create. */
    method FileGetOrCreate(name: string) returns (f: File)
      requires Indexed() && AllFiles !in locks.walked
      modifies `files, `knownFiles, `locks
      ensures locks == old(locks)
      ensures Indexed() && files == old(files)[name := f] && knownFiles == old(knownFiles) + {f} && f.name == name
      ensures if name in old(files) then f == old(files)[name] && f in old(knownFiles) else fresh(f) && f.tags == map[]
    {
      hide TagSide, FileSide, UnusedEmpty;
      if name in files {
        f := files[name];
      } else {
        f := new File(name);
        SidesWithNewFile(tags, files, known, knownFiles, rel, f);
        Write(AllFiles);
        files := files[name := f];
        knownFiles := knownFiles + {f};
      }
    }

    /** file_matches_tags. */
    method FileMatches(f: File, selected: seq<Tag>) returns (match_: bool)
      requires Indexed() && f in knownFiles
      modifies `useAfterFree, `locks
      ensures match_ <==> forall i :: 0 <= i < |selected| ==> (f.name, selected[i].value) in rel
      ensures (forall i :: 0 <= i < |selected| ==> !selected[i].freed) ==> useAfterFree == old(useAfterFree)
      ensures locks == old(locks)
    {
      match_ := true;
      ghost var before := locks;
      BeginWalk(OfPath);
      ghost var during := locks;
      for i := 0 to |selected|
        invariant match_ <==> forall j :: 0 <= j < i ==> (f.name, selected[j].value) in rel
        invariant (forall j :: 0 <= j < |selected| ==> !selected[j].freed) ==> useAfterFree == old(useAfterFree)
        invariant locks == during
      {
        Touch(selected[i]);
        assert selected[i].value in f.tags <==> (f.name, selected[i].value) in rel;
        if selected[i].value !in f.tags {
          match_ := false;
        }
      }
      EndWalk(OfPath, before);
    }

    /** file_add_tag. */
    method FileAddTag(f: File, t: Tag)
      requires FileSide(tags, knownFiles, rel) && Tables(tags, files, known, knownFiles)
      requires f in knownFiles && InTable(t, tags)
      modifies f`tags, `locks
      ensures FileSide(tags, knownFiles, rel + {(f.name, t.value)})
      ensures locks == old(locks).(deadlocked := old(locks).deadlocked || TagsOf(f) in old(locks).walked)
    {
      Write(TagsOf(f));
      if t.value !in f.tags {
        f.tags := f.tags[t.value := t];
      }
    }

    /** tag_add_file: the tag is in use from now on. */
    method TagAddFile(t: Tag, f: File)
      requires TagSide(tags, files, known, rel) && Tables(tags, files, known, knownFiles)
      requires t in known && InTable(t, tags) && f in knownFiles
      modifies t`files, t`inUse, `locks
      ensures TagSide(tags, files, known, rel + {(f.name, t.value)}) && t.inUse
      ensures locks == old(locks).(deadlocked := old(locks).deadlocked || FilesOf(t) in old(locks).walked)
    {
      Write(FilesOf(t));
      if f.name !in t.files {
        t.files := t.files[f.name := f];
      }
      t.inUse := true;
    }

    /** tag_file: both sides. */
    method TagFile(t: Tag, f: File)
      requires Indexed() && t in known && InTable(t, tags) && f in knownFiles
      modifies `rel, `useAfterFree, `locks, t`files, t`inUse, f`tags
      ensures Indexed() && t.inUse && rel == old(rel) + {(f.name, t.value)}
      ensures useAfterFree == (old(useAfterFree) || t.freed)
      ensures locks == old(locks).(deadlocked := old(locks).deadlocked || TagsOf(f) in old(locks).walked
                                                 || FilesOf(t) in old(locks).walked)
    {
      hide *;
      IndexParts();
      UnusedApart(known, t);
      Touch(t);
      FileAddTag(f, t);
      TagAddFile(t, f);
      rel := rel + {(f.name, t.value)};
      UnusedTogether(known, t);
      IndexParts();
    }

    /** tag_remove_file. */
    method TagRemoveFile(t: Tag, f: File)
      requires TagSide(tags, files, known, rel) && t in known && NoRival(t, tags)
      modifies t`files, `locks
      ensures TagSide(tags, files, known, rel - {(f.name, t.value)}) && t.files == old(t.files) - {f.name}
      ensures locks == old(locks).(deadlocked := old(locks).deadlocked || FilesOf(t) in old(locks).walked)
    {
      Write(FilesOf(t));
      t.files := t.files - {f.name};
    }

    /** untag_file: both sides, by name. */
    method UntagFile(t: Tag, f: File)
      requires Indexed() && t in known && NoRival(t, tags) && f in knownFiles
      modifies `rel, `useAfterFree, `locks, t`files, f`tags
      ensures Indexed() && rel == old(rel) - {(f.name, t.value)}
      ensures useAfterFree == (old(useAfterFree) || t.freed)
      ensures locks == old(locks).(deadlocked := old(locks).deadlocked || TagsOf(f) in old(locks).walked
                                                 || FilesOf(t) in old(locks).walked)
    {
      hide *;
      IndexParts();
      UnusedApart(known, t);
      Touch(t);
      FileRemoveTag(f, t);
      TagRemoveFile(t, f);
      rel := rel - {(f.name, t.value)};
      UnusedTogether(known, t);
      IndexParts();
    }
  }

  /** The names of the entries whose tag is not in use. */
  ghost function UnusedNames(selected: seq<Tag>): set<string>
    reads selected`inUse
  {
    set i | 0 <= i < |selected| && !selected[i].inUse :: selected[i].value
  }

  /** A tag not in use of which a path holds more entries than there are references to give back. */
  ghost predicate Overdrawn(d: Tag, selected: seq<Tag>)
    reads d`inUse, d`freed, d`refCount
  {
    !d.inUse && d in multiset(selected) && (d.freed || 0 < d.refCount < multiset(selected)[d])
  }

  /** Such a tag after `spent` of the entries: either a freed tag was touched, or references are left. */
  ghost predicate Draining(d: Tag, before: int, wasFreed: bool, spent: nat, touched: bool)
    reads d`inUse, d`freed, d`refCount
  {
    !d.inUse && (touched || (if wasFreed then d.freed && spent == 0
                             else d.refCount == before - spent && 0 <= d.refCount && (d.refCount == 0 ==> d.freed)))
  }

  lemma DrainStarts(d: Tag, selected: seq<Tag>, touched: bool)
    requires Overdrawn(d, selected)
    ensures Draining(d, d.refCount, d.freed, multiset(selected[..0])[d], touched)
    ensures d in multiset(selected) && (d.freed || d.refCount < multiset(selected)[d])
  {
  }

  lemma Drained(d: Tag, before: int, wasFreed: bool, selected: seq<Tag>, touched: bool)
    requires Draining(d, before, wasFreed, multiset(selected)[d], touched)
    requires d in multiset(selected) && (wasFreed || before < multiset(selected)[d])
    ensures touched
  {
  }

  lemma UnusedNamesStep(selected: seq<Tag>, i: nat)
    requires i < |selected|
    ensures UnusedNames(selected[..i + 1])
            == UnusedNames(selected[..i]) + (if selected[i].inUse then {} else {selected[i].value})
  {
    var a, b := UnusedNames(selected[..i]), UnusedNames(selected[..i + 1]);
    forall x | x in a ensures x in b {
      var j :| 0 <= j < i && !selected[..i][j].inUse && selected[..i][j].value == x;
      assert selected[..i + 1][j] == selected[..i][j];
    }
    forall x | x in b ensures x in a || (!selected[i].inUse && x == selected[i].value) {
      var j :| 0 <= j < i + 1 && !selected[..i + 1][j].inUse && selected[..i + 1][j].value == x;
      if j < i {
        assert selected[..i][j] == selected[..i + 1][j];
      }
    }
    if !selected[i].inUse {
      assert selected[..i + 1][i] == selected[i];
    }
  }

  /** What a callback still holds after giving back the first entries of a path. */
  ghost function Rest(own: multiset<Tag>, selected: seq<Tag>, i: nat): multiset<Tag>
    requires i <= |selected|
  {
    own - multiset(selected[..i])
  }

  lemma EverythingDropped(selected: seq<Tag>, own: multiset<Tag>)
    ensures Rest(own, selected, |selected|) == own - multiset(selected)
  {
    assert selected[..|selected|] == selected;
  }

  lemma NothingDropped(selected: seq<Tag>, tags: map<string, Tag>, own: multiset<Tag>)
    ensures Rest(own, selected, 0) == own && UnusedNames(selected[..0]) == {} && tags - {} == tags
  {
    assert selected[..0] == [];
  }

  lemma EntryStep(selected: seq<Tag>, i: nat, own: multiset<Tag>)
    requires i < |selected| && multiset(selected) <= own
    ensures (own - multiset(selected[..i]))[selected[i]] > 0
    ensures own - multiset(selected[..i + 1]) == own - multiset(selected[..i]) - multiset{selected[i]}
    ensures multiset(selected[..i + 1]) == multiset(selected[..i]) + multiset{selected[i]}
  {
    assert selected[..i + 1] == selected[..i] + [selected[i]];
    assert selected == selected[..i + 1] + selected[i + 1..];
    assert multiset(selected) == multiset(selected[..i + 1]) + multiset(selected[i + 1..]);
  }

  /** What path resolution does to the table: the path's tags are the table entries of its
      components, and the table gained no other entry and lost none. */
  ghost predicate PathTags(tags0: map<string, Tag>, tags: map<string, Tag>, components: seq<string>, selected: seq<Tag>) {
    && |selected| == |components|
    && (forall i :: 0 <= i < |components| ==> components[i] in tags && selected[i] == tags[components[i]])
    && (forall k :: k in tags0 ==> k in tags && tags[k] == tags0[k])
    && (forall k :: k in tags ==> k in tags0 || k in components)
  }

  function Names(selected: seq<Tag>): (r: seq<string>)
    ensures |r| == |selected|
  {
    seq(|selected|, i requires 0 <= i < |selected| => selected[i].value)
  }

  /** What path resolution did so far to the table and the counts `was`. */
  ghost predicate Grown(tags0: map<string, Tag>, known0: set<Tag>, was: map<Tag, int>,
                        tags: map<string, Tag>, known: set<Tag>, selected: seq<Tag>)
    reads known`inUse, known0`refCount
  {
    && known0 <= known && known0 <= was.Keys
    && (forall u :: u in known && u !in known0 ==> !u.inUse)
    && (forall k :: k in tags && k !in tags0 ==> tags[k] in known && tags[k] !in known0)
    && forall u :: u in known0 ==> u.refCount == was[u] + multiset(selected)[u]
  }

  lemma NothingGrown(tags: map<string, Tag>, known: set<Tag>, was: map<Tag, int>)
    requires was == map u | u in known :: u.refCount
    ensures Grown(tags, known, was, tags, known, [])
  {
  }

  lemma GrownMeans(tags0: map<string, Tag>, known0: set<Tag>, was: map<Tag, int>,
                   tags: map<string, Tag>, known: set<Tag>, selected: seq<Tag>)
    requires Grown(tags0, known0, was, tags, known, selected)
    ensures known0 <= known && known0 <= was.Keys
    ensures forall u :: u in known && u !in known0 ==> !u.inUse
    ensures forall k :: k in tags && k !in tags0 ==> tags[k] in known && !tags[k].inUse && tags[k] !in known0
    ensures forall u :: u in known0 ==> u in was && u.refCount == was[u] + multiset(selected)[u]
  {
  }

  lemma OneMoreEntry(selected: seq<Tag>, t: Tag, own: multiset<Tag>)
    ensures multiset(selected + [t]) == multiset(selected) + multiset{t}
    ensures own + multiset(selected + [t]) == own + multiset(selected) + multiset{t}
  {
  }

  lemma GrownStep(tags0: map<string, Tag>, known0: set<Tag>, was: map<Tag, int>, tags1: map<string, Tag>,
                  known1: set<Tag>, tags: map<string, Tag>, known: set<Tag>, component: string,
                  selected: seq<Tag>, t: Tag)
    requires known0 <= known1 && known0 <= was.Keys && known == known1 + {t} && tags == tags1[component := t]
    requires if component in tags1 then t == tags1[component] && t in known1 else t !in known1 && !t.inUse
    requires forall u :: u in known1 && u !in known0 ==> !u.inUse
    requires forall k :: k in tags1 && k !in tags0 ==> tags1[k] in known1 && tags1[k] !in known0
    requires forall u :: u in known0 ==> u.refCount == was[u] + multiset(selected)[u] + if u == t then 1 else 0
    ensures Grown(tags0, known0, was, tags, known, selected + [t])
  {
    assert multiset(selected + [t]) == multiset(selected) + multiset{t};
  }

  lemma NothingSelected(tags: map<string, Tag>, components: seq<string>, own: multiset<Tag>)
    ensures var none: seq<Tag> := [];
            own + multiset(none) == own && PathTags(tags, tags, components[..0], none)
            && forall u: Tag :: multiset(none)[u] == 0
  {
    var none: seq<Tag> := [];
    assert multiset(none) == multiset{};
  }

  lemma SelectedStep(tags0: map<string, Tag>, tags: map<string, Tag>, components: seq<string>, i: nat,
                     selected: seq<Tag>, t: Tag, own: multiset<Tag>)
    requires i < |components| && PathTags(tags0, tags, components[..i], selected)
    requires components[i] in tags ==> tags[components[i]] == t
    ensures PathTags(tags0, tags[components[i] := t], components[..i + 1], selected + [t])
    ensures multiset(selected + [t]) == multiset(selected) + multiset{t}
    ensures own + multiset(selected + [t]) == own + multiset(selected) + multiset{t}
  {
    assert components[..i + 1] == components[..i] + [components[i]];
  }
}
