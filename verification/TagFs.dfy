/** The callbacks of fuse/tagfs.c, each run from path creation to path deletion. Paths are given as
    the components of their directory part and a file name. */
module TagFs {
  import opened Tags

  datatype Attr = Directory | Regular | NoEntry

  datatype Status = Ok | ENOENT | EPERM | EEXIST | EISDIR | EINVAL | OpenError | CloseError

  /** Every component is a tag that file `n` carries. */
  ghost predicate Carries(rel: Relation, n: string, components: seq<string>) {
    forall i :: 0 <= i < |components| ==> (n, components[i]) in rel
  }

  /** getattr_intra: an entry of the real directory that is not a regular file there is taken for a
      tag directory; a regular file exists below a path only when it has all the path's tags. */
  ghost function AttrOf(onDisk: set<string>, rel: Relation, components: seq<string>, n: string): Attr {
    if n !in onDisk then Directory
    else if components == [] || Carries(rel, n, components) then Regular
    else NoEntry
  }

  ghost predicate AllLive(selected: seq<Tag>)
    reads selected`freed
  {
    forall i :: 0 <= i < |selected| ==> !selected[i].freed
  }

  method GetattrIntra(fs: Store, selected: seq<Tag>, n: string) returns (res: Attr)
    requires fs.Indexed() && fs.locks.walked == multiset{}
    modifies fs`files, fs`knownFiles, fs`useAfterFree, fs`locks
    ensures fs.locks == old(fs.locks)
    ensures fs.Indexed() && res == AttrOf(fs.onDisk, fs.rel, Names(selected), n)
    ensures old(fs.knownFiles) <= fs.knownFiles && fresh(fs.knownFiles - old(fs.knownFiles))
    ensures n in fs.onDisk ==> n in fs.files
    ensures forall k :: k in old(fs.files) ==> k in fs.files
    ensures forall k :: k in fs.files ==> k in old(fs.files) || (k == n && n in fs.onDisk)
    ensures AllLive(selected) ==> fs.useAfterFree == old(fs.useAfterFree)
  {
    hide TagSide, FileSide, UnusedEmpty;
    if n !in fs.onDisk {
      return Directory;
    }
    var f := fs.FileGetOrCreate(n);
    res := Regular;
    assert selected == [] <==> Names(selected) == [];
    if selected != [] {
      var match_ := fs.FileMatches(f, selected);
      CarriesNames(fs.rel, n, selected);
      if !match_ {
        res := NoEntry;
      }
    }
  }

  // ----- the state around a callback ------------------------------------------------------------------

  ghost function SetOf(names: seq<string>): set<string> {
    set c | c in names
  }

  ghost function UsedNames(tags: map<string, Tag>): set<string>
    reads tags.Values`inUse
  {
    set k | k in tags && tags[k].inUse
  }

  /** The table without those of `names` whose tag is not in use. */
  ghost function Swept(tags: map<string, Tag>, names: set<string>): map<string, Tag>
    reads tags.Values`inUse
  {
    map k | k in tags && (tags[k].inUse || k !in names) :: tags[k]
  }

  /** An entry of the table now is the earlier one of its name, or a tag made since. */
  ghost predicate SameTags(tags0: map<string, Tag>, known0: set<Tag>, tags: map<string, Tag>) {
    forall k :: k in tags ==> if k in tags0 then tags[k] == tags0[k] else tags[k] !in known0
  }

  /** After path creation from an idle state, dropping the path's unused tags restores the table, but
      for tags that earlier paths had left there unused. */
  lemma PathLeavesNoTrace(tags0: map<string, Tag>, tags: map<string, Tag>, components: seq<string>, selected: seq<Tag>)
    requires PathTags(tags0, tags, components, selected)
    requires forall k :: k in tags ==> tags[k].value == k
    requires forall k :: k in tags && k !in tags0 ==> !tags[k].inUse
    ensures tags - UnusedNames(selected) == Swept(tags0, SetOf(components))
    ensures Names(selected) == components
    ensures UsedNames(tags) == UsedNames(tags0)
  {
    forall k | k in tags ensures k in UnusedNames(selected) <==> k in components && !tags[k].inUse {
      if k in components {
        var i :| 0 <= i < |components| && components[i] == k;
        assert selected[i].value == k;
      }
    }
  }

  lemma CarriesNames(rel: Relation, n: string, selected: seq<Tag>)
    ensures Carries(rel, n, Names(selected)) <==> forall i :: 0 <= i < |selected| ==> (n, selected[i].value) in rel
  {
    var names := Names(selected);
    assert forall i :: 0 <= i < |names| ==> names[i] == selected[i].value;
  }

  lemma IdleFacts(fs: Store)
    requires fs.Idle()
    ensures Current(fs.tags, fs.known, multiset{})
    ensures forall k :: k in fs.tags ==> fs.tags[k] in fs.known && fs.tags[k].value == k
    ensures fs.Indexed() && fs.Balanced(multiset{}) && fs.LiveInUse() && fs.locks.walked == multiset{}
  {
  }

  lemma IdleSurplus(fs: Store)
    requires fs.Idle()
    ensures Surplus(fs.known, fs.live, multiset{})
  {
  }

  lemma InTableIsLive(fs: Store, components: seq<string>, selected: seq<Tag>, own: multiset<Tag>, tags0: map<string, Tag>)
    requires fs.Indexed() && fs.Balanced(own) && PathTags(tags0, fs.tags, components, selected)
    ensures AllLive(selected) && forall i :: 0 <= i < |selected| ==> selected[i] in fs.known
  {
    forall i | 0 <= i < |selected| ensures selected[i] in fs.known && !selected[i].freed {
      assert fs.tags[components[i]] in fs.known;
      assert Counted(selected[i], fs.tags, fs.live, own);
    }
  }

  /** A path is created while the callback holds `own`. */
  method CreatePath(fs: Store, components: seq<string>, ghost own: multiset<Tag>) returns (selected: seq<Tag>)
    requires fs.Indexed() && fs.Balanced(own) && Current(fs.tags, fs.known, own)
    requires fs.LiveInUse() && Surplus(fs.known, fs.live, own) && fs.locks.walked == multiset{}
    modifies fs`tags, fs`known, fs`useAfterFree, fs`locks, fs.known`refCount
    ensures fs.Indexed() && fs.Balanced(own + multiset(selected)) && fs.LiveInUse()
    ensures Current(fs.tags, fs.known, own + multiset(selected))
    ensures Surplus(fs.known, fs.live, own + multiset(selected))
    ensures PathTags(old(fs.tags), fs.tags, components, selected) && Names(selected) == components
    ensures AllLive(selected) && forall i :: 0 <= i < |selected| ==> selected[i] in fs.known && InTable(selected[i], fs.tags)
    ensures fs.tags - UnusedNames(selected) == old(Swept(fs.tags, SetOf(components)))
    ensures UsedNames(fs.tags) == old(UsedNames(fs.tags))
    ensures forall k :: k in fs.tags && k !in old(fs.tags) ==> fs.tags[k] !in old(fs.known)
    ensures old(fs.known) <= fs.known && fresh(fs.known - old(fs.known))
    ensures fs.useAfterFree == old(fs.useAfterFree) && fs.locks == old(fs.locks)
  {
    hide *;
    ghost var tags1, known1, was := fs.tags, fs.known, map u | u in fs.known :: u.refCount;
    ghost var used, swept := UsedNames(fs.tags), Swept(fs.tags, SetOf(components));
    SurplusMeans(fs.known, was, fs.live, own);
    HandlesNow(fs);
    selected := fs.PathCreate(components, own);
    HandlesAmongMore(fs, known1);
    CreatedPath(fs, tags1, components, selected, own + multiset(selected));
    assert UsedNames(tags1) == used && Swept(tags1, SetOf(components)) == swept;
    SurplusGrows(known1, was, fs.known, fs.live, own, multiset(selected));
  }

  /** What a path that was just created looks like. */
  lemma CreatedPath(fs: Store, tags0: map<string, Tag>, components: seq<string>, selected: seq<Tag>, own: multiset<Tag>)
    requires fs.Indexed() && fs.Balanced(own) && PathTags(tags0, fs.tags, components, selected)
    requires forall k :: k in fs.tags && k !in tags0 ==> !fs.tags[k].inUse
    ensures AllLive(selected) && forall i :: 0 <= i < |selected| ==> selected[i] in fs.known && InTable(selected[i], fs.tags)
    ensures fs.tags - UnusedNames(selected) == Swept(tags0, SetOf(components)) && Names(selected) == components
    ensures UsedNames(fs.tags) == UsedNames(tags0)
  {
    hide *;
    InTableIsLive(fs, components, selected, own, tags0);
    TableFacts(fs);
    PathInTable(fs, tags0, components, selected);
    PathLeavesNoTrace(tags0, fs.tags, components, selected);
  }

  lemma HandlesNow(fs: Store)
    requires fs.LiveInUse()
    ensures HandlesUsed(fs.live, fs.leaked, fs.known)
  {
  }

  lemma HandlesAmongMore(fs: Store, known0: set<Tag>)
    requires HandlesUsed(fs.live, fs.leaked, known0) && known0 <= fs.known
    ensures fs.LiveInUse()
  {
  }

  lemma SurplusMeans(known: set<Tag>, was: map<Tag, int>, live: multiset<Tag>, own: multiset<Tag>)
    requires Surplus(known, live, own) && was == map u | u in known :: u.refCount
    ensures known <= was.Keys
    ensures forall u :: u in known && u.inUse && !u.freed ==> was[u] >= live[u] + own[u] + 1
  {
  }

  /** Each new entry comes with a reference. */
  lemma SurplusGrows(known1: set<Tag>, was: map<Tag, int>, known: set<Tag>, live: multiset<Tag>, own: multiset<Tag>,
                     more: multiset<Tag>)
    requires known1 <= known && known1 <= was.Keys
    requires forall u :: u in known1 && u.inUse && !u.freed ==> was[u] >= live[u] + own[u] + 1
    requires forall u :: u in known && u !in known1 ==> !u.inUse
    requires forall u :: u in known1 ==> u.refCount == was[u] + more[u]
    ensures Surplus(known, live, own + more)
  {
  }

  lemma PathInTable(fs: Store, tags0: map<string, Tag>, components: seq<string>, selected: seq<Tag>)
    requires fs.Indexed() && PathTags(tags0, fs.tags, components, selected)
    ensures forall i :: 0 <= i < |selected| ==> InTable(selected[i], fs.tags)
  {
  }

  /** The start of a callback with one path. */
  method Begin(fs: Store, components: seq<string>) returns (selected: seq<Tag>)
    requires fs.Idle()
    modifies fs`tags, fs`known, fs`useAfterFree, fs`locks, fs.known`refCount
    ensures fs.Indexed() && fs.Balanced(multiset(selected)) && fs.LiveInUse()
    ensures Current(fs.tags, fs.known, multiset(selected))
    ensures PathTags(old(fs.tags), fs.tags, components, selected) && Names(selected) == components
    ensures AllLive(selected) && forall i :: 0 <= i < |selected| ==> selected[i] in fs.known
    ensures fs.tags - UnusedNames(selected) == old(Swept(fs.tags, SetOf(components)))
    ensures UsedNames(fs.tags) == old(UsedNames(fs.tags))
    ensures forall k :: k in fs.tags && k !in old(fs.tags) ==> fs.tags[k] !in old(fs.known)
    ensures Surplus(fs.known, fs.live, multiset(selected))
    ensures old(fs.known) <= fs.known && fresh(fs.known - old(fs.known))
    ensures fs.useAfterFree == old(fs.useAfterFree) && fs.locks == old(fs.locks) && fs.locks.walked == multiset{}
  {
    hide *;
    IdleFacts(fs);
    IdleSurplus(fs);
    selected := CreatePath(fs, components, multiset{});
    NoneBefore(selected);
  }

  lemma NoneBefore(selected: seq<Tag>)
    ensures multiset{} + multiset(selected) == multiset(selected)
    ensures multiset(selected) - multiset(selected) == multiset{}
  {
  }

  lemma TableFacts(fs: Store)
    requires fs.Indexed()
    ensures forall k :: k in fs.tags ==> fs.tags[k] in fs.known && fs.tags[k].value == k
  {
  }

  lemma KeptEntries(tags0: map<string, Tag>, tags: map<string, Tag>, components: seq<string>, selected: seq<Tag>)
    requires PathTags(tags0, tags, components, selected)
    ensures forall k :: k in tags0 ==> k in tags && tags[k] == tags0[k]
  {
  }

  /** The end of a callback with one path. */
  method Finish(fs: Store, selected: seq<Tag>, ghost rest: map<string, Tag>)
    requires fs.Indexed() && fs.Balanced(multiset(selected)) && fs.LiveInUse() && fs.locks.walked == multiset{}
    requires fs.tags - UnusedNames(selected) == rest
    requires forall i :: 0 <= i < |selected| ==> selected[i] in fs.known
    modifies fs`tags, fs`useAfterFree, fs`locks, fs.known`refCount, fs.known`freed
    ensures fs.Idle() && fs.useAfterFree == old(fs.useAfterFree) && fs.locks == old(fs.locks)
    ensures fs.tags == rest
  {
    hide TagSide, FileSide, UnusedEmpty, Counted, Tables, Speculative, Held, UnusedNames, Store.LiveInUse;
    NoneBefore(selected);
    fs.PathDelete(selected, multiset(selected), null);
  }

  /** getattr. Looking a path up, however many tags it invents on the way, leaves the index and the tags
      in use as they were. It even clears the table of unused tags that an earlier path had left under
      one of these names; when all tags in the table are in use, the table is as before. */
  method Getattr(fs: Store, components: seq<string>, n: string) returns (res: Attr)
    requires fs.Idle()
    modifies fs`tags, fs`known, fs`files, fs`knownFiles, fs`useAfterFree, fs`locks, fs.known`refCount, fs.known`freed
    ensures fs.Idle() && fs.tags == old(Swept(fs.tags, SetOf(components)))
    ensures fs.useAfterFree == old(fs.useAfterFree) && fs.locks == old(fs.locks)
    ensures res == AttrOf(fs.onDisk, fs.rel, components, n) && (n in fs.onDisk ==> n in fs.files)
    ensures old(fs.known) <= fs.known && fresh(fs.known - old(fs.known))
    ensures old(fs.knownFiles) <= fs.knownFiles && fresh(fs.knownFiles - old(fs.knownFiles))
  {
    hide *;
    ghost var rest := Swept(fs.tags, SetOf(components));
    var selected := Begin(fs, components);
    res := LookUp(fs, selected, n, rest);
  }

  /** getattr from the created path on. */
  method LookUp(fs: Store, selected: seq<Tag>, n: string, ghost rest: map<string, Tag>) returns (res: Attr)
    requires fs.Indexed() && fs.Balanced(multiset(selected)) && fs.LiveInUse() && fs.locks.walked == multiset{}
    requires fs.tags - UnusedNames(selected) == rest && AllLive(selected)
    requires forall i :: 0 <= i < |selected| ==> selected[i] in fs.known
    modifies fs`tags, fs`files, fs`knownFiles, fs`useAfterFree, fs`locks, fs.known`refCount, fs.known`freed
    ensures fs.Idle() && fs.tags == rest && fs.useAfterFree == old(fs.useAfterFree) && fs.locks == old(fs.locks)
    ensures res == AttrOf(fs.onDisk, fs.rel, Names(selected), n) && (n in fs.onDisk ==> n in fs.files)
    ensures old(fs.knownFiles) <= fs.knownFiles && fresh(fs.knownFiles - old(fs.knownFiles))
  {
    hide *;
    res := GetattrIntra(fs, selected, n);
    Finish(fs, selected, rest);
  }

  // ----- unlink ---------------------------------------------------------------------------------------

  /** File `n` paired with each of `names`. */
  ghost function PairsOf(n: string, names: seq<string>): Relation {
    set i | 0 <= i < |names| :: (n, names[i])
  }

  /** Those of `names` that no file carries. */
  ghost function BareNames(names: seq<string>, rel: Relation): set<string> {
    set i | 0 <= i < |names| && Bare(names[i], rel) :: names[i]
  }

  /** A tag lists no file just when nothing is related to its name. */
  lemma EmptyIsBare(fs: Store, t: Tag)
    requires fs.Indexed() && t in fs.known && NoRival(t, fs.tags)
    ensures t.files == map[] <==> Bare(t.value, fs.rel)
    ensures t.files == map[] ==> TagSide(fs.tags - {t.value}, fs.files, fs.known, fs.rel)
                                 && FileSide(fs.tags - {t.value}, fs.knownFiles, fs.rel)
  {
    if t.files == map[] {
      forall p | p in fs.rel ensures p.1 != t.value {
        NothingTagged(fs.tags, fs.files, fs.known, fs.rel, t, p.0);
      }
      BareLeave(fs.tags, fs.files, fs.known, fs.knownFiles, fs.rel, {t.value});
    } else {
      var n :| n in t.files;
      assert (n, t.value) in fs.rel;
    }
  }

  /** One turn of the loop in path_unlink. */
  method UnlinkOne(fs: Store, t: Tag, f: File, ghost own: multiset<Tag>)
    requires fs.Indexed() && Speculative(fs.tags, fs.known, fs.live, own) && fs.Undisturbed()
    requires t in fs.known && NoRival(t, fs.tags) && f in fs.knownFiles
    modifies fs`tags, fs`rel, fs`useAfterFree, fs`locks, t`refCount, t`freed, t`files, f`tags
    ensures fs.Indexed() && Speculative(fs.tags, fs.known, fs.live, own)
    ensures fs.rel == old(fs.rel) - {(f.name, t.value)}
    ensures fs.tags == if Bare(t.value, fs.rel) then old(fs.tags) - {t.value} else old(fs.tags)
    ensures t.refCount == old(t.refCount) - (if Bare(t.value, fs.rel) then 1 else 0)
    ensures t.freed == (old(t.freed) || (Bare(t.value, fs.rel) && t.refCount == 0))
    ensures fs.useAfterFree == (old(fs.useAfterFree) || old(t.freed)) && fs.locks == old(fs.locks)
  {
    hide Store.Indexed, Bare, Speculative, NoRival;
    fs.UntagFile(t, f);
    EmptyIsBare(fs, t);
    if t.files == map[] {
      RemoveEmpty(fs, t, own);
    }
  }

  /** tag_remove on a tag without a file. */
  method RemoveEmpty(fs: Store, t: Tag, ghost own: multiset<Tag>)
    requires fs.Indexed() && Speculative(fs.tags, fs.known, fs.live, own) && fs.Undisturbed()
    requires t in fs.known && NoRival(t, fs.tags) && t.files == map[]
    modifies fs`tags, fs`useAfterFree, fs`locks, t`refCount, t`freed
    ensures fs.Indexed() && Speculative(fs.tags, fs.known, fs.live, own) && fs.tags == old(fs.tags) - {t.value}
    ensures t.refCount == old(t.refCount) - 1 && t.freed == (old(t.freed) || t.refCount == 0)
    ensures fs.useAfterFree == (old(fs.useAfterFree) || old(t.freed)) && fs.locks == old(fs.locks)
  {
    hide TagSide, FileSide, Tables, UnusedEmpty, Speculative, NoRival, Bare;
    EmptyIsBare(fs, t);
    FewerEntries(fs, t, own);
    fs.TagRemove(t);
  }

  lemma FewerEntries(fs: Store, t: Tag, own: multiset<Tag>)
    requires Tables(fs.tags, fs.files, fs.known, fs.knownFiles) && NoRival(t, fs.tags)
    requires Speculative(fs.tags, fs.known, fs.live, own)
    ensures Tables(fs.tags - {t.value}, fs.files, fs.known, fs.knownFiles)
    ensures Speculative(fs.tags - {t.value}, fs.known, fs.live, own)
  {
  }

  lemma UnlinkStep(names: seq<string>, i: nat, n: string, rel0: Relation, rel: Relation,
                   tags0: map<string, Tag>, tags: map<string, Tag>)
    requires i < |names| && rel == rel0 - PairsOf(n, names[..i])
    requires tags == tags0 - BareNames(names[..i], rel)
    ensures var c := names[i];
            var rel' := rel - {(n, c)};
            && rel' == rel0 - PairsOf(n, names[..i + 1])
            && (if Bare(c, rel') then tags - {c} else tags) == tags0 - BareNames(names[..i + 1], rel')
  {
    var c := names[i];
    var rel' := rel - {(n, c)};
    assert PairsOf(n, names[..i + 1]) == PairsOf(n, names[..i]) + {(n, c)} by {
      forall p | p in PairsOf(n, names[..i]) ensures p in PairsOf(n, names[..i + 1]) {
        var j :| 0 <= j < i && p == (n, names[..i][j]);
        assert p == (n, names[..i + 1][j]);
      }
      assert (n, c) == (n, names[..i + 1][i]);
    }
    var before, after := BareNames(names[..i], rel), BareNames(names[..i + 1], rel');
    forall k ensures k in after <==> k in before || (k == c && Bare(c, rel')) {
      if k in before {
        var j :| 0 <= j < i && names[..i][j] == k && Bare(k, rel);
        assert names[..i + 1][j] == k && Bare(k, rel');
      }
      if k == c && Bare(c, rel') {
        assert names[..i + 1][i] == k;
      }
      if k in after && k != c {
        var j :| 0 <= j < i + 1 && names[..i + 1][j] == k && Bare(k, rel');
        assert names[..i][j] == k && Bare(k, rel);
      }
    }
  }

  /** Enough references for `path_unlink` to give one back per entry: a tag in use is counted beyond
      the other holders and all of the path's entries, and for any other tag there are as many
      references that nobody will give back. */
  ghost predicate WellReferenced(fs: Store, selected: seq<Tag>)
    reads fs`live, selected`inUse, selected`refCount, selected`freed
  {
    forall i :: 0 <= i < |selected| ==>
      var t, k := selected[i], multiset(selected)[selected[i]];
      !t.freed && if t.inUse then t.refCount >= fs.live[t] + k + 1 else fs.live[t] >= k
  }

  /** What of this matters in the loop. */
  ghost predicate Affordable(selected: seq<Tag>)
    reads selected`refCount, selected`freed
  {
    forall i :: 0 <= i < |selected| ==> !selected[i].freed && selected[i].refCount > multiset(selected)[selected[i]]
  }

  lemma WellReferencedIsAffordable(fs: Store, selected: seq<Tag>, own: multiset<Tag>)
    requires WellReferenced(fs, selected) && fs.Balanced(own) && multiset(selected) <= own
    requires forall i :: 0 <= i < |selected| ==> selected[i] in fs.known
    ensures Affordable(selected)
  {
    forall i | 0 <= i < |selected| ensures !selected[i].freed && selected[i].refCount > multiset(selected)[selected[i]] {
      var t := selected[i];
      assert Counted(t, fs.tags, fs.live, own);
      assert t in multiset(selected);
    }
  }

  /** The count of a tag that had `before` references and `spent` chances to give one back. */
  ghost predicate Spending(u: Tag, before: int, spent: nat, wasFreed: bool)
    reads u`refCount, u`inUse, u`freed
  {
    && before - spent <= u.refCount <= before
    && (u.freed && u.refCount > 0 ==> wasFreed) && (wasFreed ==> u.freed)
    && (!u.inUse ==> u.refCount == before - spent && (u.refCount == 0 && before > 0 ==> u.freed))
  }

  lemma MultisetPrefix<T>(s: seq<T>, i: nat)
    requires i < |s|
    ensures multiset(s[..i + 1]) == multiset(s[..i]) + multiset{s[i]}
    ensures multiset(s[..i + 1]) <= multiset(s)
  {
    assert s[..i + 1] == s[..i] + [s[i]];
    assert s == s[..i + 1] + s[i + 1..];
  }

  /** The count and the freed mark of every tag. */
  ghost function CountsNow(known: set<Tag>): map<Tag, (int, bool)>
    reads known`refCount, known`freed
  {
    map u | u in known :: (u.refCount, u.freed)
  }

  /** `Spending` for all tags, from the counts and marks `was`. */
  ghost predicate AllSpending(known: set<Tag>, was: map<Tag, (int, bool)>, spent: multiset<Tag>)
    reads known`refCount, known`inUse, known`freed
  {
    known <= was.Keys && forall u :: u in known ==> Spending(u, was[u].0, spent[u], was[u].1)
  }

  ghost predicate FreedAsBefore(known: set<Tag>, was: map<Tag, (int, bool)>)
    reads known`freed
  {
    known <= was.Keys && forall u :: u in known ==> u.freed == was[u].1
  }

  /** Turn `i` of that loop, against the relation, the table and the counts before the loop. */
  method UnlinkNth(fs: Store, selected: seq<Tag>, i: nat, t: Tag, f: File, ghost own: multiset<Tag>, ghost sound: bool,
                   ghost rel0: Relation, ghost tags0: map<string, Tag>, ghost was: map<Tag, (int, bool)>)
    requires fs.Indexed() && Speculative(fs.tags, fs.known, fs.live, own) && f in fs.knownFiles && fs.Undisturbed()
    requires i < |selected| && t == selected[i] && t in fs.known && InTable(t, tags0)
    requires fs.rel == rel0 - PairsOf(f.name, Names(selected)[..i])
    requires fs.tags == tags0 - BareNames(Names(selected)[..i], fs.rel)
    requires AllSpending(fs.known, was, multiset(selected[..i])) && (sound ==> FreedAsBefore(fs.known, was))
    requires t in was && (sound ==> !was[t].1 && was[t].0 > multiset(selected)[t])
    modifies fs`tags, fs`rel, fs`useAfterFree, fs`locks, t`refCount, t`freed, t`files, f`tags
    ensures fs.Indexed() && Speculative(fs.tags, fs.known, fs.live, own)
    ensures fs.rel == rel0 - PairsOf(f.name, Names(selected)[..i + 1])
    ensures fs.tags == tags0 - BareNames(Names(selected)[..i + 1], fs.rel)
    ensures AllSpending(fs.known, was, multiset(selected[..i + 1])) && (sound ==> FreedAsBefore(fs.known, was))
    ensures sound ==> fs.useAfterFree == old(fs.useAfterFree) && !t.freed
    ensures fs.locks == old(fs.locks)
  {
    hide TagSide, FileSide, Tables, UnusedEmpty, Speculative, PairsOf, BareNames, Bare, Spending, NoRival, InTable, Names,
      Store.Indexed;
    NamesAre(selected);
    UnlinkStep(Names(selected), i, f.name, rel0, fs.rel, tags0, fs.tags);
    MultisetPrefix(selected, i);
    RivalsStayAway(t, tags0, BareNames(Names(selected)[..i], fs.rel));
    Unpacked(fs.known, was, multiset(selected[..i]), sound);
    UnlinkCounted(fs, t, f, own, sound, was[t].0, multiset(selected[..i])[t], was[t].1);
  }

  /** The loop of path_unlink on a known file. */
  method UnlinkAll(fs: Store, selected: seq<Tag>, f: File, ghost own: multiset<Tag>, ghost sound: bool)
    requires fs.Indexed() && Speculative(fs.tags, fs.known, fs.live, own) && f in fs.knownFiles && fs.Undisturbed()
    requires forall i :: 0 <= i < |selected| ==> selected[i] in fs.known && InTable(selected[i], fs.tags)
    requires sound ==> Affordable(selected)
    modifies fs`tags, fs`rel, fs`useAfterFree, fs`locks, fs.known`refCount, fs.known`freed, fs.known`files,
      fs.knownFiles`tags
    ensures fs.Indexed() && Speculative(fs.tags, fs.known, fs.live, own)
    ensures fs.rel == old(fs.rel) - PairsOf(f.name, Names(selected))
    ensures fs.tags == old(fs.tags) - BareNames(Names(selected), fs.rel)
    ensures AllSpending(fs.known, old(CountsNow(fs.known)), multiset(selected)) && fs.locks == old(fs.locks)
    ensures sound ==> fs.useAfterFree == old(fs.useAfterFree) && FreedAsBefore(fs.known, old(CountsNow(fs.known)))
  {
    hide TagSide, FileSide, Tables, UnusedEmpty, Speculative, PairsOf, BareNames, Bare, Spending, NoRival, InTable,
      Names, Store.Indexed, AllSpending, FreedAsBefore, Store.Undisturbed;
    NamesAre(selected);
    ghost var names, rel0, tags0 := Names(selected), fs.rel, fs.tags;
    ghost var was := CountsNow(fs.known);
    ghost var during := fs.locks;
    NothingUnlinked(fs, selected, f.name, was);
    for i := 0 to |selected|
      invariant fs.Indexed() && Speculative(fs.tags, fs.known, fs.live, own) && fs.locks == during
      invariant fs.rel == rel0 - PairsOf(f.name, names[..i])
      invariant fs.tags == tags0 - BareNames(names[..i], fs.rel)
      invariant AllSpending(fs.known, was, multiset(selected[..i]))
      invariant sound ==> fs.useAfterFree == old(fs.useAfterFree) && FreedAsBefore(fs.known, was)
    {
      UnlinkNth(fs, selected, i, selected[i], f, own, sound, rel0, tags0, was);
    }
    assert names[..|selected|] == names && selected[..|selected|] == selected;
  }

  lemma Unpacked(known: set<Tag>, was: map<Tag, (int, bool)>, spent: multiset<Tag>, sound: bool)
    requires AllSpending(known, was, spent) && (sound ==> FreedAsBefore(known, was))
    ensures forall u :: u in known ==> u in was && Spending(u, was[u].0, spent[u], was[u].1)
    ensures sound ==> forall u :: u in known ==> u in was && u.freed == was[u].1
  {
  }

  /** path_unlink. The file loses the path's tags, and every tag of the path that is left without a
      file is removed. */
  method PathUnlink(fs: Store, selected: seq<Tag>, n: string, ghost own: multiset<Tag>, ghost sound: bool)
    returns (res: Status)
    requires fs.Indexed() && Speculative(fs.tags, fs.known, fs.live, own) && fs.locks.walked == multiset{}
    requires forall i :: 0 <= i < |selected| ==> selected[i] in fs.known && InTable(selected[i], fs.tags)
    requires sound ==> n !in fs.files || Affordable(selected)
    modifies fs`tags, fs`rel, fs`useAfterFree, fs`locks, fs.known`refCount, fs.known`freed, fs.known`files,
      fs.knownFiles`tags
    ensures fs.Indexed() && Speculative(fs.tags, fs.known, fs.live, own) && fs.locks == old(fs.locks)
    ensures res == if n in fs.files then Ok else ENOENT
    ensures fs.rel == if n in fs.files then old(fs.rel) - PairsOf(n, Names(selected)) else old(fs.rel)
    ensures fs.tags == if n in fs.files then old(fs.tags) - BareNames(Names(selected), fs.rel) else old(fs.tags)
    ensures n in fs.files ==> AllSpending(fs.known, old(CountsNow(fs.known)), multiset(selected))
    ensures sound && n in fs.files ==> FreedAsBefore(fs.known, old(CountsNow(fs.known)))
    ensures n !in fs.files ==> forall u :: u in fs.known ==> u.refCount == old(u.refCount) && u.freed == old(u.freed)
    ensures sound || n !in fs.files ==> fs.useAfterFree == old(fs.useAfterFree)
  {
    hide *;
    if n !in fs.files {
      return ENOENT;
    }
    NamedFile(fs, n);
    ghost var before := fs.locks;
    fs.BeginWalk(OfPath);
    PathWalkedOnly(fs);
    UnlinkAll(fs, selected, fs.files[n], own, sound);
    fs.EndWalk(OfPath, before);
    res := Ok;
  }

  lemma PathWalkedOnly(fs: Store)
    requires fs.locks.walked == multiset{} + multiset{OfPath}
    ensures fs.Undisturbed()
  {
  }

  lemma NamedFile(fs: Store, n: string)
    requires fs.Indexed() && n in fs.files
    ensures fs.files[n] in fs.knownFiles && fs.files[n].name == n
  {
  }

  lemma NamesAre(selected: seq<Tag>)
    ensures forall i :: 0 <= i < |selected| ==> Names(selected)[i] == selected[i].value
  {
  }

  lemma RivalsStayAway(t: Tag, tags: map<string, Tag>, gone: set<string>)
    requires InTable(t, tags)
    ensures NoRival(t, tags - gone)
  {
  }

  lemma NothingUnlinked(fs: Store, selected: seq<Tag>, n: string, was: map<Tag, (int, bool)>)
    requires was == CountsNow(fs.known)
    ensures fs.rel == fs.rel - PairsOf(n, Names(selected)[..0])
    ensures fs.tags == fs.tags - BareNames(Names(selected)[..0], fs.rel)
    ensures multiset(selected[..0]) == multiset{}
    ensures AllSpending(fs.known, was, multiset(selected[..0])) && FreedAsBefore(fs.known, was)
  {
  }

  /** `UnlinkOne` with its effect on the count of the tag. */
  method UnlinkCounted(fs: Store, t: Tag, f: File, ghost own: multiset<Tag>, ghost sound: bool,
                       ghost before: int, ghost spent: nat, ghost wasFreed: bool)
    requires fs.Indexed() && Speculative(fs.tags, fs.known, fs.live, own) && fs.Undisturbed()
    requires t in fs.known && NoRival(t, fs.tags) && f in fs.knownFiles && Spending(t, before, spent, wasFreed)
    requires sound ==> !t.freed && before > spent + 1
    modifies fs`tags, fs`rel, fs`useAfterFree, fs`locks, t`refCount, t`freed, t`files, f`tags
    ensures fs.Indexed() && Speculative(fs.tags, fs.known, fs.live, own)
    ensures fs.rel == old(fs.rel) - {(f.name, t.value)}
    ensures fs.tags == if Bare(t.value, fs.rel) then old(fs.tags) - {t.value} else old(fs.tags)
    ensures Spending(t, before, spent + 1, wasFreed)
    ensures sound ==> !t.freed && fs.useAfterFree == old(fs.useAfterFree)
    ensures fs.locks == old(fs.locks)
  {
    hide TagSide, FileSide, Tables, Speculative, Bare;
    ghost var unused := !t.inUse;
    if unused {
      assert t.files == map[];
    }
    UnlinkOne(fs, t, f, own);
    if unused {
      assert t.files == map[];
      EmptyIsBare(fs, t);
    }
  }

  // ----- the counts after path_unlink -------------------------------------------------------------------

  /** The entries whose tag is not in use. */
  ghost function UnusedEntries(selected: seq<Tag>): multiset<Tag>
    reads selected`inUse
  {
    if selected == [] then multiset{}
    else
      var t := selected[|selected| - 1];
      UnusedEntries(selected[..|selected| - 1]) + (if t.inUse then multiset{} else multiset{t})
  }

  lemma {:induction false} UnusedEntriesCounted(selected: seq<Tag>, u: Tag)
    ensures UnusedEntries(selected)[u] == if u.inUse then 0 else multiset(selected)[u]
  {
    if selected != [] {
      UnusedEntriesCounted(selected[..|selected| - 1], u);
      assert selected == selected[..|selected| - 1] + [selected[|selected| - 1]];
    }
  }

  /** Where the references of leaked paths stand in for those of unused entries, they do so for good. */
  lemma PaidFor(fs: Store, selected: seq<Tag>, paid: multiset<Tag>)
    requires WellReferenced(fs, selected) && paid == UnusedEntries(selected) && fs.LiveInUse()
    ensures paid <= fs.leaked <= fs.live && paid <= multiset(selected)
    ensures Paying(fs.known, paid, selected)
  {
    forall u: Tag ensures paid[u] <= fs.leaked[u] && paid[u] <= multiset(selected)[u] {
      UnusedEntriesCounted(selected, u);
      if paid[u] > 0 {
        assert u in multiset(selected);
        var i :| 0 <= i < |selected| && selected[i] == u;
        assert fs.live[u] >= multiset(selected)[u] && u in fs.live;
      }
    }
    forall u | u in fs.known ensures paid[u] == if u.inUse then 0 else multiset(selected)[u] {
      UnusedEntriesCounted(selected, u);
    }
  }

  /** The count of one tag after path_unlink on a well referenced path. */
  lemma StillCounted(u: Tag, tags0: map<string, Tag>, gone: set<string>, live: multiset<Tag>, paid: multiset<Tag>,
                     own: multiset<Tag>, before: int, spent: nat, wasFreed: bool)
    requires Spending(u, before, spent, wasFreed) && u.freed == wasFreed
    requires paid[u] == (if u.inUse then 0 else spent) && paid[u] <= live[u] && spent <= own[u]
    requires if wasFreed then live[u] == 0 && own[u] == 0 && !u.inUse && !InTable(u, tags0)
             else if u.inUse then before >= live[u] + 1 && (spent > 0 ==> before >= live[u] + spent + 1)
             else before == live[u] + own[u] && before >= 1
    ensures Counted(u, tags0 - gone, live - paid, own)
  {
  }

  /** The table afterwards, with fewer references outstanding. */
  lemma SpeculativeStill(tags: map<string, Tag>, known: set<Tag>, live: multiset<Tag>, paid: multiset<Tag>,
                         own: multiset<Tag>, selected: seq<Tag>)
    requires Speculative(tags, known, live, own) && paid <= multiset(selected) <= own
    ensures Speculative(tags, known, live - paid, own)
  {
    forall k | k in tags && tags[k] in known && !tags[k].inUse ensures own[tags[k]] > 0 || (live - paid)[tags[k]] > 0 {
      if own[tags[k]] == 0 {
        assert paid[tags[k]] == 0;
      }
    }
  }

  lemma HandlesStillUsed(live: multiset<Tag>, leaked: multiset<Tag>, known: set<Tag>, paid: multiset<Tag>)
    requires HandlesUsed(live, leaked, known) && paid <= leaked
    ensures HandlesUsed(live - paid, leaked - paid, known) && (live - paid) - (leaked - paid) == live - leaked
  {
  }

  /** path_unlink on a known file with the counts, which stay sound when every entry is well referenced. */
  method UnlinkHeld(fs: Store, selected: seq<Tag>, n: string, ghost own: multiset<Tag>, ghost sound: bool)
    requires fs.Indexed() && fs.Balanced(own) && multiset(selected) <= own && fs.LiveInUse()
    requires forall i :: 0 <= i < |selected| ==> selected[i] in fs.known && InTable(selected[i], fs.tags)
    requires n in fs.files && fs.locks.walked == multiset{} && (sound ==> WellReferenced(fs, selected))
    modifies fs`tags, fs`rel, fs`live, fs`leaked, fs`useAfterFree, fs`locks, fs.known`refCount, fs.known`freed,
      fs.known`files, fs.knownFiles`tags
    ensures fs.Indexed() && Speculative(fs.tags, fs.known, fs.live, own) && fs.LiveInUse() && fs.locks == old(fs.locks)
    ensures fs.live - fs.leaked == old(fs.live) - old(fs.leaked)
    ensures fs.rel == old(fs.rel) - PairsOf(n, Names(selected))
    ensures fs.tags == old(fs.tags) - BareNames(Names(selected), fs.rel)
    ensures sound ==> Held(fs.tags, fs.known, fs.live, own) && fs.useAfterFree == old(fs.useAfterFree)
    ensures !sound ==> fs.live == old(fs.live)
    ensures AllSpending(fs.known, old(CountsNow(fs.known)), multiset(selected))
  {
    hide *;
    fs.BalancedParts(own);
    ghost var tags0, was := fs.tags, CountsNow(fs.known);
    ghost var paid := UnusedEntries(selected);
    if sound {
      WellPaid(fs, selected, own, was, paid);
    }
    var res := PathUnlink(fs, selected, n, own, sound);
    if sound {
      SettleUp(fs, selected, own, was, tags0, BareNames(Names(selected), fs.rel), paid);
    }
  }

  /** What is known of the counts before path_unlink on a well referenced path. */
  lemma WellPaid(fs: Store, selected: seq<Tag>, own: multiset<Tag>, was: map<Tag, (int, bool)>, paid: multiset<Tag>)
    requires fs.Balanced(own) && fs.LiveInUse() && WellReferenced(fs, selected) && multiset(selected) <= own
    requires forall i :: 0 <= i < |selected| ==> selected[i] in fs.known
    requires was == CountsNow(fs.known) && paid == UnusedEntries(selected)
    ensures Affordable(selected) && AllEntitled(fs.known, was, selected, fs.tags, fs.live, own)
    ensures Paying(fs.known, paid, selected) && paid <= fs.leaked <= fs.live && paid <= multiset(selected)
  {
    hide *;
    WellReferencedIsAffordable(fs, selected, own);
    PaidFor(fs, selected, paid);
    Entitled(fs, selected, own, was);
  }

  /** `Pay`, with what the caller goes on to use. */
  ghost method SettleUp(fs: Store, selected: seq<Tag>, own: multiset<Tag>, was: map<Tag, (int, bool)>,
                        tags0: map<string, Tag>, gone: set<string>, paid: multiset<Tag>)
    requires fs.Indexed() && Speculative(fs.tags, fs.known, fs.live, own) && fs.LiveInUse()
    requires multiset(selected) <= own && fs.tags == tags0 - gone
    requires paid <= fs.leaked <= fs.live && paid <= multiset(selected)
    requires Paying(fs.known, paid, selected) && AllEntitled(fs.known, was, selected, tags0, fs.live, own)
    requires AllSpending(fs.known, was, multiset(selected)) && FreedAsBefore(fs.known, was)
    modifies fs`live, fs`leaked
    ensures fs.Indexed() && Speculative(fs.tags, fs.known, fs.live, own) && fs.LiveInUse()
    ensures Held(fs.tags, fs.known, fs.live, own) && AllSpending(fs.known, was, multiset(selected))
    ensures fs.live - fs.leaked == old(fs.live) - old(fs.leaked)
  {
    hide *;
    Pay(fs, selected, own, was, tags0, gone, paid);
    fs.BalancedParts(own);
  }

  /** The leaked references that stood in for unused entries are no longer outstanding. */
  ghost method Pay(fs: Store, selected: seq<Tag>, own: multiset<Tag>, was: map<Tag, (int, bool)>,
                   tags0: map<string, Tag>, gone: set<string>, paid: multiset<Tag>)
    requires Speculative(fs.tags, fs.known, fs.live, own) && fs.LiveInUse()
    requires multiset(selected) <= own && fs.tags == tags0 - gone
    requires paid <= fs.leaked <= fs.live && paid <= multiset(selected)
    requires Paying(fs.known, paid, selected) && AllEntitled(fs.known, was, selected, tags0, fs.live, own)
    requires AllSpending(fs.known, was, multiset(selected)) && FreedAsBefore(fs.known, was)
    modifies fs`live, fs`leaked
    ensures fs.Balanced(own) && fs.LiveInUse() && fs.live - fs.leaked == old(fs.live) - old(fs.leaked)
  {
    hide *;
    HandlesNow(fs);
    ghost var live, leaked := fs.live - paid, fs.leaked - paid;
    SpeculativeStill(fs.tags, fs.known, fs.live, paid, own, selected);
    HeldAfterUnlink(fs, selected, own, was, tags0, gone, paid);
    HandlesStillUsed(fs.live, fs.leaked, fs.known, paid);
    fs.live, fs.leaked := live, leaked;
    fs.BalancedParts(own);
    HandlesAmongMore(fs, fs.known);
  }

  /** What each count was good for before path_unlink. */
  ghost predicate Entitlement(u: Tag, refs: int, freed: bool, spent: nat, tags: map<string, Tag>, live: multiset<Tag>,
                              own: multiset<Tag>)
    reads u`inUse
  {
    if freed then live[u] == 0 && own[u] == 0 && !u.inUse && !InTable(u, tags)
    else if u.inUse then refs >= live[u] + 1 && (spent > 0 ==> refs >= live[u] + spent + 1)
    else refs == live[u] + own[u] && refs >= 1
  }

  ghost predicate AllEntitled(known: set<Tag>, was: map<Tag, (int, bool)>, selected: seq<Tag>, tags: map<string, Tag>,
                              live: multiset<Tag>, own: multiset<Tag>)
    reads known`inUse
  {
    && known <= was.Keys && (forall u :: u in own ==> u in known) && (forall u :: u in live ==> u in known)
    && forall u :: u in known ==> Entitlement(u, was[u].0, was[u].1, multiset(selected)[u], tags, live, own)
  }

  /** `paid` is the unused entries. */
  ghost predicate Paying(known: set<Tag>, paid: multiset<Tag>, selected: seq<Tag>)
    reads known`inUse
  {
    forall u :: u in known ==> paid[u] == if u.inUse then 0 else multiset(selected)[u]
  }

  lemma Entitled(fs: Store, selected: seq<Tag>, own: multiset<Tag>, was: map<Tag, (int, bool)>)
    requires fs.Balanced(own) && WellReferenced(fs, selected) && was == CountsNow(fs.known)
    ensures AllEntitled(fs.known, was, selected, fs.tags, fs.live, own)
  {
    forall u | u in fs.known
      ensures Entitlement(u, was[u].0, was[u].1, multiset(selected)[u], fs.tags, fs.live, own)
    {
      assert Counted(u, fs.tags, fs.live, own);
      if u in multiset(selected) {
        var i :| 0 <= i < |selected| && selected[i] == u;
      }
    }
  }

  lemma HeldAfterUnlink(fs: Store, selected: seq<Tag>, own: multiset<Tag>, was: map<Tag, (int, bool)>,
                        tags0: map<string, Tag>, gone: set<string>, paid: multiset<Tag>)
    requires multiset(selected) <= own && paid <= fs.live && fs.tags == tags0 - gone
    requires Paying(fs.known, paid, selected) && AllEntitled(fs.known, was, selected, tags0, fs.live, own)
    requires AllSpending(fs.known, was, multiset(selected)) && FreedAsBefore(fs.known, was)
    ensures Held(fs.tags, fs.known, fs.live - paid, own)
  {
    forall u | u in fs.known ensures Counted(u, fs.tags, fs.live - paid, own) {
      StillCounted(u, tags0, gone, fs.live, paid, own, was[u].0, multiset(selected)[u], was[u].1);
    }
  }

  /** A path whose unused tags are all covered by leaked references is well referenced. */
  lemma CoveredPathReferenced(fs: Store, selected: seq<Tag>)
    requires fs.Balanced(multiset(selected)) && Surplus(fs.known, fs.live, multiset(selected))
    requires forall i :: 0 <= i < |selected| ==> selected[i] in fs.known && Covered(fs, selected, i)
    ensures WellReferenced(fs, selected)
  {
    forall i | 0 <= i < |selected| ensures !selected[i].freed {
      assert Counted(selected[i], fs.tags, fs.live, multiset(selected));
    }
  }

  /** Entry `i` is in use, or leaked references make up for all entries of its tag. */
  ghost predicate Covered(fs: Store, selected: seq<Tag>, i: nat)
    requires i < |selected|
    reads fs`live, selected`inUse
  {
    selected[i].inUse || fs.live[selected[i]] >= multiset(selected)[selected[i]]
  }

  lemma UnusedIsCountedExactly(fs: Store, t: Tag, own: multiset<Tag>)
    requires fs.Balanced(own) && t in fs.known && !t.inUse && own[t] > 0
    ensures !t.freed && t.refCount == fs.live[t] + own[t]
  {
    assert Counted(t, fs.tags, fs.live, own);
  }

  lemma OverdrawnNow(u: Tag, before: int, selected: seq<Tag>, known: set<Tag>, was: map<Tag, (int, bool)>, covered: nat)
    requires AllSpending(known, was, multiset(selected)) && u in known && u in was && was[u].0 == before
    requires !u.inUse && u in multiset(selected)
    requires before == covered + multiset(selected)[u] && covered < multiset(selected)[u]
    ensures Overdrawn(u, selected)
  {
  }

  /** path_unlink on the only path of a callback. When some unused entry `d` is not covered, the path
      then holds more entries of `d` than there are references left. */
  method UnlinkEither(fs: Store, selected: seq<Tag>, n: string, ghost d: Tag?)
    requires fs.Indexed() && fs.Balanced(multiset(selected)) && Surplus(fs.known, fs.live, multiset(selected))
    requires forall i :: 0 <= i < |selected| ==> selected[i] in fs.known && InTable(selected[i], fs.tags)
    requires n in fs.files && fs.LiveInUse() && fs.locks.walked == multiset{}
    requires d == null ==> forall i :: 0 <= i < |selected| ==> Covered(fs, selected, i)
    requires d != null ==> exists i :: 0 <= i < |selected| && selected[i] == d && !Covered(fs, selected, i)
    modifies fs`tags, fs`rel, fs`live, fs`leaked, fs`useAfterFree, fs`locks, fs.known`refCount, fs.known`freed,
      fs.known`files, fs.knownFiles`tags
    ensures fs.Indexed() && Speculative(fs.tags, fs.known, fs.live, multiset(selected)) && fs.locks == old(fs.locks)
    ensures fs.live - fs.leaked == old(fs.live) - old(fs.leaked) && fs.LiveInUse()
    ensures fs.rel == old(fs.rel) - PairsOf(n, Names(selected))
    ensures fs.tags == old(fs.tags) - BareNames(Names(selected), fs.rel)
    ensures d == null ==> Held(fs.tags, fs.known, fs.live, multiset(selected)) && fs.useAfterFree == old(fs.useAfterFree)
    ensures d != null ==> Overdrawn(d, selected)
  {
    hide Store.Indexed, Speculative, Surplus, PairsOf, BareNames, Names, InTable, AllSpending, Held, Overdrawn,
      WellReferenced, Store.LiveInUse;
    ghost var refs, was := 0, CountsNow(fs.known);
    if d == null {
      CoveredPathReferenced(fs, selected);
    } else {
      UnusedIsCountedExactly(fs, d, multiset(selected));
      refs := d.refCount;
    }
    UnlinkHeld(fs, selected, n, multiset(selected), d == null);
    if d != null {
      OverdrawnNow(d, refs, selected, fs.known, was, fs.live[d]);
    }
  }

  /** The unused entries of a path have no file, so path_unlink removes them. */
  lemma UnusedAreBare(fs: Store, selected: seq<Tag>)
    requires fs.Indexed()
    requires forall i :: 0 <= i < |selected| ==> selected[i] in fs.known && InTable(selected[i], fs.tags)
    ensures forall v, rel :: v in UnusedNames(selected) && rel <= fs.rel ==> Bare(v, rel)
  {
    forall v, rel | v in UnusedNames(selected) && rel <= fs.rel ensures Bare(v, rel) {
      var i :| 0 <= i < |selected| && !selected[i].inUse && selected[i].value == v;
      assert selected[i].files == map[];
      EmptyIsBare(fs, selected[i]);
    }
  }

  lemma NothingLeft(tags: map<string, Tag>, selected: seq<Tag>, rel: Relation)
    requires forall v :: v in UnusedNames(selected) ==> Bare(v, rel)
    ensures tags - BareNames(Names(selected), rel) - UnusedNames(selected) == tags - BareNames(Names(selected), rel)
  {
    forall v | v in UnusedNames(selected) ensures v in BareNames(Names(selected), rel) {
      var i :| 0 <= i < |selected| && !selected[i].inUse && selected[i].value == v;
      assert Names(selected)[i] == v;
    }
  }

  /** unlink of a known file from the created path on. */
  method UnlinkAndDelete(fs: Store, selected: seq<Tag>, n: string, ghost d: Tag?)
    requires fs.Indexed() && fs.Balanced(multiset(selected)) && Surplus(fs.known, fs.live, multiset(selected))
    requires forall i :: 0 <= i < |selected| ==> selected[i] in fs.known && InTable(selected[i], fs.tags)
    requires n in fs.files && fs.LiveInUse() && fs.locks.walked == multiset{}
    requires d == null ==> forall i :: 0 <= i < |selected| ==> Covered(fs, selected, i)
    requires d != null ==> exists i :: 0 <= i < |selected| && selected[i] == d && !Covered(fs, selected, i)
    modifies fs`tags, fs`rel, fs`live, fs`leaked, fs`useAfterFree, fs`locks, fs.known`refCount, fs.known`freed,
      fs.known`files, fs.knownFiles`tags
    ensures fs.locks == old(fs.locks) && fs.live - fs.leaked == old(fs.live) - old(fs.leaked)
    ensures fs.rel == old(fs.rel) - PairsOf(n, Names(selected))
    ensures fs.tags == old(fs.tags) - BareNames(Names(selected), fs.rel)
    ensures if d == null then fs.Idle() && fs.useAfterFree == old(fs.useAfterFree) else fs.useAfterFree
  {
    hide Store.Indexed, Speculative, Held, Surplus, PairsOf, BareNames, Bare, UnusedNames, Store.LiveInUse, Names,
      InTable, Covered, WellReferenced, Overdrawn;
    ghost var tags0, rel0, unused := fs.tags, fs.rel, UnusedNames(selected);
    UnusedAreBare(fs, selected);
    UnlinkEither(fs, selected, n, d);
    assert UnusedNames(selected) == unused && fs.rel <= rel0;
    NothingLeft(tags0, selected, fs.rel);
    NoneBefore(selected);
    fs.PathDelete(selected, multiset(selected), d);
  }

  /** Some component names no tag, or a tag not in use with fewer references than the path names it. */
  ghost predicate Overdraws(components: seq<string>, tags: map<string, Tag>)
    reads tags.Values`inUse, tags.Values`refCount
  {
    exists i :: 0 <= i < |components| && (components[i] !in tags ||
      (!tags[components[i]].inUse && tags[components[i]].refCount < multiset(components)[components[i]]))
  }

  /** The same by the references that outlive callbacks. */
  ghost predicate Uncovered(components: seq<string>, tags: map<string, Tag>, live: multiset<Tag>)
    reads tags.Values`inUse
  {
    exists i :: 0 <= i < |components| && (components[i] !in tags ||
      (!tags[components[i]].inUse && live[tags[components[i]]] < multiset(components)[components[i]]))
  }

  lemma OverdrawsMeans(fs: Store, components: seq<string>)
    requires fs.Idle()
    ensures Overdraws(components, fs.tags) <==> Uncovered(components, fs.tags, fs.live)
  {
    forall k | k in fs.tags && !fs.tags[k].inUse ensures fs.tags[k].refCount == fs.live[fs.tags[k]] {
      assert Counted(fs.tags[k], fs.tags, fs.live, multiset{});
    }
  }

  /** A path holds each table entry as often as it names it. */
  lemma {:induction false} EntriesPerName(tags: map<string, Tag>, components: seq<string>, selected: seq<Tag>, k: string)
    requires |selected| == |components| && k in tags && forall c :: c in tags ==> tags[c].value == c
    requires forall i :: 0 <= i < |components| ==> components[i] in tags && selected[i] == tags[components[i]]
    ensures multiset(selected)[tags[k]] == multiset(components)[k]
  {
    if components != [] {
      var last := |components| - 1;
      EntriesPerName(tags, components[..last], selected[..last], k);
      assert components == components[..last] + [components[last]] && selected == selected[..last] + [selected[last]];
    }
  }

  lemma CoveredUnless(fs: Store, tags0: map<string, Tag>, known0: set<Tag>, components: seq<string>, selected: seq<Tag>)
    requires PathTags(tags0, fs.tags, components, selected) && UsedNames(fs.tags) == UsedNames(tags0)
    requires forall k :: k in fs.tags ==> fs.tags[k].value == k
    requires forall k :: k in fs.tags && k !in tags0 ==> fs.tags[k] !in known0
    requires forall t :: t in fs.live ==> t in known0
    ensures Uncovered(components, tags0, fs.live) <==> exists i :: 0 <= i < |selected| && !Covered(fs, selected, i)
    ensures forall i :: 0 <= i < |selected| ==> selected[i].value == components[i] && InTable(selected[i], fs.tags)
  {
    forall i | 0 <= i < |components|
      ensures Covered(fs, selected, i)
              <==> (&& components[i] in tags0
                    && (tags0[components[i]].inUse || fs.live[tags0[components[i]]] >= multiset(components)[components[i]]))
    {
      var c, t := components[i], selected[i];
      EntriesPerName(fs.tags, components, selected, c);
      assert t in multiset(selected);
      if c !in tags0 {
        assert c !in UsedNames(fs.tags) && fs.live[t] == 0;
      }
    }
    if i :| 0 <= i < |components| && !Covered(fs, selected, i) {
      assert Uncovered(components, tags0, fs.live);
    }
    if Uncovered(components, tags0, fs.live) {
      var i :| 0 <= i < |components| && (components[i] !in tags0 ||
        (!tags0[components[i]].inUse && fs.live[tags0[components[i]]] < multiset(components)[components[i]]));
      assert !Covered(fs, selected, i);
    }
  }

  /** unlink from the created path on. */
  method UnlinkCreated(fs: Store, selected: seq<Tag>, n: string, ghost swept: map<string, Tag>) returns (res: Status)
    requires fs.Indexed() && fs.Balanced(multiset(selected)) && Surplus(fs.known, fs.live, multiset(selected))
    requires forall i :: 0 <= i < |selected| ==> selected[i] in fs.known && InTable(selected[i], fs.tags)
    requires fs.LiveInUse() && fs.locks.walked == multiset{} && fs.tags - UnusedNames(selected) == swept
    modifies fs`tags, fs`rel, fs`live, fs`leaked, fs`useAfterFree, fs`locks, fs.known`refCount, fs.known`freed,
      fs.known`files, fs.knownFiles`tags
    ensures res == if n in fs.files then Ok else ENOENT
    ensures fs.locks == old(fs.locks) && fs.live - fs.leaked == old(fs.live) - old(fs.leaked)
    ensures var doomed := n in fs.files && old(exists i :: 0 <= i < |selected| && !Covered(fs, selected, i));
            if doomed then fs.useAfterFree
            else
              && fs.Idle() && fs.useAfterFree == old(fs.useAfterFree)
              && fs.rel == (if n in fs.files then old(fs.rel) - PairsOf(n, Names(selected)) else old(fs.rel))
              && fs.tags == if n in fs.files then old(fs.tags) - BareNames(Names(selected), fs.rel) else swept
  {
    hide Store.Indexed, Speculative, Held, Surplus, PairsOf, BareNames, UnusedNames, Store.LiveInUse, Names, InTable,
      Covered, Overdrawn, Store.Idle;
    if n !in fs.files {
      res := PathUnlink(fs, selected, n, multiset(selected), true);
      Finish(fs, selected, swept);
    } else {
      res := Ok;
      ghost var d: Tag? := null;
      if i :| 0 <= i < |selected| && !Covered(fs, selected, i) {
        d := selected[i];
      }
      UnlinkAndDelete(fs, selected, n, d);
    }
  }

  /** unlink. It uses a tag after freeing it exactly when the file is known and the path overdraws.
      Otherwise the file loses the path's tags, those left without a file disappear, and the state is
      idle again. */
  method Unlink(fs: Store, components: seq<string>, n: string) returns (res: Status)
    requires fs.Idle() && !fs.useAfterFree
    modifies fs, fs.known`refCount, fs.known`freed, fs.known`files, fs.knownFiles`tags
    ensures fs.useAfterFree <==> components != [] && n in fs.files && old(Overdraws(components, fs.tags))
    ensures !fs.useAfterFree ==> fs.Idle()
    ensures res == if components == [] then EPERM else if n in fs.files then Ok else ENOENT
    ensures !fs.useAfterFree ==>
              match res
              case Ok => fs.rel == old(fs.rel) - PairsOf(n, components)
                         && fs.tags == old(fs.tags) - BareNames(components, fs.rel)
              case ENOENT => fs.rel == old(fs.rel) && fs.tags == old(Swept(fs.tags, SetOf(components)))
              case _ => fs.rel == old(fs.rel) && fs.tags == old(fs.tags)
    ensures fs.files == old(fs.files) && fs.onDisk == old(fs.onDisk) && fs.locks == old(fs.locks)
    ensures fs.live - fs.leaked == old(fs.live) - old(fs.leaked)
    ensures old(fs.known) <= fs.known && fresh(fs.known - old(fs.known)) && fs.knownFiles == old(fs.knownFiles)
  {
    hide Store.Idle, Store.Indexed, Store.Balanced, Surplus, Current, PairsOf, BareNames, UnusedNames, Store.LiveInUse,
      Names, PathTags, InTable, AllLive, Swept, UsedNames, Overdraws, Uncovered, Covered;
    if components == [] {
      return EPERM;
    }
    ghost var tags0, known0, swept, used := fs.tags, fs.known, Swept(fs.tags, SetOf(components)), UsedNames(fs.tags);
    OverdrawsMeans(fs, components);
    LiveIsKnown(fs);
    ghost var uncovered := Uncovered(components, tags0, fs.live);
    var selected := Begin(fs, components);
    TableFacts(fs);
    assert Uncovered(components, tags0, fs.live) == uncovered && UsedNames(tags0) == used;
    CoveredUnless(fs, tags0, known0, components, selected);
    NothingInvented(fs, tags0, components, selected);
    res := UnlinkCreated(fs, selected, n, swept);
  }

  lemma NothingInvented(fs: Store, tags0: map<string, Tag>, components: seq<string>, selected: seq<Tag>)
    requires PathTags(tags0, fs.tags, components, selected)
    ensures !Uncovered(components, tags0, fs.live) ==> fs.tags == tags0
  {
    if !Uncovered(components, tags0, fs.live) {
      forall k | k in fs.tags ensures k in tags0 {
        if k in components {
          var i :| 0 <= i < |components| && components[i] == k;
        }
      }
    }
  }

  lemma LiveIsKnown(fs: Store)
    requires fs.Idle()
    ensures forall t :: t in fs.live ==> t in fs.known
  {
  }
}
