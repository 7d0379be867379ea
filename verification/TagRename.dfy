/** rename: path_link and then path_unlink, between paths of one tag each. */
module TagRename {
  import opened Tags
  import opened TagFs
  import opened TagLink

  /** The old path invents its tag, and linking does not make that tag real. */
  predicate Doomed(tags0: set<string>, onDisk: set<string>, a: string, n: string, b: string) {
    a !in tags0 && (n in onDisk || a != b)
  }

  lemma CountOfOne<T>(t: T, s: seq<T>)
    requires s == [t]
    ensures multiset(s) == multiset{t} && multiset(s)[t] == 1
  {
  }

  lemma OneWellReferenced(fs: Store, first: seq<Tag>)
    requires |first| == 1 && !first[0].freed
    requires if first[0].inUse then first[0].refCount >= fs.live[first[0]] + 2 else fs.live[first[0]] >= 1
    ensures WellReferenced(fs, first)
  {
    CountOfOne(first[0], first);
  }

  /** The table after unlinking and dropping unused entries, in either order. */
  lemma DropsCommute(tags: map<string, Tag>, x: set<string>, y: set<string>, z: set<string>)
    ensures tags - x - y - z == (tags - y - z) - x
  {
  }

  lemma OnePair(n: string, a: string, rel: Relation)
    ensures PairsOf(n, [a]) == {(n, a)}
    ensures BareNames([a], rel) == if Bare(a, rel) then {a} else {}
  {
    assert [a][0] == a;
  }

  // ----- before the unlink ----------------------------------------------------------------------------

  /** Before the link, the reference count of the old path's tag: either it is in use, or the table had
      it for the sake of references that nobody will give back, or the callback made it. */
  ghost predicate OldTag(fs: Store, tags0: map<string, Tag>, a: string, b: string, first: seq<Tag>, second: seq<Tag>)
    reads fs`live, first, second
  {
    && |first| == 1 && |second| == 1 && !first[0].freed
    && (if a == b then first == second else first[0] != second[0])
    && var t, own := first[0], multiset(first) + multiset(second);
       if t.inUse then a in tags0 && t.refCount >= fs.live[t] + 2
       else t.refCount == fs.live[t] + own[t] && if a in tags0 then fs.live[t] >= 1 else fs.live[t] == 0
  }

  /** The old path's tag is about to be freed under the callback: nothing keeps it but the paths. */
  ghost predicate OnThinIce(fs: Store, a: string, b: string, first: seq<Tag>, second: seq<Tag>)
    reads fs`live, first, second
  {
    && |first| == 1 && |second| == 1 && !first[0].inUse && !first[0].freed && fs.live[first[0]] == 0
    && first[0].refCount == (multiset(first) + multiset(second))[first[0]]
    && if a == b then first == second else first[0] != second[0]
  }

  /** The entries of two paths of one tag each. */
  lemma SingleEntries(fs: Store, tags0: map<string, Tag>, known0: set<Tag>, a: string, b: string,
                      first: seq<Tag>, second: seq<Tag>)
    requires Between(fs, tags0, known0, [a], [b], first, second)
    ensures fs.Indexed() && fs.Balanced(multiset(first) + multiset(second)) && fs.LiveInUse()
    ensures fs.locks.walked == multiset{}
    ensures |first| == 1 && |second| == 1 && first[0] in fs.known && second[0] in fs.known
    ensures first[0].value == a && second[0].value == b && Names(first) == [a] && Names(second) == [b]
    ensures InTable(first[0], fs.tags) && InTable(second[0], fs.tags)
    ensures a in fs.tags && first[0] == fs.tags[a] && b in fs.tags && second[0] == fs.tags[b]
  {
    assert Names(first)[0] == a && Names(second)[0] == b;
  }

  /** A tag that a callback found unused in the table is there for leaked references. */
  ghost predicate UnusedAreHeld(tags0: map<string, Tag>, live: multiset<Tag>)
    reads tags0.Values`inUse
  {
    forall k :: k in tags0 && !tags0[k].inUse ==> live[tags0[k]] >= 1
  }

  lemma UnusedHeldWhenIdle(fs: Store)
    requires fs.Idle()
    ensures UnusedAreHeld(fs.tags, fs.live) && forall t :: t in fs.live ==> t in fs.known
  {
  }

  /** The state before the link decides whether the unlink will be sound. */
  lemma Prospects(fs: Store, tags0: map<string, Tag>, known0: set<Tag>, a: string, n: string, b: string,
                  first: seq<Tag>, second: seq<Tag>)
    requires Between(fs, tags0, known0, [a], [b], first, second) && UsedNames(fs.tags) <= tags0.Keys
    requires Surplus(fs.known, fs.live, multiset(first) + multiset(second))
    requires UnusedAreHeld(tags0, fs.live) && forall t :: t in fs.live ==> t in known0
    ensures OldTag(fs, tags0, a, b, first, second)
    ensures a !in tags0 && n in fs.onDisk ==> AttrOf(fs.onDisk, fs.rel, [a], n) == NoEntry
  {
    hide Store.Indexed, Store.Balanced, Store.LiveInUse, Between, Surplus, UnusedAreHeld, SameTags;
    SingleEntries(fs, tags0, known0, a, b, first, second);
    BetweenNow(fs, tags0, known0, [a], [b], first, second);
    LaidOut(tags0, known0, fs.tags, fs.known, [a], [b], first, second);
    CountOfOne(first[0], first);
    CountOfOne(second[0], second);
    OldTagCounted(fs, tags0, known0, multiset(first) + multiset(second), a);
    if a !in tags0 && n in fs.onDisk {
      UnusedIsBare(fs, first[0], n);
      assert [a][0] == a && (n, a) !in fs.rel;
    }
  }

  lemma OldTagCounted(fs: Store, tags0: map<string, Tag>, known0: set<Tag>, own: multiset<Tag>, a: string)
    requires fs.Balanced(own) && Surplus(fs.known, fs.live, own) && a in fs.tags && fs.tags[a] in fs.known
    requires own[fs.tags[a]] > 0 && SameTags(tags0, known0, fs.tags) && UsedNames(fs.tags) <= tags0.Keys
    requires UnusedAreHeld(tags0, fs.live) && forall t :: t in fs.live ==> t in known0
    ensures var t := fs.tags[a];
            && !t.freed
            && if t.inUse then a in tags0 && t.refCount >= fs.live[t] + 2
               else t.refCount == fs.live[t] + own[t] && if a in tags0 then fs.live[t] >= 1 else fs.live[t] == 0
  {
    var t := fs.tags[a];
    assert Counted(t, fs.tags, fs.live, own);
    if t.inUse {
      assert a in UsedNames(fs.tags);
    }
  }

  lemma UnusedIsBare(fs: Store, t: Tag, n: string)
    requires fs.Indexed() && t in fs.known && InTable(t, fs.tags) && !t.inUse
    ensures (n, t.value) !in fs.rel
  {
    assert t.files == map[];
    NothingTagged(fs.tags, fs.files, fs.known, fs.rel, t, n);
  }

  /** path_link of rename, and what it leaves for path_unlink. */
  method LinkFirst(fs: Store, a: string, n: string, b: string, first: seq<Tag>, second: seq<Tag>,
                   ghost tags0: map<string, Tag>, ghost known0: set<Tag>) returns (res: Attr)
    requires Between(fs, tags0, known0, [a], [b], first, second) && UsedNames(fs.tags) <= tags0.Keys
    requires Surplus(fs.known, fs.live, multiset(first) + multiset(second))
    requires UnusedAreHeld(tags0, fs.live) && forall t :: t in fs.live ==> t in known0
    modifies fs`files, fs`knownFiles, fs`useAfterFree, fs`locks, fs`rel, fs.known`files, fs.known`inUse, fs.knownFiles`tags
    ensures Between(fs, tags0, known0, [a], [b], first, second) && n in fs.files
    ensures fs.useAfterFree == old(fs.useAfterFree) && fs.locks == old(fs.locks)
    ensures res == AttrOf(fs.onDisk, old(fs.rel), [a], n)
    ensures fs.rel == if res == NoEntry then old(fs.rel) else old(fs.rel) + {(n, b)}
    ensures UsedNames(fs.tags) == old(UsedNames(fs.tags)) + (if res == NoEntry then {} else {b})
    ensures if Doomed(tags0.Keys, fs.onDisk, a, n, b) then OnThinIce(fs, a, b, first, second)
            else WellReferenced(fs, first)
    ensures old(fs.knownFiles) <= fs.knownFiles && fresh(fs.knownFiles - old(fs.knownFiles))
  {
    hide *;
    Prospects(fs, tags0, known0, a, n, b, first, second);
    NotOnDisk(fs.onDisk, fs.rel, [a], n);
    SingleEntries(fs, tags0, known0, a, b, first, second);
    OnePair(n, b, fs.rel);
    ghost var used, refs := first[0].inUse, first[0].refCount;
    OldTagMeans(fs, tags0, a, b, first, second);
    res := LinkBetween(fs, [a], n, [b], first, second, tags0, known0);
    AfterLink(fs, tags0, a, n, b, first, second, used, res);
    assert SetOf([b]) == {b} by { SetOfOne(b); }
  }

  lemma SetOfOne(b: string)
    ensures SetOf([b]) == {b}
  {
  }

  lemma OldTagMeans(fs: Store, tags0: map<string, Tag>, a: string, b: string, first: seq<Tag>, second: seq<Tag>)
    requires OldTag(fs, tags0, a, b, first, second)
    ensures |first| == 1 && |second| == 1 && !first[0].freed
    ensures if a == b then first == second else first[0] != second[0]
    ensures var t, own := first[0], multiset(first) + multiset(second);
            if t.inUse then a in tags0 && t.refCount >= fs.live[t] + 2
            else t.refCount == fs.live[t] + own[t] && if a in tags0 then fs.live[t] >= 1 else fs.live[t] == 0
  {
  }

  lemma AfterLink(fs: Store, tags0: map<string, Tag>, a: string, n: string, b: string,
                  first: seq<Tag>, second: seq<Tag>, used: bool, res: Attr)
    requires |first| == 1 && |second| == 1 && !first[0].freed
    requires if a == b then first == second else first[0] != second[0]
    requires var t, own := first[0], multiset(first) + multiset(second);
             if used then a in tags0 && t.refCount >= fs.live[t] + 2
             else t.refCount == fs.live[t] + own[t] && if a in tags0 then fs.live[t] >= 1 else fs.live[t] == 0
    requires a !in tags0 && n in fs.onDisk ==> res == NoEntry
    requires n !in fs.onDisk ==> res != NoEntry
    requires first[0].inUse <==> used || (res != NoEntry && first[0] in multiset(second))
    ensures if Doomed(tags0.Keys, fs.onDisk, a, n, b) then OnThinIce(fs, a, b, first, second)
            else WellReferenced(fs, first)
  {
    hide WellReferenced;
    CountOfOne(first[0], first);
    CountOfOne(second[0], second);
    if !Doomed(tags0.Keys, fs.onDisk, a, n, b) {
      OneWellReferenced(fs, first);
    }
  }

  lemma NotOnDisk(onDisk: set<string>, rel: Relation, components: seq<string>, n: string)
    ensures n !in onDisk ==> AttrOf(onDisk, rel, components, n) != NoEntry
  {
  }

  // ----- the unlink -----------------------------------------------------------------------------------

  /** The three states in which the two path deletions of rename can start. */
  ghost predicate Ending(fs: Store, a: string, b: string, first: seq<Tag>, second: seq<Tag>, doomed: bool)
    reads fs, fs.known, fs.knownFiles, first, second
  {
    && fs.Indexed() && |first| == 1 && |second| == 1 && first[0] in fs.known && second[0] in fs.known
    && first[0].value == a && second[0].value == b && fs.locks.walked == multiset{}
    && (if !doomed then fs.Balanced(multiset(first) + multiset(second)) && fs.LiveInUse()
        else if a == b then
          && first == second && fs.Balanced(multiset(second)) && !first[0].inUse && fs.live[first[0]] == 0
        else
          && Speculative(fs.tags, fs.known, fs.live, multiset(first) + multiset(second))
          && first[0].freed && !first[0].inUse)
  }

  /** Deleting one path entry too many frees the tag. */
  lemma FreedByFirst(fs: Store, t: Tag)
    requires Held(fs.tags, fs.known, fs.live, multiset{}) && t in fs.known && !t.inUse && fs.live[t] == 0
    ensures t.freed
  {
    assert Counted(t, fs.tags, fs.live, multiset{});
  }

  lemma SpeculativeAgain(tags: map<string, Tag>, known: set<Tag>, live: multiset<Tag>, t: Tag, second: seq<Tag>)
    requires Speculative(tags, known, live, multiset{}) && t.value !in tags && second == [t]
    ensures Speculative(tags, known, live, multiset(second))
  {
    CountOfOne(t, second);
  }

  lemma UnusedOne(first: seq<Tag>)
    requires |first| == 1 && !first[0].inUse
    ensures UnusedNames(first) == {first[0].value}
  {
    assert !first[0].inUse && first[0].value in UnusedNames(first);
  }

  lemma FreedIsOverdrawn(t: Tag, selected: seq<Tag>)
    requires selected == [t] && !t.inUse && t.freed
    ensures Overdrawn(t, selected)
  {
  }

  /** path_delete of the old path. */
  method DeleteFirst(fs: Store, a: string, b: string, first: seq<Tag>, second: seq<Tag>, ghost doomed: bool)
    requires Ending(fs, a, b, first, second, doomed)
    modifies fs`tags, fs`useAfterFree, fs`locks, fs.known`refCount, fs.known`freed
    ensures fs.Indexed() && Speculative(fs.tags, fs.known, fs.live, multiset(second)) && fs.locks == old(fs.locks)
    ensures fs.tags == old(fs.tags - UnusedNames(first))
    ensures if !doomed then Held(fs.tags, fs.known, fs.live, multiset(second)) && fs.useAfterFree == old(fs.useAfterFree)
            else if a == b then Overdrawn(first[0], second) else fs.useAfterFree
  {
    hide *;
    EndingMeans(fs, a, b, first, second, doomed);
    TwoShares(first, second);
    NoneBefore(first);
    ghost var tags0, gone := fs.tags, UnusedNames(first);
    ghost var own := if doomed && a == b then multiset(second) else multiset(first) + multiset(second);
    fs.PathDelete(first, own, if doomed && a != b then first[0] else null);
    assert UnusedNames(first) == gone;
    if doomed && a == b {
      FreedWithFirst(fs, tags0, first, second);
    }
  }

  /** Deleting the one path frees the tag, so the other path still holds it. */
  lemma FreedWithFirst(fs: Store, tags0: map<string, Tag>, first: seq<Tag>, second: seq<Tag>)
    requires first == second && |first| == 1 && first[0] in fs.known && !first[0].inUse && fs.live[first[0]] == 0
    requires Held(fs.tags, fs.known, fs.live, multiset{}) && Speculative(fs.tags, fs.known, fs.live, multiset{})
    requires fs.tags == tags0 - UnusedNames(first)
    ensures Speculative(fs.tags, fs.known, fs.live, multiset(second)) && Overdrawn(first[0], second)
  {
    hide Held, Speculative, UnusedNames, Overdrawn;
    FreedByFirst(fs, first[0]);
    UnusedOne(first);
    SpeculativeAgain(fs.tags, fs.known, fs.live, first[0], second);
    FreedIsOverdrawn(first[0], second);
  }

  lemma EndingMeans(fs: Store, a: string, b: string, first: seq<Tag>, second: seq<Tag>, doomed: bool)
    requires Ending(fs, a, b, first, second, doomed)
    ensures |first| == 1 && |second| == 1 && second[0] in fs.known && fs.locks.walked == multiset{}
    ensures forall i :: 0 <= i < |second| ==> second[i] in fs.known
    ensures !doomed ==> HandlesUsed(fs.live, fs.leaked, fs.known)
    ensures fs.Indexed() && |first| == 1 && first[0] in fs.known
    ensures forall i :: 0 <= i < |first| ==> first[i] in fs.known
    ensures var own := multiset(first) + multiset(second);
            if doomed && a == b then
              && first == second && !first[0].inUse && fs.live[first[0]] == 0
              && Held(fs.tags, fs.known, fs.live, multiset(second))
              && Speculative(fs.tags, fs.known, fs.live, multiset(second))
            else
              && Speculative(fs.tags, fs.known, fs.live, own)
              && if doomed then Overdrawn(first[0], first) else Held(fs.tags, fs.known, fs.live, own)
  {
    hide Held, Speculative, Store.Indexed;
    if doomed && a != b {
      FreedIsOverdrawn(first[0], first);
    }
  }

  /** path_delete of both paths of rename. */
  method DeleteAfterUnlink(fs: Store, a: string, b: string, first: seq<Tag>, second: seq<Tag>,
                           ghost rest: map<string, Tag>, ghost doomed: bool)
    requires Ending(fs, a, b, first, second, doomed)
    requires fs.tags - UnusedNames(first) - UnusedNames(second) == rest
    modifies fs`tags, fs`useAfterFree, fs`locks, fs.known`refCount, fs.known`freed
    ensures if doomed then fs.useAfterFree
            else fs.Idle() && fs.useAfterFree == old(fs.useAfterFree) && fs.tags == rest
    ensures fs.locks == old(fs.locks)
  {
    hide *;
    EndingMeans(fs, a, b, first, second, doomed);
    NoneBefore(second);
    ghost var gone := UnusedNames(second);
    DeleteFirst(fs, a, b, first, second, doomed);
    assert UnusedNames(second) == gone;
    fs.PathDelete(second, multiset(second), if doomed && a == b then first[0] else null);
    if !doomed {
      IdleAfterRename(fs);
    }
  }

  lemma IdleAfterRename(fs: Store)
    requires fs.Indexed() && Held(fs.tags, fs.known, fs.live, multiset{}) && fs.locks.walked == multiset{}
    requires Speculative(fs.tags, fs.known, fs.live, multiset{}) && HandlesUsed(fs.live, fs.leaked, fs.known)
    ensures fs.Idle()
  {
  }

  /** The counts before the unlink were those of `own`. */
  ghost predicate WereCounted(known: set<Tag>, was: map<Tag, (int, bool)>, tags: map<string, Tag>, live: multiset<Tag>,
                              own: multiset<Tag>)
    reads known`inUse
  {
    known <= was.Keys && forall u :: u in known ==> WasCounted(u, was[u].0, was[u].1, tags, live, own)
  }

  /** `Counted` with the count and the freed mark that the tag had earlier. */
  ghost predicate WasCounted(t: Tag, refs: int, freed: bool, tags: map<string, Tag>, live: multiset<Tag>, own: multiset<Tag>)
    reads t`inUse
  {
    if freed then live[t] == 0 && own[t] == 0 && !t.inUse && !InTable(t, tags)
    else if t.inUse then refs >= live[t] + 1
    else refs == live[t] + own[t] && refs >= 1
  }

  lemma NowCounted(fs: Store, own: multiset<Tag>)
    requires fs.Balanced(own)
    ensures WereCounted(fs.known, CountsNow(fs.known), fs.tags, fs.live, own)
    ensures forall u :: u in fs.live ==> u in fs.known
  {
    forall u | u in fs.known ensures WasCounted(u, u.refCount, u.freed, fs.tags, fs.live, own) {
      assert Counted(u, fs.tags, fs.live, own);
    }
  }

  /** Both paths hold the tag `t` alone: after one unlink the counts are those of one path. */
  lemma SharedHeld(fs: Store, t: Tag, tags0: map<string, Tag>, gone: set<string>, share: multiset<Tag>,
                   was: map<Tag, (int, bool)>)
    requires share == multiset{t} && t in fs.known && !t.inUse && fs.live[t] == 0
    requires fs.tags == tags0 - gone && t in was && was[t] == (2, false)
    requires AllSpending(fs.known, was, share) && WereCounted(fs.known, was, tags0, fs.live, share + share)
    requires Speculative(fs.tags, fs.known, fs.live, share + share) && forall u :: u in fs.live ==> u in fs.known
    ensures fs.Balanced(share)
  {
    hide Spending, WasCounted, Counted, Speculative;
    forall u | u in fs.known ensures Counted(u, fs.tags, fs.live, share) {
      SharedEntry(u, t, tags0, gone, fs.live, share + share, share, was[u].0, was[u].1);
    }
    SpeculativeShare(fs.tags, fs.known, fs.live, share + share, share);
  }

  lemma SharedEntry(u: Tag, t: Tag, tags0: map<string, Tag>, gone: set<string>, live: multiset<Tag>, own: multiset<Tag>,
                    share: multiset<Tag>, before: int, wasFreed: bool)
    requires share == multiset{t} && own == share + share && !t.inUse && live[t] == 0
    requires Spending(u, before, share[u], wasFreed)
    requires u == t ==> before == 2 && !wasFreed
    requires WasCounted(u, before, wasFreed, tags0, live, own)
    ensures Counted(u, tags0 - gone, live, share)
  {
  }

  lemma SpeculativeShare(tags: map<string, Tag>, known: set<Tag>, live: multiset<Tag>, own: multiset<Tag>,
                         share: multiset<Tag>)
    requires Speculative(tags, known, live, own) && own == share + share
    ensures Speculative(tags, known, live, share)
  {
  }

  /** A tag kept by one path entry alone goes with the unlink. */
  lemma LastReferenceGone(known: set<Tag>, was: map<Tag, (int, bool)>, t: Tag, spent: multiset<Tag>)
    requires AllSpending(known, was, spent) && t in known && t in was && was[t] == (1, false) && spent[t] == 1 && !t.inUse
    ensures t.freed
  {
  }

  /** path_unlink of the old path. */
  method UnlinkOld(fs: Store, a: string, n: string, b: string, first: seq<Tag>, second: seq<Tag>,
                   ghost tags0: map<string, Tag>, ghost known0: set<Tag>, ghost doomed: bool)
    requires Between(fs, tags0, known0, [a], [b], first, second) && n in fs.files
    requires if doomed then OnThinIce(fs, a, b, first, second) else WellReferenced(fs, first)
    modifies fs`tags, fs`rel, fs`live, fs`leaked, fs`useAfterFree, fs`locks, fs.known`refCount, fs.known`freed,
      fs.known`files, fs.knownFiles`tags
    ensures Ending(fs, a, b, first, second, doomed) && fs.locks == old(fs.locks)
    ensures fs.live - fs.leaked == old(fs.live) - old(fs.leaked)
    ensures fs.rel == old(fs.rel) - PairsOf(n, [a]) && fs.tags == old(fs.tags) - BareNames([a], fs.rel)
    ensures !doomed ==> fs.useAfterFree == old(fs.useAfterFree)
  {
    hide *;
    SingleEntries(fs, tags0, known0, a, b, first, second);
    ghost var own, tags1, was := multiset(first) + multiset(second), fs.tags, CountsNow(fs.known);
    TwoShares(first, second);
    NowCounted(fs, own);
    if doomed {
      ThinIceMeans(fs, a, b, first, second);
    }
    UnlinkHeld(fs, first, n, own, !doomed);
    if doomed {
      DoomedEnding(fs, a, b, first, second, tags1, BareNames([a], fs.rel), was);
    } else {
      BalancedAgain(fs, own);
      SoundEnding(fs, a, b, first, second);
    }
  }

  lemma ThinIceMeans(fs: Store, a: string, b: string, first: seq<Tag>, second: seq<Tag>)
    requires OnThinIce(fs, a, b, first, second) && first[0] in fs.known
    ensures |first| == 1 && |second| == 1 && !first[0].inUse && fs.live[first[0]] == 0
    ensures if a == b then first == second else first[0] != second[0]
    ensures first[0] in CountsNow(fs.known) && CountsNow(fs.known)[first[0]] == (if a == b then 2 else 1, false)
  {
    CountOfOne(first[0], first);
    CountOfOne(second[0], second);
  }

  lemma SoundEnding(fs: Store, a: string, b: string, first: seq<Tag>, second: seq<Tag>)
    requires fs.Indexed() && |first| == 1 && |second| == 1 && first[0] in fs.known && second[0] in fs.known
    requires first[0].value == a && second[0].value == b && fs.locks.walked == multiset{}
    requires fs.Balanced(multiset(first) + multiset(second)) && fs.LiveInUse()
    ensures Ending(fs, a, b, first, second, false)
  {
  }

  /** What is left of the counts when the old path invented its tag. */
  lemma DoomedEnding(fs: Store, a: string, b: string, first: seq<Tag>, second: seq<Tag>, tags1: map<string, Tag>,
                     gone: set<string>, was: map<Tag, (int, bool)>)
    requires fs.Indexed() && |first| == 1 && |second| == 1 && first[0] in fs.known && second[0] in fs.known
    requires first[0].value == a && second[0].value == b && fs.locks.walked == multiset{} && fs.tags == tags1 - gone
    requires if a == b then first == second else first[0] != second[0]
    requires !first[0].inUse && fs.live[first[0]] == 0
    requires Speculative(fs.tags, fs.known, fs.live, multiset(first) + multiset(second))
    requires first[0] in was && was[first[0]] == (if a == b then 2 else 1, false)
    requires AllSpending(fs.known, was, multiset(first)) && forall u :: u in fs.live ==> u in fs.known
    requires WereCounted(fs.known, was, tags1, fs.live, multiset(first) + multiset(second))
    ensures Ending(fs, a, b, first, second, true)
  {
    hide Store.Indexed, Speculative, AllSpending, WereCounted, Store.Balanced;
    CountOfOne(first[0], first);
    if a == b {
      SharedHeld(fs, first[0], tags1, gone, multiset(second), was);
    } else {
      LastReferenceGone(fs.known, was, first[0], multiset(first));
    }
  }

  /** path_unlink of the old path and the two deletions. */
  method UnlinkAndFinish(fs: Store, a: string, n: string, b: string, first: seq<Tag>, second: seq<Tag>,
                         ghost tags0: map<string, Tag>, ghost known0: set<Tag>, ghost doomed: bool)
    requires Between(fs, tags0, known0, [a], [b], first, second) && n in fs.files
    requires if doomed then OnThinIce(fs, a, b, first, second) else WellReferenced(fs, first)
    modifies fs`tags, fs`rel, fs`live, fs`leaked, fs`useAfterFree, fs`locks, fs.known`refCount, fs.known`freed,
      fs.known`files, fs.knownFiles`tags
    ensures fs.locks == old(fs.locks) && fs.live - fs.leaked == old(fs.live) - old(fs.leaked)
    ensures fs.rel == old(fs.rel) - {(n, a)}
    ensures if doomed then fs.useAfterFree
            else
              && fs.Idle() && fs.useAfterFree == old(fs.useAfterFree)
              && UsedNames(fs.tags) == old(UsedNames(fs.tags)) - (if Bare(a, fs.rel) then {a} else {})
              && SameTags(tags0, known0, fs.tags)
  {
    hide *;
    ghost var tags3, rest, used := fs.tags, Swept(fs.tags, SetOf([a]) + SetOf([b])), UsedNames(fs.tags);
    BetweenNow(fs, tags0, known0, [a], [b], first, second);
    LaidOut(tags0, known0, fs.tags, fs.known, [a], [b], first, second);
    OnlySwept(fs.tags, first, second);
    SweptFacts(fs.tags, tags0, known0, [a], [b], used);
    ghost var x, y := UnusedNames(first), UnusedNames(second);
    UnlinkOld(fs, a, n, b, first, second, tags0, known0, doomed);
    assert UnusedNames(first) == x && UnusedNames(second) == y;
    ghost var gone := BareNames([a], fs.rel);
    OnePair(n, a, fs.rel);
    DropsCommute(tags3, gone, x, y);
    DeleteAfterUnlink(fs, a, b, first, second, rest - gone, doomed);
    if !doomed {
      UsedRemain(fs.tags, rest, gone, used);
      SameTagsFewer(tags0, known0, rest, gone);
    }
  }

  lemma BalancedAgain(fs: Store, own: multiset<Tag>)
    requires Held(fs.tags, fs.known, fs.live, own) && Speculative(fs.tags, fs.known, fs.live, own)
    ensures fs.Balanced(own)
  {
  }

  lemma UsedRemain(tags: map<string, Tag>, rest: map<string, Tag>, gone: set<string>, used: set<string>)
    requires tags == rest - gone && forall k :: k in used <==> k in rest && rest[k].inUse
    ensures UsedNames(tags) == used - gone
  {
  }

  lemma SameTagsFewer(tags0: map<string, Tag>, known0: set<Tag>, rest: map<string, Tag>, gone: set<string>)
    requires SameTags(tags0, known0, rest)
    ensures SameTags(tags0, known0, rest - gone)
  {
  }

  // ----- rename ---------------------------------------------------------------------------------------

  /** The body of rename between paths of one tag each. */
  method RenameBody(fs: Store, from: seq<string>, n: string, to: seq<string>, first: seq<Tag>, second: seq<Tag>,
                    ghost tags0: map<string, Tag>, ghost known0: set<Tag>)
    requires |from| == 1 && |to| == 1
    requires Between(fs, tags0, known0, from, to, first, second) && UsedNames(fs.tags) <= tags0.Keys
    requires Surplus(fs.known, fs.live, multiset(first) + multiset(second)) && !fs.useAfterFree
    requires UnusedAreHeld(tags0, fs.live) && forall t :: t in fs.live ==> t in known0
    modifies fs`files, fs`knownFiles, fs`tags, fs`rel, fs`live, fs`leaked, fs`useAfterFree, fs`locks,
      fs.known`refCount, fs.known`freed, fs.known`files, fs.known`inUse, fs.knownFiles`tags
    ensures fs.useAfterFree <==> Doomed(tags0.Keys, fs.onDisk, from[0], n, to[0])
    ensures fs.locks == old(fs.locks) && fs.live - fs.leaked == old(fs.live) - old(fs.leaked)
    ensures !fs.useAfterFree ==>
              var a, b := from[0], to[0];
              var moved := if AttrOf(fs.onDisk, old(fs.rel), from, n) == NoEntry then {} else {b};
              && fs.Idle() && fs.rel == old(fs.rel) + (if moved == {} then {} else {(n, b)}) - {(n, a)}
              && UsedNames(fs.tags) == old(UsedNames(fs.tags)) + moved - (if Bare(a, fs.rel) then {a} else {})
              && SameTags(tags0, known0, fs.tags)
    ensures old(fs.knownFiles) <= fs.knownFiles && fresh(fs.knownFiles - old(fs.knownFiles))
  {
    hide *;
    var a, b := from[0], to[0];
    Single(from, to);
    var attr := LinkFirst(fs, a, n, b, first, second, tags0, known0);
    UnlinkAndFinish(fs, a, n, b, first, second, tags0, known0, Doomed(tags0.Keys, fs.onDisk, a, n, b));
  }

  /** rename from the created paths on. */
  method RenameBetween(fs: Store, from: seq<string>, n: string, to: seq<string>, first: seq<Tag>, second: seq<Tag>,
                       ghost tags0: map<string, Tag>, ghost known0: set<Tag>) returns (res: Status)
    requires Between(fs, tags0, known0, from, to, first, second) && UsedNames(fs.tags) <= tags0.Keys
    requires Surplus(fs.known, fs.live, multiset(first) + multiset(second)) && !fs.useAfterFree
    requires UnusedAreHeld(tags0, fs.live) && forall t :: t in fs.live ==> t in known0
    modifies fs`files, fs`knownFiles, fs`tags, fs`rel, fs`live, fs`leaked, fs`useAfterFree, fs`locks,
      fs.known`refCount, fs.known`freed, fs.known`files, fs.known`inUse, fs.knownFiles`tags
    ensures res == if |from| == 1 && |to| == 1 then Ok else EPERM
    ensures fs.useAfterFree <==> res == Ok && Doomed(tags0.Keys, fs.onDisk, from[0], n, to[0])
    ensures fs.locks == old(fs.locks) && fs.live - fs.leaked == old(fs.live) - old(fs.leaked)
    ensures !fs.useAfterFree ==> fs.Idle() && SameTags(tags0, known0, fs.tags)
    ensures res == EPERM ==> fs.rel == old(fs.rel) && UsedNames(fs.tags) == old(UsedNames(fs.tags))
    ensures res == Ok && !fs.useAfterFree ==>
              var a, b := from[0], to[0];
              var moved := if AttrOf(fs.onDisk, old(fs.rel), from, n) == NoEntry then {} else {b};
              && fs.rel == old(fs.rel) + (if moved == {} then {} else {(n, b)}) - {(n, a)}
              && UsedNames(fs.tags) == old(UsedNames(fs.tags)) + moved - (if Bare(a, fs.rel) then {a} else {})
    ensures old(fs.knownFiles) <= fs.knownFiles && fresh(fs.knownFiles - old(fs.knownFiles))
  {
    hide *;
    if |from| != 1 || |to| != 1 {
      FinishBoth(fs, from, to, first, second, tags0, known0);
      res := EPERM;
    } else {
      RenameBody(fs, from, n, to, first, second, tags0, known0);
      res := Ok;
    }
  }

  /** rename. Both paths must have exactly one tag. The file moves from the old tag to the new one;
      a failed link does not stop the unlink. The callback uses a tag after freeing it exactly when
      the old path invents its tag and the link does not make that tag real. */
  method Rename(fs: Store, from: seq<string>, n: string, to: seq<string>) returns (res: Status)
    requires fs.Idle() && !fs.useAfterFree
    modifies fs, fs.known, fs.knownFiles`tags
    ensures res == if |from| == 1 && |to| == 1 then Ok else EPERM
    ensures fs.useAfterFree <==> res == Ok && Doomed(old(fs.tags).Keys, fs.onDisk, from[0], n, to[0])
    ensures !fs.useAfterFree ==> fs.Idle() && SameTags(old(fs.tags), old(fs.known), fs.tags)
    ensures res == EPERM ==> fs.rel == old(fs.rel) && UsedNames(fs.tags) == old(UsedNames(fs.tags))
    ensures res == Ok && !fs.useAfterFree ==>
              var a, b := from[0], to[0];
              var moved := if AttrOf(fs.onDisk, old(fs.rel), from, n) == NoEntry then {} else {b};
              && fs.rel == old(fs.rel) + (if moved == {} then {} else {(n, b)}) - {(n, a)}
              && UsedNames(fs.tags) == old(UsedNames(fs.tags)) + moved - (if Bare(a, fs.rel) then {a} else {})
    ensures fs.live - fs.leaked == old(fs.live) - old(fs.leaked)
    ensures fs.onDisk == old(fs.onDisk) && fs.locks == old(fs.locks)
    ensures old(fs.known) <= fs.known && fresh(fs.known - old(fs.known))
    ensures old(fs.knownFiles) <= fs.knownFiles && fresh(fs.knownFiles - old(fs.knownFiles))
  {
    hide *;
    ghost var tags0, known0, used := fs.tags, fs.known, UsedNames(fs.tags);
    UnusedHeldWhenIdle(fs);
    UsedMeans(fs.tags);
    var first, second := BeginBoth(fs, from, to);
    res := RenameBetween(fs, from, n, to, first, second, tags0, known0);
  }

  lemma Single(from: seq<string>, to: seq<string>)
    requires |from| == 1 && |to| == 1
    ensures from == [from[0]] && to == [to[0]]
  {
  }
}
