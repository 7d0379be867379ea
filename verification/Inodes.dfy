/** The inode table of the fuse_lowlevel version. A directory inode stands for a path of tags; it is
    made for a lookup, a mkdir or an entry of readdir and deleted when the kernel forgets it. */
module Inodes {
  import opened Sums

  const ROOT: nat := 1
  const COUNTER_SIZE := 0x1_0000_0000_0000_0000

  class Inode {
    const number: nat
    const isDirectory: bool
    const name: string
    /** `tag` and `ntag`. */
    const tags: seq<string>
    /** The keys of `selected_tags`, in insertion order. */
    const selected: seq<string>
    /** An unsigned 64-bit counter. */
    var nlookup: nat

    constructor (number: nat, isDirectory: bool, name: string, tags: seq<string>, selected: seq<string>)
      ensures this.number == number && this.isDirectory == isDirectory && this.name == name
      ensures this.tags == tags && this.selected == selected && nlookup == 0
    {
      this.number, this.isDirectory, this.name, this.tags, this.selected := number, isDirectory, name, tags, selected;
      nlookup := 0;
    }
  }

  /** A directory below the root names its tags once each, both ways, and is called by the last one. */
  ghost predicate Sane(ino: Inode) {
    ino.isDirectory ==>
      && NoDup(ino.tags) && ino.selected == ino.tags
      && (ino.number == ROOT <==> ino.tags == [])
      && (ino.tags != [] ==> ino.name == ino.tags[|ino.tags| - 1])
  }

  /** tag_unlink lets a directory through (it asks the hash table of selected tags). */
  predicate UnlinkAllows(parent: Inode) {
    parent.number != ROOT && parent.isDirectory && |parent.selected| <= 1
  }

  /** tag_rename lets a directory through (it asks the array of tags). */
  predicate RenameAllows(parent: Inode) {
    parent.number != ROOT && |parent.tags| <= 1
  }

  /** The two guards agree on directories, and what they let through is a single tag, the one that
      unlink finds by the name and rename by the array. */
  lemma GuardsAgree(parent: Inode)
    requires Sane(parent) && parent.isDirectory
    ensures UnlinkAllows(parent) <==> RenameAllows(parent)
    ensures UnlinkAllows(parent) <==> parent.tags == [parent.name]
  {
    if |parent.tags| == 1 {
      assert parent.tags == [parent.tags[0]];
    }
  }

  class Table {
    var itable: map<nat, Inode>
    var nextIno: nat
    /** All inodes ever made, in order. */
    ghost var made: seq<Inode>

    /** A number always means the inode it was first given to: it is found in the table or not at all. */
    ghost predicate Valid()
      reads this, made
    {
      && nextIno == |made| + 1
      && (forall i :: 0 <= i < |made| ==> made[i].number == i + 1 && Sane(made[i]) && made[i].nlookup < COUNTER_SIZE)
      && (forall k :: k in itable ==> 1 <= k <= |made| && itable[k] == made[k - 1])
      && ROOT in itable && itable[ROOT].isDirectory
    }

    /** inode_init. */
    constructor ()
      ensures Valid() && itable.Keys == {1} && |made| == 1 && fresh(made[0]) && made[0].nlookup == 1
    {
      var root := new Inode(ROOT, true, "", [], []);
      itable, nextIno, made := map[ROOT := root], 2, [root];
      new;
      root.nlookup := 1;
    }

    /** inode_new with the fields its callers fill in. */
    method Register(isDirectory: bool, name: string, tags: seq<string>, selected: seq<string>) returns (ino: Inode)
      requires Valid()
      modifies this
      ensures fresh(ino) && ino.number == old(nextIno) && ino.isDirectory == isDirectory && ino.name == name
      ensures ino.tags == tags && ino.selected == selected && ino.nlookup == 0
      ensures made == old(made) + [ino] && itable == old(itable)[ino.number := ino] && nextIno == old(nextIno) + 1
      ensures Valid() <==> Sane(ino)
    {
      ino := new Inode(nextIno, isDirectory, name, tags, selected);
      nextIno := nextIno + 1;
      itable := itable[ino.number := ino];
      made := made + [ino];
      assert made[|made| - 1] == ino;
      assert forall i :: 0 <= i < |made| - 1 ==> made[i] == old(made)[i];
      assert Sane(ino) ==> Valid();
    }

    /** create_directory_inode. The new directory is a proper one exactly when the name is not a tag of
        the path already. */
    method CreateDirectory(parent: Inode, name: string) returns (ino: Inode)
      requires Valid() && parent in made && parent.isDirectory
      modifies this
      ensures fresh(ino) && ino.isDirectory && ino.tags == parent.tags + [name] && ino.nlookup == 0
      ensures made == old(made) + [ino] && itable == old(itable)[ino.number := ino]
      ensures ino.number == old(nextIno) && nextIno == old(nextIno) + 1
      ensures Valid() <==> name !in parent.tags
    {
      var ntag := |parent.tags| + 1;
      var tag := new string[ntag];
      var selected: seq<string> := [];
      for i := 0 to |parent.tags|
        invariant tag[..i] == parent.tags[..i] && selected == parent.tags[..i]
        modifies tag
      {
        tag[i] := parent.tags[i];
        selected := selected + [tag[i]];
      }
      tag[ntag - 1] := name;
      selected := selected + [name];
      assert Sane(parent);
      assert tag[..] == tag[..ntag - 1] + [name];
      LongerPath(parent.tags, name);
      ino := Register(true, name, tag[..], selected);
    }

    /** tag_lookup of a name that is no regular file: a tag that the path does not have yet becomes a
        directory, anything else is refused. */
    method LookupTag(parentnum: nat, name: string, tagNames: set<string>) returns (ino: Inode?)
      requires Valid()
      modifies this
      ensures Valid() && old(made) <= made
      ensures ino == null <==> parentnum !in old(itable) || !old(itable)[parentnum].isDirectory
                               || name !in tagNames || name in old(itable)[parentnum].selected
      ensures ino == null ==> made == old(made) && itable == old(itable)
      ensures ino != null ==> fresh(ino) && ino.tags == old(itable)[parentnum].tags + [name]
                              && made == old(made) + [ino] && ino.nlookup == 1
    {
      if parentnum !in itable || !itable[parentnum].isDirectory {
        return null;
      }
      var parent := itable[parentnum];
      assert parent in made && Sane(parent);
      if name !in tagNames || name in parent.selected {
        return null;
      }
      var child := CreateDirectory(parent, name);
      child.nlookup := child.nlookup + 1;
      ino := child;
    }

    /** tag_mkdir below the root, for a name without a tag. The kernel's reference is not counted. */
    method Mkdir(name: string) returns (ino: Inode)
      requires Valid()
      modifies this
      ensures Valid() && fresh(ino) && ino.tags == [name] && ino.nlookup == 0
      ensures made == old(made) + [ino] && itable == old(itable)[ino.number := ino]
    {
      var root := itable[ROOT];
      assert root == made[0] && Sane(root);
      ino := CreateDirectory(root, name);
    }

    /** The inodes made while readdir lists the remaining tags of a directory: none repeats a tag. */
    method OfferTags(parent: Inode, remaining: seq<string>) returns (numbers: seq<nat>)
      requires Valid() && parent in made && parent.isDirectory
      requires forall i :: 0 <= i < |remaining| ==> remaining[i] !in parent.selected
      modifies this
      ensures Valid() && old(made) <= made && |numbers| == |remaining| && |made| == |old(made)| + |remaining|
      ensures forall i :: 0 <= i < |remaining| ==>
                numbers[i] == old(nextIno) + i && numbers[i] in itable
                && itable[numbers[i]].tags == parent.tags + [remaining[i]]
      ensures forall k :: k in old(itable) ==> k in itable && itable[k] == old(itable)[k]
    {
      numbers := [];
      for i := 0 to |remaining|
        invariant Valid() && old(made) <= made && |numbers| == i && |made| == |old(made)| + i
        invariant forall j :: 0 <= j < |old(made)| ==> !fresh(made[j])
        invariant nextIno == old(nextIno) + i
        invariant forall j :: 0 <= j < i ==>
                    numbers[j] == old(nextIno) + j && numbers[j] in itable && itable[numbers[j]].tags == parent.tags + [remaining[j]]
        invariant forall k :: k in old(itable) ==> k in itable && itable[k] == old(itable)[k]
      {
        assert Sane(parent);
        var ino := CreateDirectory(parent, remaining[i]);
        numbers := numbers + [ino.number];
      }
    }

    /** tag_forget and inode_delete_if_noref: the counter wraps around, and the root stays. */
    method Forget(number: nat, n: nat)
      requires Valid()
      modifies `itable, made
      ensures Valid() && made == old(made)
      ensures itable == if number in old(itable) && number != ROOT && (old(itable[number].nlookup) - n) % COUNTER_SIZE == 0
                        then old(itable) - {number} else old(itable)
      ensures number in old(itable) ==> old(itable)[number].nlookup == (old(itable[number].nlookup) - n) % COUNTER_SIZE
    {
      if number in itable {
        var ino := itable[number];
        assert ino == made[number - 1];
        ino.nlookup := (ino.nlookup - n) % COUNTER_SIZE;
        if ino.number != ROOT && ino.nlookup == 0 {
          itable := itable - {number};
        }
      }
    }
  }

  lemma LongerPath(tags: seq<string>, name: string)
    requires NoDup(tags)
    ensures NoDup(tags + [name]) <==> name !in tags
  {
    var longer := tags + [name];
    if name in tags {
      var i :| 0 <= i < |tags| && tags[i] == name;
      assert longer[i] == longer[|tags|];
    } else {
      forall i, j | 0 <= i < j < |longer| ensures longer[i] != longer[j] {
        assert longer[i] == tags[i];
      }
    }
  }

  /** A directory made by mkdir outlives the one forget that the kernel owes it. */
  method MkdirIsNotCounted() returns (t: Table, ino: Inode)
    ensures t.Valid() && ino.number in t.itable && t.itable[ino.number] == ino
    ensures ino.nlookup == 0xFFFF_FFFF_FFFF_FFFF
  {
    t := new Table();
    ino := t.Mkdir("a");
    t.Forget(ino.number, 1);
  }
}
