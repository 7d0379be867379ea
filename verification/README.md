# A verified model of the tag file system

The tag file system shows a directory of files through their tags: every directory component of a
path is a tag, and a directory shows the files that have all the tags of its path. The repository
has three versions of it, `fuse` on in-memory tables, `fuse_lowlevel` on inodes and `fuse_sqlite3`
on SQL tables, over a small C library: a vendored hash table of macros, a table of string keys built
on it, a singly linked list and string splitters. This project models that code and proves what it
is meant to do, or the exact condition under which it does it.

`dafny verify dfyconfig.toml` checks everything.

## Overview

**The hash table.** `BucketModel` describes the state of a table as a value (insertion order, chains,
multipliers, policy counters) and the effect of each macro on it. `UtHash` is the pointer code: every
element sits in the doubly linked insertion list and in one doubly linked bucket chain, and each
method is proved to have the effect of the model and to keep both structures consistent. `Rethreading`
follows the expansion loop half way through. `LoadBound` derives the load bound from the growth
policy over whole runs, and `GrowthPolicy` says from the history alone when a table grows and when it
stops growing. `HashSort` is the list merge sort in place, against the merge sort on sequences of `MergeSort`;
`HashFsck` is the integrity check; `Bloom` the optional filter. `HashTable` is the wrapper with string keys, a multimap in insertion order, and `Duplicates` says which
of several entries of a key a lookup finds.

**The tag index.** `Tags` holds the tag table, the file table, the tags and files they point to,
and the reference counts. The ghost field `rel` is the relation that both sides of the index must
say; `freed` marks a tag where the program calls `free`, and `useAfterFree` records whether one was
touched afterwards; `locks` records which tables are being walked, under their read locks, and whether
one was written meanwhile, so that the callback would wait for itself. `live` holds the path entries
that outlive their callback, `leaked` those of them that nobody will ever give back. `TagFs`, `TagLink`,
`TagRename`, `TagReaddir`, `TagNames` and `TagHandles` are the callbacks, each from path creation to path
deletion, and `TagFaults` holds runs in which they go wrong. `Store.Idle` is the state between callbacks:
the two sides of the index agree, a tag is freed only when no path refers to it, and a tag not in use is
in the table only for the sake of leaked entries. `TagMachine` is a machine whose only state is which file
has which tag, which tags are in use, and what each open descriptor stands for. `TagServe` runs any sequence
of callbacks on the tables and proves that it refines that machine, and `TagRuns` says what the replies mean
over whole runs. `TagLoad` starts from the text of the database and ends with saving it, which `TagDump` covers.

What the kernel does first is part of the dispatcher in `TagServe`: unlink, open and rename follow a
lookup of their file, and unlink and open only one that found a regular file. Two calls are held back
because they break the invariants: a rename that is doomed, whose exact condition is that of
`TagRename.Rename`, and opendir of a directory whose last tag is in use while another tag of its path is
not. Such a handle keeps a tag that is not in use. `TagHandles.Release` says exactly when closing it
breaks the index, and `TagFaults.StaleRelease` is a run in which it does.

**Around it.** `TagDb`, `TagDbLines`, `TagDbRoundTrip` and `TagDbExact` cover the text form of the tag database,
`SqlTags` the SQL version, `Inodes` the inode table of the low-level version, `LowLevelReaddir` its
pruning of a table while it walks it, `CursorList` and `Strings` the list and the splitters, `TagsString`
the tags of a file as one string.

## Where the code does not do what one would expect

* unlink of a known file below a path with an unknown tag frees that tag and then uses it
  (`TagFs.Unlink`, `TagFaults.UnlinkFrees`); rename has the same fault (`TagRename.Rename`,
  `TagFaults.RenameFrees`). A lookup that finds a regular file excludes both; a lookup that finds a
  "directory", which every unknown name is, does not exclude the second.
* rename goes on to unlink when its link failed, and unlinks after linking, so a rename within one
  tag takes the tag away (`TagRename.Rename`).
* link makes its target's parent tag before it knows whether the link succeeds (`TagLink.Link`). For a
  target in the root that tag would be called "/", but there the kernel finds that the target exists
  and does not call link.
* A failed open or opendir never gives its path back (`TagHandles.OpenDir`, `TagHandles.OpenFile`), and
  closing a handle on a tag that meanwhile left the table removes a newer tag of the same name
  (`TagFaults.StaleRelease`).
* A directory that is open when its tags go shows no tags from then on, even when they come back, but
  still shows files that match by name (`TagMachine.StaysGone`, `TagReaddir.ScanAgreesWithIndex`).
* The daemon saves the tag database next to the one that it loads, under a name ending in ".new", and never
  reads it back itself; `TagLoad.Restart` is a restart on the saved one.
* The order of the tag database flips at every round of saving and loading (`TagDbRoundTrip.SecondRound`),
  and a tag that no file has is not saved (`TagDump.LoadedFromDump`).
* Closing an open directory answers an error, since it has no real descriptor to close; FUSE ignores it
  (`TagServe.PerformClose`).
* `list_add` after a read shifts all later reads by one (`CursorList.List.Add`).
* Below two tags or more the SQL version offers tags that lead nowhere (`SqlTags.OnlyOneTagAgrees`). Its
  test rejects paths that repeat a tag (`SqlTags.CountingTest`), and a tag that is removed and
  made again is lost to the queries by name (`SqlTags.RecreatedTag`).
* The low-level readdir writes the table it walks as soon as a file lacks a tag of the path
  (`LowLevelReaddir.SelectedFiles`), and its mkdir hands out a reference that it does not count (`Inodes.MkdirIsNotCounted`).

## Model

| member | source | states |
|---|---|---|
| Bits.MaskIsMod | cutil/uthash.h:210-213 | masking a hash value with the bucket count less one is the remainder by that count, for every power of two |
| Bits.IdealIsCeiling | cutil/uthash.h:671-692 | the shift-and-mask formula is the least chain length that fits the items into the doubled buckets, and at least 1 when there are items, so the division by it is safe |
| BucketModel.SplitOneChain | cutil/uthash.h:694-713 | doubling sends the items of bucket b to b and b + n only, each part in reverse order, and none is lost |
| BucketModel.SplitChainsPartition | cutil/uthash.h:694-713 | after doubling the chains again partition the items by masked hash value |
| BucketModel.SplitChainsSum | cutil/uthash.h:694-713 | doubling keeps the total of the bucket counts |
| BucketModel.AddWellFormed | cutil/uthash.h:185-208 | adding keeps everything HASH_FSCK checks and appends to the insertion order, whether or not it expands |
| BucketModel.ExpandWellFormed | cutil/uthash.h:683-729 | expanding keeps everything HASH_FSCK checks |
| BucketModel.DeleteWellFormed | cutil/uthash.h:227-260 | deleting keeps everything HASH_FSCK checks and removes exactly one item from the insertion order |
| BucketModel.FindRefinesScan | cutil/uthash.h:106-117 | searching one bucket finds an entry with the key exactly when a search of the whole insertion list would |
| LoadBound.RunInvariant | cutil/uthash.h:628-729 | over every run of additions and deletions from the empty table every state is well formed and, while expansion is not inhibited, the multipliers plus the number of full buckets stay within the number of buckets |
| LoadBound.LoadBoundHolds | cutil/uthash.h:628-729 | while expansion is not inhibited no chain exceeds 10 (expand_mult + 1), the items are at most 19 per bucket, and the next ideal chain length is at most 10 |
| LoadBound.FindAfterRun | cutil/uthash.h:106-117 | after every run a lookup finds an entry exactly when a live entry has the key |
| LoadBound.NoExpandIsSticky | cutil/uthash.h:720-726 | once inhibited, expansion stays inhibited and the bucket count stays, until the table empties |
| GrowthPolicy.LastExpansionIs | cutil/uthash.h:683-719 | the last expansion before a state is the one after which the table neither grew nor was freed |
| GrowthPolicy.BeyondCount | cutil/uthash.h:702-707 | the items counted as beyond the ideal while rethreading are those at positions beyond it in the finished chains |
| GrowthPolicy.ExpandsExactly | cutil/uthash.h:627-640 | over every run a table is made with 32 buckets and doubles exactly when an addition brings its bucket to its quota (ten items, and ten more for each full ideal length that its chain had after the last expansion, if it was longer than one) and the last two expansions were not both to no avail |
| GrowthPolicy.InhibitedExactly | cutil/uthash.h:720-726 | over every run expansion is inhibited exactly when the last two expansions of the table both left more than half of the items beyond the ideal chain length, and it comes to be so exactly in the step of the second |
| GrowthPolicy.GoodExpansionRestarts | cutil/uthash.h:720-726 | an expansion with at most half of the items beyond the ideal restarts the count and leaves the inhibition as it was |
| Duplicates.ExpandTurnsAround | cutil/uthash.h:683-713 | after an expansion a lookup finds the entry of the key that was last in its chain, so it finds the same one as before exactly when the key has no second entry |
| Duplicates.AddFinds | cutil/uthash.h:627-640 | without an expansion a lookup finds the entry of the key that was added last, and the lookup of other keys stays the same |
| Duplicates.DeleteFinds | cutil/uthash.h:642-652 | a deletion leaves every lookup that finds another entry as it was, and one that found the deleted entry fails exactly when no other has the key |
| UtHash.Table.Append | cutil/uthash.h:194-198 | linking at the tail extends the insertion list by one element and keeps its links |
| UtHash.Table.LinkInBucket | cutil/uthash.h:628-634 | linking at the front of a bucket keeps all chains linked both ways and the counts right |
| UtHash.Table.RethreadOne | cutil/uthash.h:697-712 | one rethreading step moves one element to the front of its new bucket and keeps the count of items beyond the ideal and the multiplier of that bucket |
| UtHash.Table.MoveAll | cutil/uthash.h:694-713 | the two rethreading loops produce exactly the split chains, with expand_mult = count / ideal beyond the ideal and 0 otherwise, and nonideal_items the sum of the excesses |
| UtHash.Table.ComputeIdeal | cutil/uthash.h:690-692 | the bit operations compute the ideal chain length of the doubled table |
| UtHash.Table.ExpandBuckets | cutil/uthash.h:683-729 | the pointer code does exactly what the expansion of the model does, leaves both linked structures consistent, counts itself as to no avail exactly when more than half of the items lie beyond the ideal chain length, and inhibits further ones exactly at the second in a row |
| UtHash.Table.Add | cutil/uthash.h:185-208 | adding on the heap is the addition of the model and keeps the full invariant |
| UtHash.Table.Find | cutil/uthash.h:106-117 | the bucket walk returns an element with the key exactly when the table has one, and it is the one the model names |
| UtHash.Table.Unlist | cutil/uthash.h:238-254 | unlinking from the insertion list repairs head, tail and both neighbours |
| UtHash.Table.UnlinkNode | cutil/uthash.h:642-652 | unlinking from a bucket chain leaves a chain linked both ways without the element |
| UtHash.Table.Delete | cutil/uthash.h:227-260 | deleting on the heap is the deletion of the model and keeps the full invariant |
| HashFsck.Fsck | cutil/uthash.h:290-339 | the check passes exactly when back links mirror forward links, every bucket count is its chain's length, and both countings give num_items |
| HashFsck.FsckPasses | cutil/uthash.h:290-339 | the check passes on every table the operations maintain |
| MergeSort.MergeStable | cutil/uthash.h:761-806 | merging two runs with the first preferred on ties keeps ties in order |
| MergeSort.SortIsStableSort | cutil/uthash.h:736-820 | the bottom-up merge sort yields a sorted permutation that keeps the order of ties, for every total preorder |
| HashSort.MergeRuns | cutil/uthash.h:761-806 | the in-place merge loop relinks two runs into their merge, next and prev included, and stops at the start of the next pair |
| HashSort.OnePass | cutil/uthash.h:746-811 | one pass over the list is one pass of the merge sort, and it was the last exactly when the list was at most two runs long |
| HashSort.SortTable | cutil/uthash.h:736-820 | sorting a table leaves its insertion list a stable sorted permutation with correct head, tail and links, and every lookup unchanged |
| Bloom.BitSetsOne | cutil/uthash.h:136-137 | setting a bit of the vector changes that bit only |
| Bloom.Filter.Test | cutil/uthash.h:142-143 | the test hits exactly the marked positions |
| Bloom.FilteredTable.Find | cutil/uthash.h:106-117 | with the filter compiled in, lookups give what they give without it: a present key is never hidden |
| HashTable.AsMapLookup | cutil/hash_table.c:109-122 | with unique keys a lookup among the pairs is a map lookup |
| HashTable.AsMapAppend | cutil/hash_table.c:61-77 | with a new key, appending a pair is a map update |
| HashTable.AsMapWithout | cutil/hash_table.c:79-95 | with unique keys, dropping a pair is a map removal |
| HashTable.HashTable.AddEntry | cutil/hash_table.c:48-59 | appends the pair whether or not the key is there |
| HashTable.HashTable.AddUniqueEntry | cutil/hash_table.c:61-77 | the first entry of a key wins |
| HashTable.HashTable.GetEntry | cutil/hash_table.c:109-122 | returns an entry's data exactly when the key is present, and the map's value when keys are unique |
| HashTable.HashTable.RemoveEntry | cutil/hash_table.c:79-95 | drops exactly one entry with the key, or fails when there is none |
| HashTable.HashTable.Free | cutil/hash_table.c:124-134 | deleting while iterating reaches every entry and empties the table |
| HashTable.HashTable.ToList | cutil/hash_table.c:148-159 | the list holds the data in reverse insertion order |
| CursorList.List.GetNode | cutil/list.c:18-31 | the walk from the cached cursor ends at the n-th node, shifted by how far the cursor has drifted |
| CursorList.List.Get | cutil/list.c:81-84 | returns the n-th element, or nothing at a sentinel, under the same shift |
| CursorList.List.Add | cutil/list.c:86-92 | prepends; the cursor drifts by one unless it is at position 0 |
| CursorList.List.Insert | cutil/list.c:121-128 | splices the element in before position n and keeps the cursor on its node |
| CursorList.List.Append | cutil/list.c:94-98 | appends at the end and leaves the cursor undrifted |
| CursorList.List.Remove | cutil/list.c:130-139 | removes the n-th element, and the freed node is not the cursor |
| CursorList.UndriftedPositions | cutil/list.c:18-31 | positions mean what they say, for every n, exactly when the cursor has not drifted |
| Strings.StringSplit2 | cutil/string2.c:115-144 | the array holds the pieces between the delimiter's successive first occurrences, in the order of the string |
| Strings.PiecesJoin | cutil/string2.c:115-144 | the pieces joined by the delimiter give back the string |
| Strings.NoPieceHasDelimiter | cutil/string2.c:115-144 | no piece contains the delimiter anywhere |
| Strings.SplitOfJoin | cutil/string2.c:115-144 | splitting a joined list gives the list back exactly when in no piece the delimiter occurs early, not even across the delimiter behind it |
| Strings.EmptyDelimiterStays | cutil/string2.c:128-132 | with an empty delimiter the search never advances |
| Strings.FillBackwards | cutil/string2.c:103-109 | filling the array from its end undoes the reversal by prepending |
| Strings.StrTok | cutil/string2.c:95-99 | each call returns the next maximal run without delimiters |
| Strings.StringSplit | cutil/string2.c:85-112 | the array holds exactly the maximal runs without delimiters, in order |
| Strings.TokensAreTokens | cutil/string2.c:85-112 | every token is not empty and free of delimiters |
| Strings.TokensOfConcat | cutil/string2.c:85-112 | the tokens of two strings with a delimiter between them are those of both |
| Strings.ComponentsOfPath | fuse/tag.c:121-122 | splitting a written-out path gives its components back |
| TagsString.FileGetTagsString | fuse/file.c:78-94 | the string is the tags in table order with single spaces between, and the size is its length |
| TagsString.TagsReadable | fuse/file.c:78-94 | the tags can be read back from it exactly when there is one and none contains a space |
| Tags.Store.Select | fuse/tag.c:124-131 | resolving one component returns the tag of that name, new and not in use if there was none, with one more reference |
| Tags.Store.PathCreate | fuse/path.c:29-43 | a path holds the table's tags of its components; the table gains only tags not in use, and each tag one reference per occurrence |
| Tags.Store.CollectFiles | fuse/tag.c:88-95 | the tag's files are gathered into a table of their own, so that no table is written while it is being walked |
| Tags.Store.TagRemove | fuse/tag.c:88-107 | the tag leaves the table by name and every file it lists, is freed when its last reference goes, and no table is written while it is being walked |
| Tags.Store.DropEntry | fuse/tag.c:136-146 | giving one path entry back drops its name when it is not in use and keeps sound counts sound; a freed tag is touched exactly when the entry had been freed |
| Tags.IndexWithout | fuse/tag.c:136-146 | the names of a path's entries that are not in use can leave the table exactly when each of these entries has no rival there or a name that no file has |
| Tags.Store.FreeSelectedTags | fuse/tag.c:136-146 | giving the entries of a path back, repeated ones included, drops exactly the names of those not in use; with sound counts it touches no freed tag and keeps them sound, and with more entries of an unused tag than it has references it does touch one |
| Tags.Store.PathDelete | fuse/path.c:45-53 | giving back a path that the callback created also keeps the index |
| Tags.Store.FileMatches | fuse/tagfs.c:17-31 | a file matches exactly when it has every selected tag |
| Tags.Store.TagFile | fuse/tag.c:153-157 | both sides of the index gain the pair, the tag is in use, and a freed tag would have been touched |
| Tags.Store.UntagFile | fuse/tag.c:159-163 | both sides of the index lose the pair, and a freed tag would have been touched |
| TagFs.GetattrIntra | fuse/tagfs.c:62-86 | decides between directory, file and no entry, and touches no freed tag when the path's tags are live |
| TagFs.PathLeavesNoTrace | fuse/path.c:29-53 | between creation and deletion of a path, dropping its unused tags leaves the earlier table without the unused tags of the names on the path; when all tags were in use, the earlier table |
| TagFs.Getattr | fuse/tagfs.c:89-98 | a lookup, however many tags it invents, leaves the index, the counts and the tags in use as they were, and clears the table of unused tags under the names on its path |
| TagFs.EmptyIsBare | fuse/tagfs.c:178-180 | a tag's file table is empty exactly when no file has the tag |
| TagFs.PathUnlink | fuse/tagfs.c:167-184 | a known file loses the path's tags, and the path's tags left without a file leave the table |
| TagFs.UnlinkHeld | fuse/tagfs.c:167-184 | the counts stay sound when every entry of the path has a reference to spare; a path that nobody will delete makes up for an unused entry |
| TagFs.Unlink | fuse/tagfs.c:186-200 | uses a tag after freeing it exactly when the file is known and some component names no tag, or one not in use with fewer references than the path names it; otherwise the effect is that of path_unlink and all invariants hold again |
| TagLink.MakeTag | fuse/tagfs.c:231-253 | afterwards the tag exists and is in use; fails exactly when it was in use before; the tag it looks at has not been freed |
| TagLink.MakeParent | fuse/tagfs.c:574-574 | inside link tag_mkdir makes the only component of the new path, the tag "/" for the root, and nothing for deeper paths |
| TagLink.PathLink | fuse/tagfs.c:548-564 | when the old path stands for a file, the file gains every tag of the new path and those are in use |
| TagLink.Link | fuse/tagfs.c:566-582 | the relation gains exactly the new path's pairs, and the tags in use those of the new path and the parent, which stays even when the link fails; no other tag is put to use, and all invariants hold again |
| TagRename.Rename | fuse/tagfs.c:585-615 | the file moves from the old tag to the new one even if the link failed; a tag is used after it is freed exactly when the old path names no tag and linking does not make it real; otherwise all invariants hold again |
| TagReaddir.SelectedFiles | fuse/tagfs.c:295-339 | union and prune give exactly the files with all the path's tags as soon as one tag of the path is current, and none otherwise; no table is written while it is being walked |
| TagReaddir.FillRemaining | fuse/tagfs.c:341-365 | shows each unselected tag of a selected file exactly once and nothing else |
| TagReaddir.ListTagsBelow | fuse/tagfs.c:367-383 | the names shown are distinct and depend only on the set of the path's tags and the relation |
| TagReaddir.OfferedMeansNonEmpty | fuse/tagfs.c:341-365 | a name not in the path is offered exactly when going into it leaves a file, and going into it never adds one |
| TagReaddir.MatchingBySet | fuse/tagfs.c:295-339 | order and repetition of components do not change the files of a path |
| TagReaddir.ListTagsAtRoot | fuse/tagfs.c:279-293 | the root shows each tag in use once and no other, and no tag it reads has been freed |
| TagReaddir.ListFiles | fuse/tagfs.c:255-277 | shows the directory entries that pass getattr_intra, in directory order |
| TagReaddir.AllVisibleAtRoot | fuse/tagfs.c:255-277 | the root shows every entry of the real directory |
| TagReaddir.VisibleInOrder | fuse/tagfs.c:255-277 | the entries shown come in the order of the real directory |
| TagReaddir.VisibleCounts | fuse/tagfs.c:255-277 | each entry is shown as often as the real directory lists it, or not at all when a lookup below the path finds no entry |
| TagReaddir.ScanAgreesWithIndex | fuse/tagfs.c:255-339 | below at least one tag, the scan shows a file of the real directory exactly when the index yields it, unless every tag of the path has left the table and the file matches by name |
| TagReaddir.Readdir | fuse/tagfs.c:387-412 | the whole listing of an open directory: at the root the tags in use, below it those left in the path when one of its tags is still current and none otherwise, then the files; no freed tag is touched and no table written while it is being walked |
| TagNames.NamesOfTags | fuse/file.c:78-94 | the walk over a file's tags names each tag related to it once, touches no freed tag and writes no table that it walks |
| TagNames.Fgetattr | fuse/tagfs.c:100-107 | fgetattr decides on the path that a descriptor kept as getattr does on a new one |
| TagNames.Getxattr | fuse/tagfs.c:116-146 | answers no entry, a directory, or the file's tags joined by spaces, and leaves the table as getattr does |
| TagNames.IoctlReadTags | fuse/tagfs.c:617-637 | the string is the tags related to the file, each once, joined by spaces |
| TagDump.DumpTags | fuse/tag.c:165-186 | the tables are printed as a database of every file with its tags, each once, and no freed tag is touched |
| TagDump.LoadedFromDump | fuse/tag.c:165-238 | loading the dump of clean names gives the same relation, and as tags exactly those that some file has |
| TagHandles.OpenDir | fuse/file_descriptor.c:5-45 | succeeds exactly for the root and for paths whose last tag is in use; the path stays alive either way; the state is idle afterwards exactly when the call failed or all tags of the path are in use |
| TagHandles.OpenFile | fuse/file_descriptor.c:5-45 | for a regular file the answer is that of opening the real file, and what becomes of the path is as for directories |
| TagHandles.Release | fuse/file_descriptor.c:47-63 | closing a descriptor gives its entries back, touches no freed tag and keeps the counts sound; the index survives exactly when each entry not in use has no rival in the table or a name that no file has |
| TagHandles.ReleaseUsed | fuse/file_descriptor.c:47-63 | between callbacks, closing a descriptor whose tags are in use changes nothing but the descriptors |
| TagFaults.RenameFrees | fuse/tagfs.c:585-615 | in an empty file system, a rename from a path that names no tag to another uses a tag after freeing it |
| TagFaults.UnlinkFrees | fuse/tagfs.c:186-200 | unlink of a known file below a path that names no tag uses a tag after freeing it |
| TagFaults.StaleRelease | fuse/tag.c:105-105 | a run of opendir, getattr, link and releasedir after which a file has a tag that the tag table lacks |
| TagMachine.AfterKeepsTagged | fuse/tagfs.c:178-180 | at each step of the machine a tag goes only when no file has it, and no file keeps a tag that is not in use |
| TagMachine.RunTagged | fuse/tagfs.c:167-184 | over whole runs no file keeps a tag that is not in use, and at every step a tag goes only when no file has it any more |
| TagMachine.OpenedShows | fuse/tagfs.c:387-412 | just after opendir below some tags, the directory shows the tags that the path's files also have, and the path's files |
| TagMachine.StaysGone | fuse/tagfs.c:295-311 | once no tag of an open directory is the table's any more, it shows no tag in any later state, even when tags of the same names come back |
| TagMachine.UnlinkUndoesLink | fuse/tagfs.c:167-184 | unlinking what was just linked restores every file's tags, and of the new names keeps those that some file had |
| TagMachine.RenameMoves | fuse/tagfs.c:585-615 | a rename to another tag moves that file and no other, and the old tag stays exactly when another file has it |
| TagRuns.RepliesInOrder | fuse/tagfs.c:677-717 | every request of a run gets one reply, in order, from the state that the requests before it have left |
| TagRuns.RunsCompose | fuse/tagfs.c:677-717 | state and replies of a run are those of its first part followed by those of the rest |
| TagRuns.OneStep | fuse/tagfs.c:677-717 | a run of one request is that request's step and answer |
| TagRuns.RefusedExactly | fuse/tagfs.c:585-615 | the calls that are held back are those on files that a lookup does not find, those on descriptors not open or of the wrong kind, the doomed rename, and opendir with a last tag in use below one that is not |
| TagRuns.RefusedChangesNothing | fuse/tagfs.c:677-717 | a call that is held back changes nothing |
| TagRuns.LookupAnswers | fuse/tagfs.c:62-146 | getattr finds a file exactly when it exists and has every tag of the path, and a directory exactly for names that are no file; the tag attribute can be read exactly of files found |
| TagRuns.OpensExactly | fuse/file_descriptor.c:16-23 | opendir always succeeds on the root, and below it finds no entry exactly when the last component is not the name of a tag in use |
| TagRuns.ListsAfterRun | fuse/tagfs.c:387-412 | however long a directory has been open, the root lists the tags in use, and a path the tags left in it as long as one of its tags has been in use all the time and none otherwise; the files are those that getattr finds |
| TagRuns.FileAfterRun | fuse/tagfs.c:100-146 | however long a file has been open, fgetattr answers as getattr for its path, the ioctl and the attribute name its current tags, and reading the tag file gives the whole relation |
| TagRuns.DirectoryAfterRun | fuse/tagfs.c:100-107 | however long a directory has been open, fgetattr answers as getattr for its last component and the ioctl is refused |
| TagRuns.CloseTakesOne | fuse/file_descriptor.c:47-63 | closing takes away that descriptor and no other, and changes no tag |
| TagRuns.CloseUndoesOpen | fuse/file_descriptor.c:5-63 | closing what was just opened restores the state |
| TagRuns.LinkAdds | fuse/tagfs.c:548-582 | file by file and tag by tag, what link adds, and that a link without a source still puts the target's parent to use, which at the root is named "/" |
| TagRuns.UnlinkTakes | fuse/tagfs.c:167-200 | file by file and tag by tag, what unlink takes |
| TagRuns.RenameMovesTag | fuse/tagfs.c:585-615 | file by file and tag by tag, what rename moves, within one tag too |
| TagServe.PerformUnlink | fuse/tagfs.c:186-200 | after a lookup that found a file, unlink touches no freed tag and takes the abstract step |
| TagServe.PerformRename | fuse/tagfs.c:585-615 | after a lookup that found something, rename touches no freed tag and takes the abstract step; it is held back exactly when it would be doomed |
| TagServe.PerformOpenDir | fuse/file_descriptor.c:5-45 | opendir, failing or not, takes the abstract step; it is held back exactly when it would leave a handle on a tag not in use |
| TagServe.PerformOpenFile | fuse/file_descriptor.c:5-45 | after a lookup that found a file, open takes the abstract step whether or not the real file can be opened |
| TagServe.PerformReaddir | fuse/tagfs.c:387-412 | the listing is the one that the machine gives for the descriptor |
| TagServe.PerformFgetattr | fuse/tagfs.c:100-107 | fgetattr on an open descriptor answers as the machine does and changes nothing it can see |
| TagServe.PerformGetxattr | fuse/tagfs.c:116-146 | reading the tag attribute takes the abstract step: an error unless the path stands for a file, else that file's tags |
| TagServe.PerformIoctl | fuse/tagfs.c:617-655 | reading the tags through a descriptor takes the abstract step: an error for directories and for the tag file, else the file's tags |
| TagServe.PerformReadTags | fuse/tagfs.c:414-439 | reading the tag file answers the whole relation |
| TagServe.PerformClose | fuse/file_descriptor.c:47-63 | release and releasedir take the abstract step; closing a directory answers an error |
| TagServe.Perform | fuse/tagfs.c:677-717 | every callback keeps the index and the counts, writes no table that it walks, and state and reply are those of the abstract machine |
| TagServe.Serve | fuse/tagfs.c:677-717 | over any sequence of callbacks no freed tag is touched, no callback waits for its own lock, all invariants hold between callbacks, and the replies, listings included, and the final state are those of the abstract machine |
| TagLoad.TagGetOrCreate | fuse/tag.c:55-61 | the tag of the name, in use, made if there was none, with a reference more for each mention |
| TagLoad.ParseTagLine | fuse/tag.c:209-219 | one tag line changes the tables as it changes the parsed database |
| TagLoad.Load | fuse/tagfs.c:719-736 | loading leaves a state in which callbacks can be served, and its view is the parsed database: same pairs, same tags |
| TagLoad.Daemon | fuse/tagfs.c:719-766 | from the database text on, the replies to any sequence of callbacks are those of the machine begun on the parsed database, and the text saved at the end, if its names are clean, loads as the machine's last relation with exactly the tags that some file has |
| TagLoad.Restart | fuse/tagfs.c:719-752 | a restart on a clean saved database keeps every file's tags and of the tags in use exactly those that some file has |
| TagDb.TagDbDump | fuse/tag.c:165-186 | prints the blocks of the files that have tags, newest file first, tags in table order |
| TagDb.Fgets | fuse/tag.c:227-227 | a line ends with its newline, at 999 characters, or with the text |
| TagDb.CopyWordUntil | fuse/tag.c:188-191 | copies up to the first end character, or everything when there is none |
| TagDb.ParseTagsDb | fuse/tag.c:221-238 | the parsing loop computes the specified database for every text |
| TagDbRoundTrip.ParseConcat | fuse/tag.c:221-238 | text that ends with a line is parsed independently of what follows |
| TagDbRoundTrip.RoundTrip | fuse/tag.c:165-238 | parsing a dump of clean names rebuilds exactly the files that have tags, with their tags in order and the files in reverse order, and exactly their tags |
| TagDbRoundTrip.SecondRound | fuse/tag.c:165-238 | a second dump has the same blocks in reverse order, and a second round restores files and text |
| TagDbExact.TagLineExact | fuse/tag.c:209-219 | a new tag printed on its line is read back as that tag exactly when it is not empty, has no newline, at most 999 characters and does not start with white space, '#' or '[' |
| TagDbExact.HeaderExact | fuse/tag.c:193-207 | a new name printed in a header opens that file and does nothing else exactly when it has no ']', no newline and at most 997 characters |
| TagDbExact.UncleanByAccident | fuse/tag.c:165-238 | an unclean name that survives the whole round trip all the same |
| TagDbLines.CommentLine | fuse/tag.c:228-229 | a line that starts with '#' does nothing |
| TagDbLines.CommentAnywhere | fuse/tag.c:221-238 | so a comment between any two complete lines changes nothing |
| TagDbLines.BlankLine | fuse/tag.c:230-236 | a line of white space does nothing |
| TagDbLines.TagLine | fuse/tag.c:209-219 | any other line without a bracket, leading white space skipped, makes its text a tag and gives it to the current file, if there is one, unless it has it |
| TagDbLines.HeaderLine | fuse/tag.c:193-207 | a header makes its file the current one, adding it to the table if it is not there; a file that getattr refuses leaves no current file |
| TagDbLines.OpenHeader | fuse/tag.c:188-191 | a header without its closing bracket takes the newline into the name |
| TagDbLines.LongLine | fuse/tag.c:227-227 | a longer line is read 999 characters at a time, each part as a line |
| TagDbLines.LongTag | fuse/tag.c:209-219 | a tag of more than 999 characters is cut, and the rest starts another line |
| TagDbLines.Limits | fuse/tag.c:11-11 | otherwise clean tags are read back up to 999 characters and file names up to 997, and no longer ones |
| TagDbLines.RefusedBlock | fuse/tag.c:193-219 | the tags below a header that getattr refuses become tags of no file |
| TagDbLines.SecondBlock | fuse/tag.c:193-219 | a second block of a file adds the tags that it lacks and changes no other file |
| TagDbLines.FileTextPrinted | fuse/tag.c:175-184 | a file with tags is printed as its name in brackets, its tags a line each, and an empty line |
| TagDbLines.DumpText | fuse/tag.c:165-186 | the printed text is that of the files with tags, the newest first, and nothing else |
| SqlTags.CountingTest | fuse_sqlite3/db.c:190-219 | the count equals the selection's size exactly when the file has every selected tag and no tag is selected twice |
| SqlTags.SqlOffers | fuse_sqlite3/db.c:157-188 | the query yields the tags, not in the path, of files that have at least one tag of the path |
| SqlTags.HashRemainingIsListed | fuse/tagfs.c:341-383 | the set compared with is what the hash table version lists for the same files and tags |
| SqlTags.SqlOffersMore | fuse_sqlite3/db.c:157-188 | the SQL remaining tags include those of the hash table version |
| SqlTags.SingleTagAgrees | fuse_sqlite3/db.c:157-188 | below a single tag both versions offer the same |
| SqlTags.TwoTagsDisagree | fuse_sqlite3/db.c:157-188 | below two tags SQL can offer a tag that leads nowhere |
| SqlTags.OnlyOneTagAgrees | fuse_sqlite3/db.c:157-188 | both versions offer the same on every database exactly when the path has one tag |
| SqlTags.Database.GetOrCreate | fuse_sqlite3/tag.c:26-45 | ids stay unique; the hash table and the SQL table stay in step exactly when the name is known or was never inserted before |
| SqlTags.Database.FileMatches | fuse_sqlite3/db.c:190-219 | by name: matches exactly when no component repeats and the file has them all |
| SqlTags.Database.SyncedCarries | fuse_sqlite3/db.c:157-174 | while the tables are in step, ids and names agree on who has which tag |
| SqlTags.RecreatedTag | fuse_sqlite3/tag.c:61-65 | after removing and making a tag again the test by id accepts a file that the query by name misses |
| Inodes.Table.CreateDirectory | fuse_lowlevel/inode.c:54-69 | the child has the parent's tags and the name, both ways; the table stays valid exactly when the name is not among the parent's tags |
| Inodes.Table.LookupTag | fuse_lowlevel/fuse_callback.c:126-133 | makes a directory exactly for an existing tag that the path lacks, so no directory ever names a tag twice |
| Inodes.Table.OfferTags | fuse_lowlevel/fuse_callback.c:406-435 | every entry of a listing gets a directory of its own, under a fresh number, with one more tag |
| Inodes.Table.Forget | fuse_lowlevel/inode.c:38-52 | deletes exactly when the wrapped counter reaches zero, and never the root; a number always means the inode it was first given to |
| Inodes.GuardsAgree | fuse_lowlevel/fuse_callback.c:262-267 | the single-tag guards of unlink and rename agree on every directory, and let through just the directories of one tag |
| Inodes.MkdirIsNotCounted | fuse_lowlevel/fuse_callback.c:317-327 | a directory made by mkdir outlives the one forget that follows |
| LowLevelReaddir.UnionTable | fuse_lowlevel/fuse_callback.c:374-384 | the first pass enters every file that some tag of the path lists, each once, and writes no table that it walks |
| LowLevelReaddir.PruneFile | fuse_lowlevel/fuse_callback.c:387-400 | comparing one file with the path removes it by name exactly when it lacks a tag, and then the table being walked is written |
| LowLevelReaddir.PruneTable | fuse_lowlevel/fuse_callback.c:386-401 | deleting the current entry by name while iterating visits every entry once and keeps, in order, exactly the files with all tags of the path |
| LowLevelReaddir.SelectedFiles | fuse_lowlevel/fuse_callback.c:369-404 | the files found are those of the version that lists the others first; the table being walked is written exactly when a file of one of the path's tags lacks another of them |

## Left out

- kmod/: unfinished and tied to kernel interfaces.
- FUSE and kernel plumbing (mount, reads and writes of real files, chmod, poll, setxattr, and extended attributes and ioctls other than the tag string): system calls without an algorithm, or fixed answers. The real directory is the set of names that `stat` finds and that are not directories.
- The hash function bodies and 32-bit hash values: any function from keys to natural numbers.
- HASH_SELECT, list_remove_value, list_to_array and list_to_hashtable: not used by the modelled code, and not doing what their names say.
- list_free, list_copy, list_append_list and the list maps: nothing beyond the operations proved.
- Wrap-around of num_items, num_buckets and the list positions: counters are unbounded, which differs only beyond 2^32 elements or buckets.
- Memory allocation failure, logging and locale; `isspace` accepts the six ASCII white space characters.
- Tags.Store: its tables with unique keys are maps, so the order in which a table is walked is not modelled there; `HashTable` shows that such tables act as maps, and `TagDb` models the orders.
- Paths in `Tags` and the callbacks are sequences of components with a file name; splitting the text of a path is `Strings.ComponentsOfPath`, and the C library's dirname and basename are not part of this model.
- Concurrency between callbacks: each callback is one step. Of the locks, what one callback does to itself is modelled; the tables of tags of all paths count as one table, which is stricter than the program.
- TagRename.Rename: the flags argument of newer FUSE versions, which is refused unless zero.
- tag_rmdir and update_lib of the fuse version: the first is not registered as a callback, the second writes a database without blank lines that nothing reads.
- TagDb.ParseTagsDb: getattr is a predicate on names, here and in `TagLoad`; it is true of every name without a slash, and the file that it may create on the way is the one the parser creates next. Text has no NUL characters.
- Poll events and the list of descriptors of a file: no effect on tags. The paths that descriptors keep are modelled.
- Buffer sizes of getxattr, ioctl and reads of ".tags": the whole string is answered, from its start; the "almost infinite" size that getattr gives ".tags" is not modelled.
- CursorList.List.Append: not on a list whose cursor has drifted at or before its last position; there the walk ends at or behind the back sentinel, and the program links the element out of reach or follows a null pointer.
- HashFsck.Fsck: not on tables whose forward links run in a circle, on which the check does not end.
- SqlTags.Database.FileMatches: paths with an unknown tag, for which the original dereferences its invalid-tag marker; the SQL engine itself is taken to answer its queries as written, without enforcing foreign keys.
- LowLevelReaddir.SelectedFiles: the reference counts of the low-level version, which has none on tags, and the walks over the tables of the path and of its tags, which nothing writes meanwhile.
- Inodes.Table.Forget: inodes of regular files and the file table that points to them; tags that an inode's table still points to after rmdir.
