# Bentobox disk images: a verified model

A Dafny model of how bentobox builds root disks, with proofs about every input and every run.

The core is the userspace ext4 code in `common/ext4`. The *formatter* is a single-pass block allocator: a
cursor that only moves on, a node tree in a flat vector, hard links, block lists for what was deleted or set
aside, reserved areas at the start of some groups, and a final pass that writes directories, picks a group
layout and fills in bitmaps. The *reader* must recover from the disk exactly what was put there. Around the
core stand the application of OCI layers, the blob and image store with downloads that may crash at any step,
and the protocol between a plugin and the connection broker.

## How it is built

Code that updates things in place is a class or a method with loops (`Formatting.Formatter`, `InPlace.Tree`,
`Directories.DirBuffer`, `Xattrs.XattrState`, `Traversing.Traversal`, the bitmap, extent, reading, layout and
metadata loops). Each such method is proved equal to a function on values, and the theorems are about those functions.

| layer | modules |
|---|---|
| bytes, geometry | `Bytes`, `Geometry` |
| payload allocation | `Payload`, `Placement`, `Allocation`, `Extents`, `Contents` |
| namespace | `FileTree`, `InPlace`, `Fs`, `Namespace`, `Ownership`, `Pruning`, `Growing`, `Creating`, `Keeping`, `Linking`, `Dots` |
| whole runs | `Running`, `Formatting`, `Counting`, `Reaching` |
| directories on disk | `Directories`, `Visiting`, `Committing`, `Walking` |
| closing the image | `Bitmaps`, `Records`, `Closing`, `Metadata`, `Sealing`, `Finishing` |
| reading | `Reading`, `Resolving`, `Traversing`, `HardLinks`, `Xattrs` |
| the finished image | `Imaging`, `Meaning`, `Marking`, `Attributes`, `Overwriting` |
| the finished image in the reader | `Opening`, `Answering`, `Refusing` |
| layers, store, plugins | `Layers`, `Blobs`, `Images`, `Broker` |

The main theorems are about the whole way from a sequence of operations over the closed image to what its reader says.
A sequence of create, link and unlink operations is given a meaning by a short definition, `Expect`, on a map from paths
to contents that knows nothing of inodes or blocks. Closing is the list of everything it writes, in order: resize blocks,
inode table, bitmaps, descriptors, superblock, copies (`Sealing.Writes`). For every sequence of operations that goes
through:

- Going down the closed image by name (superblock, group descriptor, inode record, directory blocks, extent tree), there
  is at a path what `Expect` says if and only if no leaf block of it is reserved; in particular everywhere if the
  image `ClosesWell` (`Meaning.ImageMeans`).
- `Reader::new` parses the block field of everything it reaches. It opens the image if and only if all of these can be
  parsed; on an image that closes well, if and only if no symlink of fewer than 60 bytes has a target that begins with
  the bytes 0A F3 (`Opening.ReaderOpensIff`). Its nodes and hard links are then together exactly the paths at which
  `Expect` has anything (`Opening.ReaderSees`).
- Once an image that closes well is open, `read_file`, given any path, offset and count, answers with that part of what
  `Expect` has where the path leads through dots and symbolic links, or with the right error (`Answering.ReadFileMeans`).

Three invariants carry it over whole runs: `Sound` (tree, link counts, who owns which block), `Kept` (every
inode in use leads to its content, in blocks outside the reserved areas) and `Past` (nothing behind the cursor
is touched again). `St.born` is a history of what each inode was created with; no operation reads it.

## What turned out false

Where a property one would expect fails, the model keeps to the code, shows a run in which it fails and states exactly
when the property holds.

- An image can lose its root directory. With 4096 bytes asked for and one file of 32732 blocks, all calls succeed, but the
  inode table starts with group 1, and the superblock copy of that group is written over it afterwards
  (`Overwriting.RootLost`). The blocks with inodes, and likewise all tables and bitmaps, are left alone if and only if no
  backup group starts among them (`Sealing.TablesSafeIff`).
- A file can be overwritten by descriptors. With 4096 bytes asked for and one file that ends in group 130, closing succeeds:
  it compares the descriptor area it needs, 64 blocks, with the area for the size grown to by then, not with the 32 blocks
  that were kept free, and the first block of the file becomes a list of block numbers (`Overwriting.FileLost`). After any run,
  closing writes into no block that was free for content if and only if the area has not grown since the image was
  made (`Overwriting.RunClosingIff`).
- The leaf blocks of an extent tree are not kept out of reserved areas. With 740 groups asked for and one file of about
  91 GiB, all calls succeed and the area does not grow, but the second leaf block of the file is the first block of
  group 729. Closing puts a superblock copy there, the file is lost (`Overwriting.LateLeafLost`), and the reader does not
  open the image at all (`Refusing.LateNotOpened`). A content in blocks is on the closed image if and only if none of its
  leaf blocks is reserved (`Imaging.HeldIff`); up to 35 GiB none is (`Contents.StowSturdy`, `Imaging.SmallAllFree`).
- A symlink can make an image unreadable. The target is kept in the block field of the inode, and the reader parses that
  field as an extent tree. With the target "line feed, U+C0000", five bytes of UTF-8, all calls succeed, the image closes
  well and has everything at its path, and the reader refuses it (`Refusing.SymlinkNotOpened`). Exactly the short targets
  that begin with the bytes 0A F3 do this (`Opening.ShortMapped`, `Opening.ReaderOpensIff`).
- `link` does not keep the filesystem sound. Asked for below a regular file it succeeds and gives the file a
  child (`Running.LinkBelowFileHappens`). Asked for over a directory that holds the target's only name it
  succeeds and names an inode that was just cleared (`Running.LinkOverOnlyNameHappens`). Asked for a target with 65535
  names it takes the 16-bit count to 0, and the next unlink clears an inode that has names
  (`Counting.TooManyLinksHappen`, `Counting.ThenUnlinkClears`; builds that check arithmetic stop instead). It is sound if and
  only if it makes no entry, or its parent is a directory, the target keeps a name outside what is replaced, and there are
  fewer than 65535 such names (`Linking.LinkSoundIff`).
- A whiteout named `.wh..` deletes `.` in its directory: the directory stays and loses a link, a second one clears
  the inode of a directory that is in the tree (`Layers.DotWhiteoutHappens`). Unlink keeps the filesystem sound if and only if
  the path does not end in a dot, or leads to nothing or the root, or the call is a whiteout (`Dots.UnlinkSoundIff`).
- Creating through a hard-link entry: a directory asked for there is reported as made and is not; below it, a
  hard-link entry gets a child (`Meaning.CreateThroughLinkHappens`). A create that succeeds has made what was asked for if and
  only if no hard-link entry is on the way (`Meaning.CreateRightIff`).
- A removed directory is not freed: its inode keeps one link that nothing accounts for and stays marked as in use
  (`Layers.RemovedDirectoryHappens`). Unlinking the last name of an inode frees it if and only if it is no directory
  (`Dots.UnlinkFreesIff`).
- A layer of stated size zero can never be fetched into an empty store (`Blobs.FirstFetchIff`).
- A peer that sends a reply of its own making can give a call a stream that was not opened for it (`Broker.LieHappens`). A
  received reply keeps the streams right if and only if it is truthful or nobody waits for it (`Broker.ReceiveRightIff`).
- A plugin call that registers after the control reader has stopped waits for ever (`Broker.Stranded`,
  `Broker.AnswerableIff`).

## Hypotheses

- `Fits`, `Representable`: the image has fewer than 2^32 blocks of 4096 bytes, so block numbers fit their fields. The model
  itself does not bound them; block and group counts are truncated to 32 bits where the code does.
- `Allowed`: creation where `CreateRightIff` says it is right, links where `LinkSoundIff` and unlinks where `UnlinkSoundIff` say
  they are sound.
- `Closes`: the directories are written (they are, up to 128 GiB each: `Committing.CommitSucceeds`), closing is not
  refused (`Sealing.ClosedIff`), the area has not grown, no backup group starts among the blocks with inodes. `Legible`:
  also, no leaf block of a directory is reserved. `ClosesWell`: also, none of a file is. Each of these can be checked on the state before closing, and `Overwriting.ClosesWellHappens` meets them all.
- Fewer than 2^32 inodes (`Imaging.Last`), as their numbers have 32 bits.
- `AllText`: targets of symlinks are UTF-8, as the strings of the source are. Only what is said about opening asks for it.
- Paths are lists of nonempty names, as `runtime/ocidisk/src/layer.rs` produces them; a name `.` can only come from a
  whiteout.

## Model

| member | source | states |
|---|---|---|
| `Meaning.ImageMeans` | common/ext4/src/formatter.rs:480-1329 | for every run of operations from a new image that all succeed and whose directories stay legible: going down the closed image by name, from its superblock through descriptors, inode records, directories and extent trees, a path has exactly what the operations said if and only if no leaf block of it is reserved; every path has, if the image closes well |
| `Meaning.RunMeans` | common/ext4/src/formatter.rs:480-946 | after any such run every path means what the operations said: the node tree, link table and inode vector refine a path-to-content map |
| `Meaning.StepMeans` | common/ext4/src/formatter.rs:480-946 | one operation changes the map as `Expect` says, whatever came before |
| `Meaning.CreateMeans` | common/ext4/src/formatter.rs:480-710 | create puts what it was given at the path, directories where the way was missing, nothing below a file, and leaves all other paths |
| `Meaning.CreateRightIff` | common/ext4/src/formatter.rs:480-710 | a create that reports success has made what was asked for at the path if and only if no hard-link entry is on the way and it is not a symlink in place of the root |
| `Meaning.CreateThroughLinkHappens` | common/ext4/src/formatter.rs:497-543 | the concrete run: a new image, one file, one link; a directory at the link is reported as made and is not, a file below it hangs under a hard-link entry |
| `Meaning.LinkMeans` | common/ext4/src/formatter.rs:776-832 | link puts at the new path what stands at the target, nothing below it, and leaves all other paths |
| `Meaning.UnlinkMeans` | common/ext4/src/formatter.rs:840-946 | unlink empties the path and all below it, a whiteout all strictly below it, and leaves all other paths |
| `Opening.ReaderOpensIff` | common/ext4/src/reader.rs:43-136 | for every run that closes: the reader opens the image if and only if all that can be reached has no reserved leaf block and no clashing target; if the image closes well, if and only if at no path there is, after `Expect`, a symlink of under 60 bytes that begins with 0A F3 |
| `Opening.ReaderSees` | common/ext4/src/reader.rs:72-136 | once it is open, the paths of nodes and hard links are together exactly the paths without dots at which `Expect` has anything |
| `Opening.SeesExactly` | common/ext4/src/reader.rs:72-136 | each of these paths with the inode that the formatter's tree has there, and no other |
| `Opening.SeesWalks` | common/ext4/src/reader.rs:72-136 | and that is the inode found by going down the image by name |
| `Opening.OpensIff` | common/ext4/src/reader.rs:94-102 | in any good state: all that the reader reaches on the closed image can be read if and only if all that the tree reaches is fine |
| `Opening.ShortMapped` | common/ext4/src/extent.rs:289-378 | a UTF-8 target of under 60 bytes, taken for a block field, can be parsed if and only if it does not begin with 0A F3 |
| `Opening.TreeMapped` | common/ext4/src/extent.rs:330-378 | a block field can be parsed on the closed image if and only if no leaf block of it is reserved, and all it leads to then lies within the image file |
| `Opening.ListsChildren` | common/ext4/src/reader.rs:230-256 | the entries of a directory as read, dots aside, are exactly its children with their inodes |
| `Refusing.SymlinkNotOpened` | common/ext4/src/formatter.rs:637-650 | the concrete run: 4096 bytes asked for, one symlink with the target 0A F3 80 80 80; every call succeeds, the image closes well and has what was said at every path, and the reader does not open it |
| `Refusing.LateNotOpened` | common/ext4/src/reader.rs:94-102 | the image of the 91 GiB file is not opened by the reader |
| `Answering.ReadFileMeans` | common/ext4/src/reader_io.rs:59-209 | for every run that closes well and every path, offset and count: `read_file` answers with the window of what `Expect` has where the path leads, symbolic links, dots, the hop limit and loops included, or with the error of following it there |
| `Answering.PlainFileMeans` | common/ext4/src/reader_io.rs:59-87 | for a path without dots and symlinks: the window of the file there, "is a directory", or "not found" or "no directory" where nothing is |
| `Answering.FollowsLike` | common/ext4/src/reader_io.rs:110-209 | resolving on the image, by inodes and a stack of parents, is following the path on the map from paths to contents, step by step and error by error |
| `Answering.ReadFile` | common/ext4/src/reader_io.rs:59-87 | resolve, look at the kind, read: the answer as specified |
| `Imaging.RunImage` | common/ext4/src/formatter.rs:954-1329 | the same for any run, failed operations included, against what the last state has at the path |
| `Imaging.PathHeldIff` | common/ext4/src/formatter.rs:954-1329 | in any good state: a path of the closed image has what was put there, nothing included, if and only if no leaf block of it is reserved |
| `Imaging.HeldIff` | common/ext4/src/formatter.rs:1313-1325 | a content in blocks is on the closed image, through its block field, if and only if none of its leaf blocks is reserved |
| `Imaging.TableIsOn` | common/ext4/src/formatter.rs:1471-1503 | the reader gets from the closed image, for every node that can be reached, the inode that the formatter had: type, links, size, block field, inline attributes, and the xattr block number in its 32 bits |
| `Imaging.SmallAllFree` | common/ext4/src/extent.rs:168-269 | if no file and no directory is over 35 GiB, no leaf block falls into a reserved area |
| `Imaging.GoodListable` | common/ext4/src/formatter.rs:1371-1445 | every state of a run with fewer than 2^32 inodes can be listed: names of 1 to 255 bytes, inode numbers that fit |
| `Walking.ImageIsTheTree` | common/ext4/src/reader.rs:198-256 | on any image with these inode records and these blocks outside the reserved areas, walking by name, with inodes and directories read from the image, and looking up in the tree agree on every path, present or absent |
| `Walking.FilesSurvive` | common/ext4/src/formatter.rs:1337-1467 | writing the directories loses no file: every file and symlink inode is unchanged and still leads to its content |
| `Running.FreshRunGood` | common/ext4/src/formatter.rs:390-459 | in every state of every run from a new image all invariants hold |
| `Running.RunGood` | common/ext4/src/formatter.rs:480-946 | every allowed operation sequence keeps all invariants, whatever fails on the way, and nothing behind the cursor changes |
| `Running.RunAllocatesApart` | common/ext4/src/formatter.rs:286-376 | over whole runs: spans of different inodes, index blocks included, are disjoint and below the cursor; blocks of an inode in use are disjoint from the deleted ones and, if they are payload or xattr blocks, not reserved |
| `Running.RunCountsLinks` | common/ext4/src/formatter.rs:776-946 | over whole runs: a file's 16-bit link count is the number of names leading to it, a directory's is 2 plus its child directories, an inode out of use has no name |
| `Running.ThreePlaces` | common/ext4/src/formatter.rs:892-946 | every payload range is in exactly one place: with its original entry while that is reachable, set aside while other names are left, deleted if and only if the last name is gone |
| `Running.WrittenThenRead` | common/ext4/src/formatter.rs:480-710 | a file that was written is read back after any further operations that leave its path alone, with its size and content, however the input was cut up |
| `Running.PathReads` | common/ext4/src/reader_io.rs:59-87 | in any good state whatever a path leads to can be read: files and long symlinks through the extent tree, short symlinks in the inode |
| `Running.RunLeaves` | common/ext4/src/formatter.rs:480-946 | a path that a run leaves alone leads to the same entry at its end, whatever the outcomes |
| `Running.StepLeaves` | common/ext4/src/formatter.rs:480-946 | the same for one operation, even one that fails |
| `Running.LinkBelowFile` | common/ext4/src/formatter.rs:803-832 | linking below any file succeeds and breaks the tree |
| `Running.LinkBelowFileHappens` | common/ext4/src/formatter.rs:803-832 | the concrete run: a new image, one empty file, one link |
| `Running.LinkOverOnlyName` | common/ext4/src/formatter.rs:810-832 | linking over a directory that holds the target's only name succeeds and names a cleared inode |
| `Running.LinkOverOnlyNameHappens` | common/ext4/src/formatter.rs:810-832 | the concrete run: a new image, one empty file in a directory, one link over the directory |
| `Linking.LinkSoundIff` | common/ext4/src/formatter.rs:776-832 | link keeps the filesystem sound exactly if it makes no entry, or its parent is a directory, the target keeps a name outside what is replaced and has fewer than 65535 of them; one that makes none, by an error or because it is there, changes nothing |
| `Linking.LinkAddsExactly` | common/ext4/src/formatter.rs:776-832 | a safe link adds exactly its path, as another name of the target's inode; what it replaces is gone; no content is lost |
| `Counting.LinkWraps` | common/ext4/src/formatter.rs:819-832 | at 65535 names outside what is replaced, link succeeds and the target, still a file, counts 0 links |
| `Counting.ThenUnlinkClears` | common/ext4/src/formatter.rs:892-930 | unlinking any one of its names then clears an inode that another path leads to |
| `Counting.TooManyLinksHappen` | common/ext4/src/formatter.rs:776-832 | the concrete run: a new image, one file, 65534 allowed links, and one more |
| `Dots.UnlinkSoundIff` | common/ext4/src/formatter.rs:840-946 | unlink keeps the filesystem sound if and only if the path does not end in a dot, or is a whiteout, or leads to nothing or the root |
| `Dots.UnlinkIsNamed` | common/ext4/src/formatter.rs:840-946 | in all these cases unlink does what it does for the path without dots |
| `Dots.TwiceClears` | common/ext4/src/formatter.rs:884-930 | two unlinks by a path that ends in a dot leave a directory in the tree whose inode is cleared |
| `Dots.UnlinkFreesIff` | common/ext4/src/formatter.rs:884-946 | unlinking the last name of an inode leaves it without links if and only if it is no directory |
| `Dots.NamelessFreedIff` | common/ext4/src/formatter.rs:840-946 | in every sound state, of the inodes without a name exactly the directories still have links |
| `Linking.CreateThroughLink` | common/ext4/src/formatter.rs:497-543 | what create does at or below a hard-link entry: reported as made and not made, or failed with the tree untouched, or a hard-link entry with a child |
| `Creating.CreateWell` | common/ext4/src/formatter.rs:480-710 | create, however it ends, keeps all invariants; success adds exactly the path and its missing ancestors, failure leaves every path off the way |
| `Creating.NewEntry` | common/ext4/src/formatter.rs:693-710 | the entry of a successful create is the newest inode, of the kind asked for, with one link |
| `Creating.CreateShaped` | common/ext4/src/formatter.rs:480-710 | whatever create goes through, hard-link entries too, the parts of the tree fit together afterwards |
| `Creating.StowPast` | common/ext4/src/formatter.rs:629-691 | storing content, or giving up on the way, changes nothing behind the cursor |
| `Keeping.CreateKept` | common/ext4/src/formatter.rs:480-710 | create loses no content of other inodes, and what it adds holds what it was given |
| `Keeping.StowAvoids` | common/ext4/src/formatter.rs:286-376 | blocks given to a file avoid the reserved areas |
| `Pruning.UnlinkRemovesExactly` | common/ext4/src/formatter.rs:840-946 | unlink removes exactly the entry and all below it, a whiteout exactly what is strictly below; it fails exactly for a whiteout of something that is no directory, and then changes nothing |
| `Namespace.LeafKeepsInv` | common/ext4/src/formatter.rs:884-946 | removing a childless node keeps tree shape, kinds and all link counts; a removed directory's inode keeps one link |
| `Ownership.LeafKeepsOwned` | common/ext4/src/formatter.rs:892-946 | removing a childless node keeps block ownership exact: original entries, set-aside lists, deleted list |
| `Ownership.SpansDisjoint` | common/ext4/src/formatter.rs:301-376 | ranges of different inodes never overlap |
| `Ownership.LiveNotDeleted` | common/ext4/src/formatter.rs:896-946 | no range of an inode in use overlaps the deleted list |
| `Growing.AddEntrySound` | common/ext4/src/formatter.rs:629-710 | registering a new inode and its node keeps every invariant |
| `Growing.AddLinkSound` | common/ext4/src/formatter.rs:819-832 | a new name under a directory for a file in use keeps every invariant |
| `Growing.LookupGrown` | common/ext4/src/file_tree.rs:106-116 | a new entry appears at its path, and every other path leads where it led |
| `FileTree.LookupIff` | common/ext4/src/file_tree.rs:79-149 | a path is looked up to a node if and only if the node is attached and its parent chain spells the path |
| `FileTree.AddAttaches` | common/ext4/src/file_tree.rs:106-116 | adding a child attaches exactly the new node, at its parent's path and its own name |
| `FileTree.RemoveDetaches` | common/ext4/src/file_tree.rs:118-128 | removing a childless child detaches exactly that node; no other node's path changes |
| `InPlace.Tree.Find` | common/ext4/src/file_tree.rs:79-104 | the loop over components finds what the lookup function says |
| `InPlace.Tree.Add` | common/ext4/src/file_tree.rs:106-116 | the node is appended and listed with its parent; its index is returned |
| `InPlace.Tree.Remove` | common/ext4/src/file_tree.rs:118-128 | the first child of that name leaves the list, the node vector stays |
| `InPlace.Tree.PathTo` | common/ext4/src/file_tree.rs:130-149 | the walk up the parents ends and rebuilds the node's path |
| `Payload.ChunksDoNotMatter` | common/ext4/src/formatter.rs:318-362 | however the reader cuts the content up, image, cursor and ranges are those of writing it in one go |
| `Payload.AcceptedSizes` | common/ext4/src/formatter.rs:341-362 | the reader loop takes exactly the contents of up to 128 GiB |
| `Placement.WriteLands` | common/ext4/src/formatter.rs:301-339 | the ranges are ascending, maximal and between start and cursor, and read back to back they are the content and padding of less than a block |
| `Placement.WriteForward` | common/ext4/src/formatter.rs:318-339 | cursor and size only grow; blocks before the cursor are never touched |
| `Allocation.WriteAvoids` | common/ext4/src/formatter.rs:273-339 | no payload block lies in a reserved area, also while the area grows with the image |
| `Allocation.WriteDense` | common/ext4/src/formatter.rs:273-339 | no block is wasted: between old and new cursor every block is payload or reserved |
| `Allocation.AtMost57Ranges` | common/ext4/src/formatter.rs:240-339 | no file ever has more than 57 ranges, wherever it starts and however long it is |
| `Geometry.CheckPowerOf` | common/ext4/src/formatter.rs:240-248 | the division loop recognises exactly the positive powers of its base |
| `Geometry.AtMost25Sparse` | common/ext4/src/formatter.rs:251-257 | below 2^17 groups at most 25 carry a superblock |
| `Geometry.ReservedEndIsNext` | common/ext4/src/formatter.rs:273-299 | one step of the skip loop reaches the first block that is not reserved, and all before it are |
| `Geometry.AreaMonotone` | common/ext4/src/formatter.rs:190-211 | a growing image never shrinks its descriptor area |
| `Extents.ExtentsRoundTrip` | common/ext4/src/extent.rs:94-378 | the block field written for any ranges parses back to them, cut at 32768 blocks, on every image that keeps the index blocks |
| `Extents.LeavesNumbered` | common/ext4/src/extent.rs:53-91 | the leaves number the file's blocks contiguously from 0 and cover them all |
| `Extents.LeafCount` | common/ext4/src/extent.rs:53-91 | a file needs at most one leaf per 32768 blocks and one per range |
| `Extents.FillLeaves` | common/ext4/src/extent.rs:53-91 | the loop cuts the ranges into exactly the specified leaves |
| `Extents.NodeBuffer` | common/ext4/src/extent.rs:133-165 | the buffer of an extent node holds its header and leaves |
| `Extents.IndexBuffer` | common/ext4/src/extent.rs:168-269 | the index buffer points at the leaf blocks in order |
| `Extents.FieldPointers` | common/ext4/src/extent.rs:168-269 | a block field points at exactly the leaf blocks written with it, consecutive from the cursor on |
| `Extents.ParseFrame` | common/ext4/src/extent.rs:289-378 | parsing a block field depends on nothing but the leaf blocks it points at |
| `Extents.NeedsLeafBlock` | common/ext4/src/extent.rs:330-378 | a field with a leaf block that was wiped cannot be parsed |
| `Contents.StowWell` | common/ext4/src/formatter.rs:629-691 | whatever create stores, of any size, chunking and start, can be read back through the block field, and later too while blocks below the cursor are kept |
| `Contents.NeverTooDeep` | common/ext4/src/extent.rs:168-186 | a file of up to 128 GiB has at most 1081 leaves, so the assertion on four index blocks never fails |
| `Contents.FilesRefused` | common/ext4/src/formatter.rs:341-362 | a regular file is refused exactly if it is over 128 GiB |
| `Contents.StowSturdy` | common/ext4/src/formatter.rs:286-376 | stored content survives whatever is written into reserved blocks if and only if none of its leaf blocks is one; up to 35 GiB none is |
| `Contents.StowPlaces` | common/ext4/src/formatter.rs:629-691 | all blocks that the stored block field leads to, payload and leaf blocks, lie between the old and the new cursor |
| `Reaching.Reach` | common/ext4/src/formatter.rs:286-339 | every block behind its group's largest possible area can be made the last block of a file |
| `Reaching.LateLeafReserved` | common/ext4/src/extent.rs:244-269 | the layout behind it: in a new image of any size, one file of about 91 GiB has its second leaf block in the first block of group 729, so that its content depends on a reserved block; that closing destroys it is `Overwriting.LateLeafLost` |
| `Formatting.Formatter.constructor` | common/ext4/src/formatter.rs:390-459 | a new image is the empty filesystem with `/lost+found` |
| `Formatting.Formatter.SkipReservedBlocks` | common/ext4/src/formatter.rs:286-299 | the loop ends behind the reserved area |
| `Formatting.Formatter.WritePayload` | common/ext4/src/formatter.rs:318-339 | the loop leaves image, cursor, size and ranges as specified |
| `Formatting.Formatter.WriteFromReader` | common/ext4/src/formatter.rs:341-362 | the reader loop stores the chunks or stops at the first that makes the file too big |
| `Formatting.Formatter.WriteExtentTree` | common/ext4/src/extent.rs:94-269 | the block field and leaf blocks are written as specified; refused without a change if a fifth index entry is needed |
| `Formatting.Formatter.StoreContent` | common/ext4/src/formatter.rs:629-691 | each kind of content, and each refusal, leaves the store as specified |
| `Formatting.Formatter.Unlink` | common/ext4/src/formatter.rs:840-946 | for every path, a final dot included: the recursion by paths over copied child names removes what the tree recursion on nodes removes |
| `Formatting.Formatter.Link` | common/ext4/src/formatter.rs:776-832 | outcome and whole new state as specified; no change before all checks are passed |
| `Formatting.Formatter.Create` | common/ext4/src/formatter.rs:480-710 | outcome and whole new state as specified, parents made by recursion, hard-link entries on the way included |
| `Formatting.Formatter.BreadthFirst` | common/ext4/src/formatter.rs:1337-1358 | the queue visits every attached node exactly once |
| `Formatting.Formatter.CommitDirectory` | common/ext4/src/formatter.rs:1360-1467 | the list of one directory is written and its inode points at it |
| `Formatting.Formatter.CommitDirectories` | common/ext4/src/formatter.rs:1337-1467 | all directories are written, breadth first, up to the first error |
| `Formatting.Formatter.RaiseSize` | common/ext4/src/formatter.rs:984-1007 | the size is raised until groups and data fit and then to whole groups |
| `Formatting.Formatter.Close` | common/ext4/src/formatter.rs:954-1329 | the whole of closing: succeeds exactly if the directories are written and the descriptors have room, and then the image is the one that the list of writes describes |
| `Committing.CommitAllHolds` | common/ext4/src/formatter.rs:1337-1467 | every directory's inode leads to its list, no other inode is touched, nothing behind the cursor changes |
| `Committing.CommitSucceeds` | common/ext4/src/formatter.rs:1337-1467 | directories of up to 128 GiB are all written, none is refused |
| `Committing.SortKidsSorted` | common/ext4/src/formatter.rs:1402-1404 | children are listed in the order of their inode numbers |
| `Directories.DirectoryRoundTrip` | common/ext4/src/dir.rs:41-168 | whole blocks come out, and parsing them block by block gives back every entry in order |
| `Directories.PackKeeps` | common/ext4/src/dir.rs:41-96 | no entry is lost, repeated or moved, none crosses a block, and at least 12 bytes stay free for the terminator |
| `Directories.DirBuffer.Write` | common/ext4/src/dir.rs:41-96 | an entry goes into the current block, or closes it and opens the next if it and a terminator do not fit |
| `Directories.DirBuffer.Finish` | common/ext4/src/dir.rs:98-133 | the terminator fills the rest of the block, which is always at least 12 bytes |
| `Directories.WriteDirectory` | common/ext4/src/formatter.rs:1371-1445 | the buffer of a directory is the packed entries |
| `Directories.ReadEntries` | common/ext4/src/dir.rs:142-168 | the parsing loop ends on every input and returns what the recursive parser does |
| `Bitmaps.BlockBitmap` | common/ext4/src/formatter.rs:1051-1093 | a bit is set if and only if the block is below the data end or reserved, and not deleted; the count is exact |
| `Bitmaps.InodeBitmap` | common/ext4/src/formatter.rs:1095-1118 | a bit is set if and only if the inode is in use or past the last; the counts of inodes and directories in use and the last one in use are exact |
| `Bitmaps.EmptyInodeBits` | common/ext4/src/formatter.rs:1153-1160 | the inode bitmap of a group behind the data has exactly the bits past the last inode set |
| `Closing.CloseGroups` | common/ext4/src/formatter.rs:1036-1262 | for all groups, with and without data: both bitmaps byte for byte, every descriptor field (places, free blocks and inodes, directories, flags, unused inodes), and superblock totals that are the sums over all groups |
| `Closing.ChooseLayout` | common/ext4/src/formatter.rs:1589-1615 | the loop returns the candidate with fewest groups, the smallest such candidate |
| `Closing.GroupsSuffice` | common/ext4/src/formatter.rs:1589-1600 | the chosen groups hold all blocks and all inodes, so the table padding is never negative |
| `Closing.LayoutFits` | common/ext4/src/formatter.rs:963-980 | data, inode tables and bitmaps end within the groups |
| `Records.InodeRoundTrip` | common/ext4/src/types.rs:783-865 | an inode record decodes to the inode it was encoded from, inline attributes included, whatever stands in its other fields |
| `Records.DescriptorRoundTrip` | common/ext4/src/types.rs:610-645 | a group descriptor decodes to itself |
| `Records.SuperRead` | common/ext4/src/types.rs:343-565 | the reader takes from the superblock the inodes per group that were written |
| `Records.SuperAsInodes` | common/ext4/src/types.rs:468-565 | a superblock read as inode records: the first two have no links, the second no type |
| `Records.MarkedIff` | common/ext4/src/formatter.rs:1051-1118 | a bit of a bitmap block is set if and only if its number is in the set |
| `Records.ShownBytes` | common/ext4/src/formatter.rs:1051-1118 | a bitmap filled bit by bit is, byte for byte, the block for the set it shows |
| `Sealing.LayoutSane` | common/ext4/src/formatter.rs:963-1014 | the layout computed from cursor and inode count: data, tables and bitmaps end within the groups that share the table, every inode has a record and every group a descriptor |
| `Sealing.ClosedReads` | common/ext4/src/reader.rs:173-213 | after closing, the reader gets every inode number back as written, over superblock, descriptor and table, and number 7 as the resize inode, if no backup group starts among the blocks with inodes |
| `Sealing.ClosingIsSafe` | common/ext4/src/formatter.rs:954-1329 | if the area has not grown, every block below the cursor and outside the reserved areas is as it was |
| `Sealing.ClosingIsSafeIff` | common/ext4/src/formatter.rs:1009-1027 | of the blocks below the cursor closing writes only reserved ones if and only if the area is no larger than the one they are reserved for |
| `Sealing.TablesSafeIff` | common/ext4/src/formatter.rs:1313-1325 | with the table computed from the state: the copies miss the blocks with inodes, or all tables and bitmaps, if and only if no backup group starts among them |
| `Sealing.InodeLost` | common/ext4/src/formatter.rs:1313-1325 | where a superblock copy falls on the table, the first two inodes of that block read as without links |
| `Sealing.LeafOverwritten` | common/ext4/src/formatter.rs:1313-1325 | a block field with a leaf block in a reserved area cannot be parsed on the closed image: a superblock copy stands in one of its leaf blocks, and never looks like an extent node |
| `Sealing.ClosedThere` | common/ext4/src/reader.rs:173-213 | superblock, descriptor and record of every inode lie within the image file |
| `Sealing.ResizeReads` | common/ext4/src/formatter.rs:1514-1585 | on the closed image the resize inode leads over its double-indirect block to each reserved descriptor block, and that to each of its copies |
| `Sealing.BlocksMarked` | common/ext4/src/formatter.rs:1044-1239 | on the closed image the bit of a block, found through superblock group and descriptor, is set if and only if the block is in use, in groups with data, or metadata, in the others |
| `Sealing.InodesMarked` | common/ext4/src/formatter.rs:1095-1160 | on the closed image the bit of an inode is set if and only if it is reserved or has links |
| `Finishing.WriteResize` | common/ext4/src/formatter.rs:1554-1585 | the loops over reserved blocks and backup groups write the resize blocks as listed |
| `Finishing.WriteTable` | common/ext4/src/formatter.rs:1471-1503 | the loop over inodes and padding writes the inode table as listed |
| `Finishing.WriteBitmaps` | common/ext4/src/formatter.rs:1044-1239 | both loops over groups write all bitmaps as listed, and collect descriptors and totals |
| `Finishing.WriteFront` | common/ext4/src/formatter.rs:1246-1312 | descriptor table and superblock are written as listed |
| `Finishing.WriteBackups` | common/ext4/src/formatter.rs:1313-1325 | the copies are written as listed |
| `Finishing.WriteMetadata` | common/ext4/src/formatter.rs:1016-1325 | everything in order is the list of writes |
| `Marking.SpanMarked` | common/ext4/src/formatter.rs:1051-1093 | of the blocks between an inode's first and last, payload, xattr and leaf blocks and skipped ones, the closed image marks all while the inode is in use, and all but payload and xattr blocks once it is cleared |
| `Marking.LiveMarked` | common/ext4/src/formatter.rs:1051-1093 | every block that a reachable inode of the closed image leads to, directories' blocks and leaf blocks included, is marked, if no backup group starts among tables and bitmaps |
| `Overwriting.RunClosingIff` | common/ext4/src/formatter.rs:1009-1027 | after any run, closing writes into no block that was free for content if and only if the area has not grown since construction |
| `Overwriting.FileLost` | common/ext4/src/formatter.rs:1009-1027 | the concrete run: 4096 bytes asked for, one file of over 16 GiB; closing is not refused, and the file's content is not on the image |
| `Overwriting.RootLost` | common/ext4/src/formatter.rs:1313-1325 | the concrete run: 4096 bytes asked for, one file of 32732 blocks; every call succeeds, the root inode is overwritten and no path leads anywhere |
| `Overwriting.LateLeafLost` | common/ext4/src/extent.rs:244-269 | the concrete run: 740 groups asked for, one file of about 91 GiB; every call succeeds, the area has not grown, all directories are legible, and the file is not on the closed image |
| `Overwriting.ClosesWellHappens` | common/ext4/src/formatter.rs:954-1329 | a run that closes well: one file of 2000 blocks |
| `Metadata.ResizeBlocks` | common/ext4/src/formatter.rs:1554-1585 | double-indirect block and copy lists as specified, every slot, zeros elsewhere; their bytes on the image are `Sealing.ResizeReads` |
| `Metadata.SlotsFit` | common/ext4/src/formatter.rs:1554-1585 | every index and slot fits one block |
| `Metadata.ResizeDistinct` | common/ext4/src/formatter.rs:1554-1585 | all blocks the resize inode reaches are distinct and reserved |
| `Metadata.ResizeCount` | common/ext4/src/formatter.rs:1514-1546 | the recorded block count is the double-indirect block and exactly the blocks reached |
| `Reading.ReadExtents` | common/ext4/src/extent.rs:289-378 | the parsing loops return what the recursive parser does, for every block field and image |
| `Reading.ReadFromExtents` | common/ext4/src/reader_io.rs:219-287 | any request gets, of each extent, what the image file has of it, however short the reads; if all extents lie within the file, exactly its window of their bytes |
| `Reading.GotWhole` | common/ext4/src/reader_io.rs:219-287 | what a request gets extent by extent is the window of the extents read back to back, if none reaches past the end of the image file |
| `Reading.ReadContent` | common/ext4/src/reader_io.rs:59-87 | the requested part is computed as specified, also where the field cannot be parsed or points past the file; if the inode leads to a content within the file, any offset and count get exactly that part of it |
| `Reading.RequestIs` | common/ext4/src/reader_io.rs:72-87 | what is requested of a content within the image file is its window |
| `Reading.ReadTarget` | common/ext4/src/reader_io.rs:294-313 | a symlink's target is read back, short or long |
| `Resolving.ResolvePath` | common/ext4/src/reader_io.rs:110-209 | the loop ends on every image and agrees with the recursive resolver, directories and links that cannot be read included; a parent is always on the stack, so the lookup of `..` is never needed |
| `Resolving.FoundIsReached` | common/ext4/src/reader_io.rs:110-209 | whatever is found is reached from the root through directory entries |
| `Resolving.ResolvesLikeWalk` | common/ext4/src/reader_io.rs:148-204 | on any image file, where directories can be read and without dots and symlinks to follow, resolving finds what going down by name finds, and answers with "not found" or "no directory" where that leads nowhere |
| `Resolving.NormalizeJoin` | common/ext4/src/reader_io.rs:322-332 | splitting a joined path gives its components back |
| `Traversing.Traversal.Enter` | common/ext4/src/reader.rs:77-133 | an entry becomes a hard link if its inode has a node, else a node; it fails exactly on an inode whose record, block field or, for a directory, blocks cannot be read |
| `Traversing.Traversal.Traverse` | common/ext4/src/reader.rs:72-136 | on any image file the traversal ends; it succeeds if and only if everything that some chain of entries leads to can be read, block fields of files and symlinks included; nodes then have distinct inodes, hard links are right, nodes and links are as many as entries |
| `Traversing.OpenImage` | common/ext4/src/reader.rs:43-136 | an image file is opened if and only if everything that can be reached on it can be read, with inodes, block fields and directories taken from its bytes; tree and hard links are then complete |
| `Traversing.TraversalComplete` | common/ext4/src/reader.rs:72-136 | at the end every directory was opened exactly once and every entry in it recorded |
| `Traversing.ReachedHasNode` | common/ext4/src/reader.rs:72-136 | every inode that some chain of entries leads to has a node |
| `Traversing.NodeIsReached` | common/ext4/src/reader.rs:72-136 | every node is at the end of some chain of entries |
| `HardLinks.CheckAcyclic` | common/ext4/src/unpack.rs:194-209 | true exactly if no link comes back to itself, on every finite map |
| `HardLinks.ResolveLink` | common/ext4/src/unpack.rs:211-224 | an answer is the end of the chain; without cycles every link has one, and it is no link |
| `HardLinks.EndUnique` | common/ext4/src/unpack.rs:211-224 | a chain has at most one end |
| `Xattrs.CompressName` | common/ext4/src/xattr.rs:68-93 | decompression undoes compression for every name, and the longest fitting prefix is taken |
| `Xattrs.XattrState.Add` | common/ext4/src/xattr.rs:193-219 | accepted exactly if the name is short enough and inode or block has room, into exactly one list; a refusal changes nothing |
| `Xattrs.XattrState.WriteInline` | common/ext4/src/xattr.rs:237-274 | after any adds the inode area is written without fail and reads back as the attributes placed there |
| `Xattrs.XattrState.WriteBlock` | common/ext4/src/xattr.rs:283-336 | after any adds the block is written without fail, with the hash of every entry, and reads back as its attributes, a permutation in order |
| `Xattrs.Hash` | common/ext4/src/xattr.rs:110-144 | the loops over name bytes, words and tail compute the specified hash |
| `Xattrs.Pack` | common/ext4/src/xattr.rs:338-363 | entries growing forward and values growing backward never meet and leave the terminator |
| `Xattrs.PackRoundTrip` | common/ext4/src/types.rs:1177-1197 | decoding gives back every name, index and value |
| `Attributes.PackAttributes` | common/ext4/src/formatter.rs:584-613 | what create is given as attributes is readable from the inode area and the block, together and each once; refused only for a long name or lack of room |
| `Attributes.AttributesThere` | common/ext4/src/formatter.rs:598-603 | the xattr block of every reachable inode is on the closed image as create filled it |
| `Attributes.AttributesRead` | common/ext4/src/formatter.rs:584-613 | create with attributes, any later operations that leave the path alone, close: the attributes read from the inode record and the xattr block at the path of the closed image are, each once, those that were packed |
| `Layers.Sanitize` | runtime/ocidisk/src/layer.rs:82-107 | the component loop cleans the path or refuses it as specified |
| `Layers.CleanIsSafe` | runtime/ocidisk/src/layer.rs:82-107 | a cleaned path has no dots; a path is refused exactly if it goes up or holds a NUL |
| `Layers.WhiteoutStays` | runtime/ocidisk/src/layer.rs:121-131 | a whiteout without dot names reaches only below the directory it stands in |
| `Layers.WhiteoutOfDotIff` | runtime/ocidisk/src/layer.rs:121-131 | a whiteout deletes a path that ends in a dot if and only if its file name is `.wh..` |
| `Layers.DotWhiteoutHappens` | runtime/ocidisk/src/layer.rs:121-131 | the concrete layer: a directory and twice `.wh..` in it; all succeed, and the directory in the tree has a cleared inode |
| `Layers.RemovedDirectoryHappens` | common/ext4/src/formatter.rs:884-946 | the concrete run: a new image, one directory, unlinked; no path leads to it and its inode keeps one link |
| `Layers.ApplyLayer` | runtime/ocidisk/src/layer.rs:9-54 | a layer goes through exactly if all its entries are acceptable and all its operations succeed; then all were done in order; the image is good however it ends |
| `Blobs.RunIsSafe` | runtime/ocidisk/src/store.rs:704-846 | over every run of concurrent downloaders with crashes anywhere: a file at a blob path hashes to its digest, and a returned path is present and matching |
| `Blobs.StepKeeps` | runtime/ocidisk/src/store.rs:704-846 | every file operation keeps the invariant; a matching blob stays byte for byte; a clean store stays clean |
| `Blobs.ReturnedStays` | runtime/ocidisk/src/store.rs:704-846 | a returned path keeps its bytes for good |
| `Blobs.RunExcludes` | runtime/ocidisk/src/store.rs:717-719 | no two downloaders are at work on one digest |
| `Blobs.MismatchClears` | runtime/ocidisk/src/store.rs:1143-1215 | verification fails exactly on a wrong size or hash of what was kept plus what was streamed, and then the part is gone |
| `Blobs.NextAttemptIsFresh` | runtime/ocidisk/src/store.rs:1156-1169 | while no part has been opened anew, whoever tries next starts at offset zero |
| `Blobs.FirstFetchIff` | runtime/ocidisk/src/store.rs:741-764 | with nothing on disk a layer can be fetched if and only if its size is positive and some content has that size and digest |
| `Blobs.AlwaysFetchable` | runtime/ocidisk/src/store.rs:739-820 | whatever crashes left behind, a downloader that finds the lock free can still fetch a layer of positive size |
| `Images.VisibleIsComplete` | runtime/ocidisk/src/store.rs:317-415 | over every run: an image directory is visible only if its disk is finished and all layers of its manifest were applied, in order, from content that hashes to their digests |
| `Images.StepKeeps` | runtime/ocidisk/src/store.rs:317-415 | every step keeps that, and an image in place is never changed |
| `Images.FetchedIsThere` | runtime/ocidisk/src/store.rs:340-365 | a fetched blob is still there and matching when it is read without its lock |
| `Broker.FrameRoundTrip` | runtime/plugins/src/lib.rs:422-520 | every message with a text of up to 256 bytes is encoded, in one frame size, and decodes to itself; a longer one is refused |
| `Broker.RunIsSafe` | runtime/plugins/src/lib.rs:125-150 | over all interleavings with an honest peer: a stream goes to the call it was opened for and to no other; the table holds only issued and unanswered requests |
| `Broker.StepKeeps` | runtime/vmmon/src/endpoints.rs:427-501 | every step of plugin, socket and broker keeps the invariant, and an answer once given never changes |
| `Broker.AnsweredOnce` | runtime/plugins/src/lib.rs:254-330 | over all runs, with packets of any content and number arriving: each request is completed at most once, and a stream given to it came in a packet for it |
| `Broker.RunCore` | runtime/plugins/src/lib.rs:254-330 | over all runs, whatever arrives, a result once given never changes |
| `Broker.CoreStep` | runtime/plugins/src/lib.rs:322-330 | every step, arbitrary packets included, keeps that; a reply nobody waits for only leaves the socket |
| `Broker.ReceiveRightIff` | runtime/plugins/src/lib.rs:300-330 | receiving a reply keeps every stream with the call it was opened for if and only if the reply is truthful or nobody waits for it |
| `Broker.TruthfulRunRight` | runtime/plugins/src/lib.rs:254-330 | a run in which what is received is truthful keeps all streams right |
| `Broker.LieHappens` | runtime/plugins/src/lib.rs:300-330 | the concrete run in which a made-up reply gives a call a wrong stream |
| `Broker.GetsAnswered` | runtime/plugins/src/lib.rs:254-316 | from every state, a waiting call is answered in some run in which nothing breaks |
| `Broker.AnswerableIff` | runtime/plugins/src/lib.rs:254-351 | a waiting call can be answered if and only if the control reader still runs |
| `Broker.Stranded` | runtime/plugins/src/lib.rs:125-150 | the concrete run in which a call registers after the reader has stopped |

## Left out

- Creating.CreateWell: asks for `Plain`, no hard-link entry on the way; that this is exactly when create is right is `Meaning.CreateRightIff`.
- Meaning.CreateMeans: asks for `Plain`, as `Creating.CreateWell` does; together with `Meaning.CreateRightIff` every successful create is covered.
- Creating.NewEntry: asks for `Plain`, as `Creating.CreateWell` does.
- Keeping.CreateKept: asks for `Plain`, as `Creating.CreateWell` does.
- Layers.ApplyLayer: asks that the layer's operations are `Allowed`; the code does not check it.
- Walking.ImageIsTheTree: paths without the names `.` and `..`, which directories list for themselves.
- Opening.ReaderOpensIff: names of entries are bytes; the reader's lossy conversion of names that are not UTF-8 is not modelled.
- Answering.ReadFileMeans: the path and the targets of symlinks are bytes, not text.
- Broker.FrameRoundTrip: native byte order is taken as little-endian, and texts as bytes, not UTF-8.
- Broker.RunIsSafe: request numbers do not wrap at 2^64.
- Blobs.RunIsSafe: a crash ends a process; loss of written data by a crash of the host is not modelled.
- Images.VisibleIsComplete: only images from a registry; tar files and archives take the same staging and rename.
- Records.SuperRead: the reader is modelled for blocks of 4096 and inodes of 256 bytes, the ones the formatter writes.
- Sealing.ClosedReads: the xattr block number is read back modulo 2^32, the width of its field.
- Attributes.PackAttributes: the order in which a hash map hands out the attributes is a parameter.
- A file that is too big leaves what create removed or made before it: stated by `Creating.CreateWell`, no clean-up is claimed.
- Timestamps, owners, permission bits, labels, UUIDs, checksums and block counts of inodes: they fill the rest of records and superblock, which is a parameter of closing.
- `create` with a link target and a mode that is no symlink's: the two are taken to agree.
- The listening side of the plugin protocol, retries and back-off.
- Tar, gzip, zstd and registry access; locks are exclusive steps.
- `common/policy`, `protocol`, the guest, the command line, profiles and provisioning: lookups, system calls and plumbing.
