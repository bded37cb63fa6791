# A verified model of overlayfs with block-level copy-on-write

The repository is Linux overlayfs with a block layer added: copying a file up leaves the upper file empty, and a
status array decides block by block whether bytes come from the lower or the upper file. This project models the four
parts whose correctness is hardest to see from the code, each against a simple definition of what it should do.

**Block-level copy-up** (`FlatFile`, `BlockCow`). Two real files and a status array stand for one flat file. Every
write and append, including one whose edge copying fails half way, keeps the invariant `Agrees` and acts on the flat
file as `pwrite` or an append would; `RunRefines` carries this over every run from copy-up on, past the point where
`cow_status` is cleared, and `RunReads` says that after any run of writes within the file and appends every in-range
read returns the flat bytes. A write fails exactly if the copy of an edge block that it needs
fails (`NeededCopies`). Two things are false of the code, and the exact conditions are proved: a read inside the
file is short exactly when it reaches into the *tear* that a write beyond the end leaves behind (`InRangeReadExact`,
`TornAfterWrite`, `GapWriteTears`); and a read past the end of the file never returns exactly on the requests of
`Hangs`, where the end lies in the last lower block and that block is copied (`BlockReadIter`, `HangReached`).

**The merged namespace** (`Paths`, `Layers`, `LookupCode`, `LayerPaths`, `MergedView`, `UpperSteps`, `Moves`,
`Whiteouts`, `OverlayDir`, `OverlayRuns`). `Layers` defines lookup through the layer stack on path components;
`LookupCode` is the code on strings and buffers, which rewrites the name while walking it from its end, proved to compute
the same. `LayerPaths` says what that comes to on the layer trees, without any lookup data: the *trail* of a path is what
each layer holds at it, where the path for the next layer is got by replacing each component that carries a relative
redirect in its place and everything up to one that carries an absolute redirect by its value, and the layers below are
not searched iff an opaque directory on the path has no absolute redirect after it (`NextPath`, `Hidden`, `HiddenIff`).
The loop over the layers, which follows directories and starts again at the roots when it meets an absolute redirect,
computes trails (`LowerLoopIsTrail`, `RelIsTrail`), so lookup does (`MeetIsTrail`); with redirects not followed it merges
by name and refuses them (`MeetByName`). `MergedView` derives what every path of the merged tree shows. On top of that,
create, unlink, rmdir and rename (with copy-up, whiteouts, opaque marks and redirects on the upper tree) are proved, for
any lower layers, to change what every path shows exactly as the operation on a plain tree would, and to leave all of it
alone when they fail. What the errors mean is told from the dentries alone (`RenameErrorMeans`, `RemovableMeans`). Every
operation keeps an upper tree free of whiteouts in directories with nothing below (`Whiteouts`), and so from such a tree
`OverlayRuns.Run` can say, for every sequence of operations, that the merged view is what they make of a plain tree and
that nothing is refused which that tree allows, but the move of a directory that has lower layers behind it where no
redirect may be written or the path is too long.

**Merged readdir** (`NameTree`, `MergedList`, `Readdir`, `DirCache`, `DirRuns`, `EmptyDir`, `ImpureDir`). The list and
tree built layer by layer are the list that `MergedList` defines (topmost entry wins, lowest layer's names first), and it shows a
name iff lookup of it is positive. `DirCache` has the reference-counted, versioned cache; `DirRuns` proves that reading a
directory in any pieces, going back and forth, gives each entry once. Only merge directories note every change in their
version, so a listing read from offset 0 can be out of date in a directory that is listed through the cache but is no
merge directory: `Modified` says exactly when a change has that effect, `RemovedButListed` shows it, and `SeesCurrent`
that it never happens in a merge directory. `EmptyDir` proves that clearing the listed whiteouts empties the upper
directory, `ImpureDir` that every entry is listed with the number that stat reports for it.

**Step protocols** (`NlinkFormat`, `Nlink`, `CopyUpProtocol`, `InodeMap`). `Nlink` logs what is on disk after every
single change that hardlink copy-up, link and unlink make; any logged state can be what a crash leaves. The recomputed
link count is right exactly if the lower file has more than one link and no link that a failed cleanup left in the work
directory was there when the count was stored (`RecountIff`); `LeftoverMiscounts` is a run after which it is wrong.
`OrphanIff` says exactly which indexes the next mount calls orphan. `CopyUpProtocol` is copy-up as a state machine for
any number of threads, interleaved with renames; a call succeeds exactly if no real operation failed in it (`DoneMeans`).
`InodeMap` has filesystem ids, the mapping of inode numbers, and stat, whose numbers copy-up keeps (`CopyUpKeepsNumber`).
Real operations that can fail do so as a parameter says, so success is stated as exactly as failure.

## Model

| member | source | states |
|---|---|---|
| BlockCow.GetBlock | util.c:941-944 | The block id of a position brackets it; ids start at 1 and an aligned position belongs to the next block |
| BlockCow.BlockCountFor | copy_up.c:447-483 | The number of blocks just covers the size |
| BlockCow.CountSetUpdate | file.c:1016-1025 | Marking one unset block raises the number of set blocks by exactly one |
| BlockCow.CountSetFull | file.c:1041-1044 | The count reaches the length iff every block is set |
| BlockCow.CopyUpAgrees | copy_up.c:454-483 | Copy-up, also with O_TRUNC, sets up a state that stands for the lower file, or for the empty one |
| BlockCow.EdgeCopyAgrees | file.c:894-994 | Edge copying, complete or broken off anywhere, never changes what the file means, so it never overwrites newer upper bytes |
| BlockCow.AppendOffset | file.c:894-928 | After the edge copy of an append the real upper file ends where the flat file does |
| BlockCow.KeptByteAgrees | file.c:894-1025 | A byte outside the written range keeps its value whichever file it is now read from |
| BlockCow.NewByteAgrees | file.c:894-1025 | A byte written, or put past the old end, is the flat file's byte |
| BlockCow.LastCopiedFullLength | file.c:1016-1025 | Once the last block is copied, the upper file has the full length |
| BlockCow.AllCopiedIsUpper | file.c:1041-1044 | When the copied count reaches the block count, the upper file alone is the flat file in bytes and length |
| BlockCow.WriteRefines | file.c:879-1046 | Every write or append, failed edge copies included, keeps the block-state invariant and acts on the flat file |
| BlockCow.RunRefines | file.c:879-1046 | After any run of writes and appends from copy-up, the two files together hold what a single flat file would |
| BlockCow.RunUntorn | file.c:879-1046 | No run of writes at or before the end and appends, failed ones included, tears the file |
| BlockCow.RunReads | file.c:410-538 | After any such run every in-range read terminates and returns exactly the bytes a single flat file would hold |
| BlockCow.InRangeReadExact | file.c:439-537 | A read inside the file returns exactly the flat bytes iff it does not reach into a tear, and always terminates |
| BlockCow.TornAfterWrite | file.c:896-1044 | Exactly which completed writes leave the file torn; none at or before the end of an untorn file does |
| BlockCow.GapWriteTears | file.c:515-533 | A concrete write beyond the end after which a read inside the file returns nothing |
| BlockCow.HangReached | file.c:482-494 | A concrete write after which a read past the end never returns |
| BlockCow.ChunkAgrees | file.c:459-534 | Within one block, the real file that the status entry selects has the flat file's bytes |
| BlockCow.StuckPiece | file.c:482-494 | A pass in a copied block that finds no byte is one that can never make progress |
| BlockCow.TailPass | file.c:443-457 | Above the last lower block one read of the upper file completes the request |
| BlockCow.Drain | file.c:482-533 | The inner read loops return what one read of the real file would |
| BlockCow.ReadPiece | file.c:459-534 | One pass of the read loop keeps the progress invariant, or the request is one that hangs |
| BlockCow.OvlInode.CopyUpInode | copy_up.c:444-483 | The inode after copy-up stands for the lower file, cow_status iff the size is not 0 |
| BlockCow.OvlInode.CopyUpBlock | copy_up.c:959-997 | A block copy puts a prefix of the lower bytes in place, all of them if it succeeds, and fails only when told to |
| BlockCow.OvlInode.CopyUpEdge | file.c:951-994 | Copying an edge block completes it, or fails with a prefix copied; complete blocks stay complete |
| BlockCow.NeededBlocks | file.c:894-994 | Only the first and the last block of a write can need a copy, and just when they are not copied yet and partly covered |
| BlockCow.OvlInode.CopyUpEdges | file.c:894-994 | Fails iff the copy of a needed edge block fails; on success both edge blocks are complete and the marked range is first to last block |
| BlockCow.OvlInode.MarkBlocks | file.c:1016-1025 | Marking sets exactly the range within the block count, and copy_count stays the number of set entries |
| BlockCow.OvlInode.BlockWriteIter | file.c:879-1046 | The code is a WriteStep, the new state stands for the flat file after the same write, and it fails iff a needed copy failed and else writes all |
| BlockCow.OvlInode.WriteIter | file.c:1049-1100 | The dispatch on cow_status acts as one flat file, with the same exact condition of failure |
| BlockCow.OvlInode.BlockReadIter | file.c:410-538 | The loop fails to terminate exactly on the requests of Hangs; otherwise it returns the bytes up to the limit and advances the position by them |
| BlockCow.OvlInode.ReadIter | file.c:541-581 | An in-range read of an untorn file returns exactly the flat bytes, before and after cow_status is cleared |
| Paths.ParseIffText | util.c:908-938 | Writing a redirect out and parsing it are inverse, and the accepted values are exactly the texts of valid redirects |
| Paths.GetRedirectXattr | util.c:908-938 | The scan accepts exactly single names and absolute paths without empty components |
| Paths.GetRedirect | dir.c:903-961 | The path filled into the buffer from its end is the path of the parts; it fails iff that is longer than the limit |
| Layers.LookupSingle | namei.c:194-278 | One component: a whiteout is never returned, only directories are walked through, the unwalked suffix of the rewritten name is unchanged |
| Layers.Walk | namei.c:280-318 | Walking an absolute name down one layer keeps a well-formed absolute name |
| Layers.LookupLayer | namei.c:280-318 | Lookup in one layer: is_dir is set exactly by a directory as last component, a file ends the search |
| Layers.LowerLoop | namei.c:884-981 | The loop over the layers terminates, also when an absolute redirect restarts it, and yields layers in strictly increasing order |
| Layers.LowerLoopKinds | namei.c:884-981 | The resulting stack is all directories, or the one file on which the search ended |
| Layers.IncreasingFits | namei.c:877-883 | No layer contributes twice, so a stack never exceeds the numlower slots allocated for it |
| Layers.Lookup | namei.c:805-1106 | A looked-up dentry is well formed: no whiteout as upper, an increasing lower stack of one kind |
| LookupCode.Compose | namei.c:37-55 | The buffer allocated for value and padding takes prefix, value and suffix, and holds their concatenation |
| LookupCode.RewrittenName | namei.c:37-59 | Replacing a component of the text, or all up to it, is replacing it in the path; the suffix stays |
| LookupCode.FirstComponent | namei.c:290-310 | The character before the unwalked part is '/', and the next slash delimits its first component |
| LookupCode.LookupData.CheckRedirect | namei.c:28-61 | The rewritten name is a well-formed path with the unwalked suffix unchanged, and the text of what Layers.CheckRedirect gives, whose meaning is in LayerPaths |
| LookupCode.LookupData.LookupSingle | namei.c:194-278 | The code on strings computes Layers.LookupSingle |
| LookupCode.LookupData.LookupLayer | namei.c:280-318 | The walk by distance from the end computes Layers.LookupLayer, terminates, and neither "off the rails" warning can fire |
| LookupCode.AskLayer | namei.c:884-975 | One turn of the loop decides as the answer of the layer demands |
| LookupCode.Advance | namei.c:884-981 | Each turn leaves fewer layers to ask and a free slot on the stack |
| LookupCode.LookupLowers | namei.c:877-981 | The loop with its stack computes Layers.LowerLoop; the stack is allocated whenever it is written |
| LookupCode.Lookup | namei.c:805-1106 | The whole lookup computes Layers.Lookup; an upper file means no stack was allocated, so the last warning cannot fire |
| LayerPaths.WalkIsPath | namei.c:280-318 | Walking an absolute name down one layer finds what is at that path, rewrites the name as the redirects on it say, fails iff one of them is invalid, and ends the search iff something is in the way or hides the layers below |
| LayerPaths.HiddenIff | namei.c:194-278 | The layers below are hidden iff an opaque directory on the path has no absolute redirect after it |
| LayerPaths.DirNotBlocked | namei.c:194-278 | On the way to a directory nothing but an opaque mark ends the search |
| LayerPaths.NameBelow | namei.c:28-61 | For one more component below a directory, the lookup finds what is at the longer path, and the name goes on as the next layer's path does |
| LayerPaths.LowerLoopIsTrail | namei.c:884-981 | An absolute name yields what each layer holds at it, the path being rewritten from layer to layer |
| LayerPaths.RelIsTrail | namei.c:884-981 | A name below a directory found on the trail of a path yields the trail of the longer path, also when the loop starts again at the roots |
| LayerPaths.LowerLoopByName | namei.c:884-981 | With redirects not followed, the loop merges by name, and a directory with a redirect is an error unless it is opaque or the last one |
| LayerPaths.RedirectRefused | namei.c:956-971 | With redirects not followed, the redirect of an upper directory leads to no lower directory |
| MergedView.LookupIsChild | namei.c:805-1106 | Through any layers, ovl_lookup computes the child that whiteout, opaque flag, redirect and lower stack determine |
| MergedView.MeetIsTrail | namei.c:805-1106 | With redirects followed, whatever the layers: in a directory found on the trail of a path, a name means what the layers hold on the trail of the path extended by the name or by the upper redirect |
| MergedView.MeetByName | namei.c:805-1106 | With redirects not followed, it means what the directory's lower directories hold under the name |
| MergedView.MeetNone | namei.c:884-981 | Without an upper entry a name is negative iff its topmost lower entry is missing or a whiteout |
| MergedView.MeetFresh | copy_up.c:810-871 | A fresh upper directory merges with the lower directories that the name showed before |
| MergedView.TopmostDecides | namei.c:194-278 | A name is positive iff the topmost physical entry is there and no whiteout |
| MergedView.MergedEmptyShowsNothing | readdir.c:912-953 | A directory in which every listed name is covered by a whiteout shows nothing |
| MergedView.ResolvePut | dir.c:85-114 | What replacing one upper entry does to the dentry of every path |
| MergedView.NegativeBelow | namei.c:805-1106 | Nothing is visible below a negative dentry |
| UpperSteps.CopyUpOne | copy_up.c:810-871 | Copying up one dentry below a copied-up parent changes nothing that any path shows |
| UpperSteps.PutView | dir.c:429-533 | What any path shows after one upper entry was replaced: as before elsewhere, the new entry merged with the lower stack below |
| Moves.PartsRenderLowerPath | dir.c:903-961 | The redirect rendered from names and stored redirects is the path of the lower directory |
| Moves.LowerPathReaches | dir.c:903-1018 | In any layers, lookup of that path reaches the same lower directories that the dentry merged with, redirects met in the layers included |
| Moves.LowerPathKept | dir.c:990-1018 | A dentry's lower path does not change when dentries elsewhere are marked or copied up |
| Moves.MarkedContent | dir.c:1176-1198 | With its redirect or opaque mark, a moved node has the same content under the new parent as under the old |
| Moves.MarkedNode | dir.c:990-1018 | The same for the mark that ovl_set_redirect writes, from any directory to any other |
| Moves.MoveView | dir.c:1020-1210 | After the upper rename of a marked node every path shows what a plain-tree rename gives |
| Moves.ExchangeView | dir.c:1020-1210 | After RENAME_EXCHANGE of two marked nodes the two subtrees have changed places and nothing else changed |
| OverlayDir.Overlay.LowerPositive | namei.c:1108-1161 | For a positive dentry: true iff the lower layers would show the name if the upper entry were gone |
| OverlayDir.Overlay.FindTopmost | copy_up.c:896-904 | The climb ends at a dentry that is not copied up, below one that is |
| OverlayDir.Overlay.CopyUp | copy_up.c:873-914 | Copying up with all ancestors terminates and changes nothing that any path shows |
| OverlayDir.Overlay.Create | dir.c:429-584 | Creation makes exactly the new object appear; a directory over a whiteout is empty in the merged view |
| OverlayDir.Overlay.ClearEmpty | dir.c:330-402 | Replacing a directory that shows nothing by an opaque empty one changes no view |
| OverlayDir.RemovableMeans | dir.c:816-835 | The code's test lets a directory be removed iff nothing shows below it, given that pure upper directories hold no whiteouts |
| OverlayDir.Overlay.RemoveReal | dir.c:712-814 | Removing the upper entry, or covering the lower ones with a whiteout, makes exactly that name disappear; it fails iff the upper directory is not empty |
| OverlayDir.Overlay.Remove | dir.c:712-878 | Removal succeeds exactly for a removable dentry and then makes exactly that name disappear, whether or not lower layers still hold it |
| OverlayDir.Overlay.PrepareMove | dir.c:1176-1198 | Setting redirect or opaque mark fails iff the path is too long, and changes no view |
| OverlayDir.Overlay.ChooseFlags | dir.c:1061-1074 | The flags leave nothing visible at the old name, whiteout switched or written as needed |
| OverlayDir.Overlay.FinishExchange | dir.c:1176-1200 | Two marks and the exchange swap the two subtrees, or fail without changing a view |
| OverlayDir.Overlay.FinishOverwrite | dir.c:1176-1203 | Mark, rename and whiteout cleanup move the subtree and leave nothing at the old name |
| OverlayDir.Overlay.MoveMarked | dir.c:1200-1203 | The upper rename of a marked node moves its subtree, and fails iff the target is an occupied directory |
| OverlayDir.Overlay.CleanupWhiteout | dir.c:1202-1203 | Cleaning up the switched whiteout leaves nothing at the old name and no stray whiteout |
| OverlayDir.Overlay.RenameOver | dir.c:1101-1203 | The same over a target that shows nothing but still holds whiteouts |
| OverlayDir.Overlay.RenameExchange | dir.c:1020-1230 | RENAME_EXCHANGE swaps what is shown at and below the two names |
| OverlayDir.Overlay.RenameOverwrite | dir.c:1020-1230 | An overwriting rename shows the source's subtree at the target, nothing at the source, and every other path unchanged |
| OverlayDir.Overlay.Rename | dir.c:1020-1230 | For any layers and every combination of source, target and flags the error is told exactly from the state before the call, a failed call changes no view, and a successful one acts as on a plain tree |
| OverlayDir.Overlay.StaysPutIff | dir.c:897-1018 | A dentry cannot be moved iff it is a directory with lower layers behind it, and redirects may not be written, or it changes its parent, is not known by an absolute path and its lower path is too long |
| OverlayDir.Overlay.RenameErrorMeans | dir.c:1045-1059 | An exchange fails, with EXDEV, iff one of the two cannot be moved; another rename fails iff the source cannot be moved or something shows below the target |
| OverlayDir.MoveClean | dir.c:1061-1074 | An overwriting rename leaves no whiteout where none belongs, but the one it cleans up itself |
| OverlayDir.ExchangeClean | dir.c:1176-1200 | Nor does an exchange |
| Whiteouts.PutClean | dir.c:429-533 | One change of the upper tree keeps it free of stray whiteouts if what it puts there is and a whiteout goes only over lower layers |
| Whiteouts.DentryArrives | dir.c:1176-1200 | So does a moved node, since it keeps its lower layers and its origin |
| OverlayRuns.Run | dir.c:429-1230 | For every sequence of operations over any layers, the merged view is what they make of a plain tree, each is done only if that tree allows it, and only moves of directories are refused beyond that |
| OverlayRuns.DoUnlink | dir.c:822-888 | A removal is done iff the name is no directory with something in it |
| OverlayRuns.DoMove | dir.c:1020-1230 | A rename is done iff the plain tree allows it and nothing that moves has to stay put |
| NlinkFormat.RoundTrip | inode.c:625-663 | Every int formats into fewer than 13 bytes and is read back with its base |
| NlinkFormat.DecimalRoundTrip | inode.c:633-649 | Decimal digits are read back as the number |
| Nlink.RecountIff | inode.c:661-698 | From the first stored xattr on, a crash in any state recounts the positive union count iff the lower file has several links and no link was in the work directory when the xattr was stored relative to the upper inode |
| Nlink.RecountShort | inode.c:661-698 | Otherwise the recount is too low by the number of those links |
| Nlink.RecountAny | inode.c:661-698 | The recount does not depend on the fallback |
| Nlink.LeftoverMiscounts | util.c:786-794 | A run that gets there: copy-up, a link whose rename and cleanup fail, and the next operation; the next mount counts one name too few |
| Nlink.OrphanIff | namei.c:570-578 | Exactly when an index is called orphan: no name is left, or no upper name is and the count cannot be had; with no name its link count is 1 |
| Nlink.CrashAnywhere | inode.c:605-625 | For every state logged over a run: positive count recomputed and no orphan, or count 0, one link and orphan |
| Nlink.IndexedFile.Mount | inode.c:917-919 | An inode set up again after a crash has the union count |
| Nlink.IndexedFile.SetNlink | inode.c:633-659 | The stored difference fits the buffer and stands for the union count relative to either inode |
| Nlink.IndexedFile.CopyUpToIndex | copy_up.c:688-725 | Copy-up to the index keeps the union count, at each step |
| Nlink.IndexedFile.LinkUp | copy_up.c:405-442 | Linking a lower name up keeps the union count, at each step and on each failure, and fails iff one of its real operations does or the links are exhausted |
| Nlink.IndexedFile.CopyUp | copy_up.c:860-863 | Both together, for a name not copied up, with the exact condition of success |
| Nlink.IndexedFile.NlinkStart | util.c:750-801 | Succeeds iff the copy-up that a lower name needs, the lock and the store do; a name is then copied up and the count is stored relative to the upper inode |
| Nlink.IndexedFile.NlinkEnd | util.c:803-814 | Nothing happens while names are left; otherwise the index goes, or is an orphan where that fails or a work link holds the inode |
| Nlink.IndexedFile.CleanupIndex | util.c:686-744 | The index of a file without names is removed or whited out, or stays as an orphan, exactly as its links and the removal allow |
| Nlink.IndexedFile.LinkOverWhiteout | dir.c:462-520 | A link made in the work directory and renamed into place counts once, also on failure |
| Nlink.IndexedFile.LinkCopied | dir.c:667-705 | Once the old name is copied up, exactly when the link succeeds and when a work link is left behind |
| Nlink.IndexedFile.Link | dir.c:667-705 | The union count rises by one iff the call succeeds, which it does iff no real operation it needs fails and there is room for the links; every state on the way stays accurate, and no work link is counted where there was none |
| Nlink.IndexedFile.Unlink | dir.c:845-861 | The union count falls by one iff the call succeeds, which it does iff no real operation it needs fails; after the last name the index goes, or is an orphan exactly where that fails or a work link is left |
| CopyUpProtocol.StepEffect | util.c:519-536 | A thread gives upper dentries and aliases only under the inode lock it holds |
| CopyUpProtocol.StepKeepsInv | copy_up.c:810-914 | Every step of every thread keeps locks, seen parents and the placement of dentries consistent |
| CopyUpProtocol.RenameKeepsInv | copy_up.c:664-670 | A rename keeps it too, although threads may have seen the old parent |
| CopyUpProtocol.RunKeepsInv | copy_up.c:810-914 | The invariant holds in every state of every run |
| CopyUpProtocol.UpdateIsFirst | util.c:419-423 | The warning in ovl_inode_update never fires |
| CopyUpProtocol.UpdatedOnce | util.c:419-436 | In any run an inode has an upper dentry exactly from the one step on that gives it one |
| CopyUpProtocol.RunAncestorsCopied | copy_up.c:893-907 | In every state of every run, all ancestors of a copied-up dentry are copied up |
| CopyUpProtocol.DoneMeans | copy_up.c:854-914 | In any run a call succeeds iff no real operation failed in it, and then its dentry is copied up |
| CopyUpProtocol.FailsWhereItWorks | copy_up.c:854-871 | Real operations fail only while waiting for the lock or in work that is still to be done: losing a race is no failure |
| CopyUpProtocol.QuietTree.FindTopmost | copy_up.c:896-904 | The climb terminates at a dentry not copied up below one that is |
| CopyUpProtocol.QuietTree.CopyUpOne | copy_up.c:854-871 | On success exactly that dentry is copied up, and the lock is free again |
| CopyUpProtocol.QuietTree.CopyUpFlags | copy_up.c:873-914 | On a quiet tree the loop terminates, by legal steps only, succeeds if nothing fails, and success means the dentry and all its ancestors are copied up |
| NameTree.CompareEqual | readdir.c:66-90 | The length-limited comparison calls only equal names equal |
| NameTree.CompareFlips | readdir.c:66-90 | It is antisymmetric |
| NameTree.CompareTransitive | readdir.c:66-90 | It is transitive, so a strict total order |
| NameTree.Find | readdir.c:92-111 | The search finds a name iff the tree holds it |
| NameTree.LinkedKeys | readdir.c:66-90 | A failed search ends between the smaller and the greater names |
| NameTree.FindLink | readdir.c:66-90 | Either the name is found, or linking it in at the link keeps the order and adds just that name |
| NameTree.Insert | readdir.c:189-191 | The order survives any rebalancing that keeps the in-order names |
| MergedList.MergedNamesRight | readdir.c:355-389 | The merged list has each name once, and exactly the names some layer lists |
| MergedList.LowestOffsets | readdir.c:378-386 | A lowest-layer name has the offset at which that layer lists it, and no other, whatever the layers above |
| MergedList.ListingAgreesWithLookup | readdir.c:253-292 | For every stack of layers a listing shows a name iff ovl_lookup of it through the same stack is positive |
| MergedList.TopIsTopmost | readdir.c:173-215 | The topmost listed entry is the topmost physical entry, with its whiteout flag |
| Readdir.EntriesAreTop | readdir.c:173-292 | The collected entries hold, for every name, the entry of its topmost layer with its whiteout flag |
| Readdir.MarkedIsExtended | readdir.c:267-292 | Looking up only the character devices sets every whiteout flag right |
| Readdir.MergeReader.AddRb | readdir.c:173-195 | A name is added once, at the end, to list and tree alike |
| Readdir.MergeReader.FillLowest | readdir.c:197-215 | A name of the lowest layer moves, or is added, to the front part |
| Readdir.MergeReader.CheckWhiteouts | readdir.c:267-292 | Exactly the collected entries get the flag that lookup gives |
| Readdir.MergeReader.ReadUpperLayer | readdir.c:294-320 | Reading a layer adds its new names in order, with finished entries |
| Readdir.MergeReader.ReadLowestLayer | readdir.c:375-387 | Reading the lowest layer puts its names first, in its order |
| Readdir.MergeReader.ReadMerged | readdir.c:355-389 | The list is the lowest layer's names, then the others in order of first appearance; the entries are the topmost ones |
| DirRuns.Run | readdir.c:724-815 | However an iteration is split into calls and goes back to returned positions, while the directory changes and other files of it are used, its reader holds each shown entry before the position once and in order, and all of them at the end |
| DirRuns.WholeRun | readdir.c:724-775 | A whole run over a merge directory gives each name shown at its start once, with type and number as its topmost layer has them, and nothing else |
| DirRuns.ReadTurn | readdir.c:757-773 | A call adds just the entries up to the new position |
| DirRuns.BackTurn | readdir.c:777-815 | Going back to a returned position goes on in the same listing, and back to the start in the current one |
| DirRuns.OtherTurn | readdir.c:861-876 | Changes and other files leave the listing of a file that has left its start alone |
| DirCache.IterationShows | readdir.c:153-171 | A full iteration hands out each shown name exactly once, as the entry of the topmost layer that holds it, and nothing else |
| DirCache.MergedDir.CacheGet | readdir.c:405-437 | A current listing in the slot is shared, otherwise a new one is built and put there; other listings stay |
| DirCache.MergedDir.CachePut | readdir.c:238-251 | A listing is freed with its last reference, once, and is then in no slot |
| DirCache.MergedDir.DirReset | readdir.c:334-353 | After a reset a file holds a listing of the current version or none |
| DirCache.MergedDir.Modified | util.c:438-459 | From a state in which all is current, a file at its start goes through what is there now iff the directory is a merge directory, or the change is impure, or no listing could be taken for current, or the listing stays the same |
| DirCache.MergedDir.Release | readdir.c:861-876 | References are given back; with the last file closed no listing is left; other files keep theirs |
| DirCache.MergedDir.SeekCursor | readdir.c:391-403 | The cursor is where the position says, or at the end |
| DirCache.MergedDir.Scan | readdir.c:757-773 | The loop hands out the visible entries up to where it stops: the first that does not fit, the first whose number cannot be found, or the end |
| DirCache.MergedDir.Llseek | readdir.c:777-815 | Seeking moves this file's position and no other's, and changes its listing only when it goes back to the start |
| DirCache.MergedDir.Iterate | readdir.c:724-775 | A call hands out its listing from its position on, advances by that, and the next call goes through the same listing; other files keep theirs |
| DirCache.MergedDir.SeesCurrent | readdir.c:729-755 | If every listing of the current version is right, as always in a merge directory, a file at offset 0 goes through what is there now |
| DirCache.RemovedButListed | util.c:447-450 | In a directory that is no merge directory a removed file is still listed by a later open |
| EmptyDir.CheckEmptyDir | readdir.c:912-953 | Passes exactly when nothing is shown; the list left is then just the physical upper entries, all whiteouts |
| EmptyDir.ShowsNothingIsMergedEmpty | readdir.c:912-953 | The listing-level test is the test that removal and rename go by, and the names left are all upper names |
| EmptyDir.RealDir.CleanupWhiteouts | readdir.c:955-978 | Exactly the listed entries go whose removal does not fail |
| EmptyDir.RealDir.ClearIfEmpty | dir.c:330-402 | After checking and clearing, the upper directory is physically empty iff no removal failed |
| ImpureDir.ChangedRight | readdir.c:564-586 | Dropping the unchanged entries loses no inode number |
| ImpureDir.ImpureCache.ReadImpure | readdir.c:545-588 | The cache holds exactly the names whose number differs; no name is found twice |
| ImpureDir.NativeIsRight | readdir.c:113-141 | A merged listing keeps an entry's real number only where looking it up would give the same |
| ImpureDir.ListedIsStat | readdir.c:462-521 | The number found for an entry is stat's: the mapped number of the inode stat starts from, for a copied-up file its lower origin |
| ImpureDir.ListedUnmapped | readdir.c:470-471 | Where numbers cannot be mapped, a file's listed number is stat's iff stat starts from the number the layer lists |
| ImpureDir.MergedNumber | readdir.c:760-767 | So is the number of an entry of a merged listing, looked up or not |
| ImpureDir.IterateReal | readdir.c:683-721 | In an impure directory every entry found is listed with the number stat reports for it, also when the empty cache is dropped |
| InodeMap.OvlFs.GetFsid | super.c:1422-1457 | The fsid identifies the filesystem, 0 the upper one, and only a filesystem not seen before is added |
| InodeMap.FsidIffSameFs | super.c:1422-1457 | Two layers have the same fsid iff they are on the same filesystem |
| InodeMap.OvlFs.GetLowerLayers | super.c:1459-1545 | Every layer gets its fsid, every fsid fits the xino bits, preset bits are kept, and xino=on otherwise takes the fewest that do |
| InodeMap.EnoughBits | super.c:1531-1538 | ilog2 plus one bits, or the preset 32, hold every fsid |
| InodeMap.OrDisjoint | inode.c:93-112 | Or of numbers without common bits is addition |
| InodeMap.MappedParts | inode.c:92-112 | A mapped number has the fsid in its high bits and the real number in its low bits |
| InodeMap.StatInjective | inode.c:78-148 | Device and inode number together determine fsid and real number, even where numbers are too big for the map |
| InodeMap.DeviceLaw | inode.c:78-139 | An object is on the overlay's device iff its number is unique or fits; others are on the same device iff they are of the same filesystem |
| InodeMap.ObjectsDiffer | inode.c:78-148 | Over any layer list, two objects share device and number iff they are the same |
| InodeMap.NumbersAgree | inode.c:548-568 | stat, readdir and i_ino report the same number, whenever real numbers are unique or xino is enabled |
| InodeMap.StatNumber | inode.c:141-218 | Directories and files alike show the mapped number of the inode stat starts from |
| InodeMap.CopyUpKeepsNumber | inode.c:162-202 | Copy-up changes neither device nor number, at once or after a remount, but for hardlinks without an index |

## Left out

- The asynchronous block copy (`async_block_read_iter`, `async_block_write_iter`, `speed_block_copy`, `ovl_block_copy`): its calls are commented out, and it copies single blocks with the length of the whole file.
- The meta file (`ovl_open_meta`, `ovl_meta_save`), which returns early or is never started, and `temp.c`.
- Ways around the block layer: mmap, fallocate, truncate, clone, dedupe, seeking by content, and the size that stat shows.
- BlockCow.OvlInode.BlockReadIter: the status array is read only up to the block count (file.c:930 and file.c:962 read one further), real reads are complete up to the end of file, and a pass that changes nothing is reported instead of repeated for ever.
- BlockCow.OvlInode.BlockWriteIter: real files can be opened, and real writes succeed and are complete, so the test of the return value against the shrinking count at file.c:1007 always takes the marking branch.
- BlockCow.OvlInode.CopyUpBlock: a splice returns an error or at least one byte.
- Layers.Lookup: metacopy, NFS export, index and origin verification, and the lookup of a copied-up file's origin; real lookups do not fail.
- LookupCode.LookupData.LookupSingle: xattr values with NUL bytes.
- OverlayDir.Overlay.ClearEmpty: the whiteouts in the replaced directory, now in the work directory, are cleared in EmptyDir; that directory is no part of the upper tree here.
- OverlayDir.Overlay.Rename: writing redirects implies following them, as the mount options do; the checks of the VFS (kinds of source and target, no directory below itself, negative targets) are preconditions; two names of one file, RENAME_NOREPLACE, and marks on non-directories with metacopy are not modelled; xattrs are supported and real operations on the upper layer fail only where modelled.
- OverlayDir.Overlay.Create: the file's content, mode and ACLs; creation of whiteout devices, which is refused.
- Dentries are taken as freshly looked up: the -ESTALE checks for changes made to the upper layer behind the mount are not modelled.
- Nlink.IndexedFile.Link: link counts stay below 2^31, where the int difference is exact; lower hardlinks are not added while mounted.
- Nlink.IndexedFile.Mount: lower files with one link, which the code does not recount, are excluded here; RecountIff says what happens to them.
- CopyUpProtocol.Step: metacopy, disconnected dentries, memory barriers; reads of single fields are atomic.
- NameTree.Insert: how a red-black tree is rebalanced.
- Readdir.MergeReader.ReadMerged: entries are identified by their names instead of by pointers, real listings do not change while they are read and give the type of entries, and memory does not run out.
- DirCache.MergedDir.Iterate: directories listed straight from one real directory, the switch of an open one when it is copied up, and offsets of the real filesystem.
- ImpureDir.IterateReal: what the lookup of an entry finds is an input, and so is whether stat fails on it.
- DirCache.MergedDir.Scan: an entry's number is that of ImpureDir.EmittedIno and is found again by each call; the code keeps it in the entry.
- InodeMap.CopyUpKeepsNumber: mounts with an upper layer; a directory without a mapped number shows an arbitrary one.
- Credentials, permissions, ACLs, timestamps, reference counts of dentries and inodes, RCU, allocation failures, mount options other than those the layer assignment needs, and export.c.
