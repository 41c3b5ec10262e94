# Verified models of the workspace server's hard algorithms

This project models the parts of the server that decide things on their own, between the database
and the client, and proves what their code and comments promise. Each module follows one source
file or one job in it; methods and classes are written where the source changes state, functions
and datatypes where it computes values.

Check everything with `dafny verify dfyconfig.toml`.

## What is modelled

**Wide sections of a Word document** (`DocxModel`, `DocxParser`, `DocxMeaning`, `DocxRefinement`,
`DocxRewrite`, `DocxPieces`, `DocxNormalized`, `DocxReadings`, `DocxLimits`, `DocxRevisions`). The
section parser is a streaming machine over tags (`SectionReader`). `DocxMeaning` says what a document
tree declares without any machine: the tables, images and section ends it holds, and the sections they
make; everything in the tree counts there, the former properties that tracked revisions keep included.
`ParserMeetsMeaning` is that the machine computes that on every document. The rewrite is modelled down
to the splices: the planned edits, applied from the last to the first, are one edit of the tree
(`NormalizationRewritesTree`), exactly the overflowing portrait sections turn (`NormalizedSections`),
and a second run finds nothing (`SecondRunFindsNothing`). `DocxReadings` says what that comes to in a
document's own terms: every picture widens the section it belongs to (`PicturesAreCovered`), a section
shows the page of the property that ends it, and it changes iff it is portrait and its content and side
margins are wider than its page (`SectionChangesExactly`).

`DocxLimits` and `DocxRevisions` say when this is not what a document needs. The comment at line 241 of
the source takes for granted that sections and blocks align; they do iff the properties that end a
section come before all others and hold no other property's close tag (`AlignmentExact`). An unsized
property before a sized one breaks that, and a self-closed one swallows the next (`VoidSwallows`), so
that even equal counts prove nothing (`CountsMayAgree`). A property that records a revision of itself
loses the body's section or gives a paragraph's section the former page (`RevisionExact`), and a revised
grid counts its former columns (`RevisedGridExact`). `DocxRevisions` compares a document with the same
document without its former properties: a revised cell counts with both its widths, a revised table with
its former width and indent. `TableRevisionExact` says exactly when a table reads as wide as it is,
`RevisionsHarmlessExactly` exactly when the sections do, and `FormerWidthTurnsPage` is a document whose
page turns although its one cell fits now and did before.

**Importing an extracted archive** (`ArchiveNames`, `ArchivePaths`, `ArchiveImport`, `ArchiveNaming`,
`ArchiveWalk`, `ArchiveKeys`, `ArchiveFailures`). Names made safe and unique under the database's
case-insensitive key, paths, the bounded depth-first walk, and the fixpoint that drops failed nodes.
`ArchiveNaming` says which name, extension and path a file or directory gets (`DottedFileComesIn`). The
node list is a tree whatever the archive holds; its files come in once each, in order, and all of them
unless a limit was reported; and after a failed copy exactly the failed files are gone. The rows keep
both unique keys of the table, that of the siblings and that of the path, iff every random suffix drawn
in an exhausted directory is good and no node gets the leaf of a sibling with another extension
(`ImportIsSoundExactly`). The second is not a matter of full directories: a folder `a.x` and a file `a`
identified as `x` get one path (`FolderAndFileShareAPath`).

**Gathering a chat export** (`FolderTree`, `ChatExport`, `ChatSections`). The folder order is the
depth-first preorder; the paginated feed is read to its end; every row whose folder is emitted appears
once, in feed order, and every selected thread gets one section, in tree order. `ExportShows` says which
rows the section of a folder holds and which messages that of a thread.

**New comments and XML text** (`OfficeComments`, `CasualDocs`, `XmlText`, `Decimals`). The comparison is
an order-preserving multiset difference; after a document with anchors exactly the comments past the
anchored places are new, whatever else it held; an unchanged document announces nothing exactly when it
does not mix anchors with stored comments. Decoding undoes escaping, and turns each numeric reference
into its character.

**Secure-share grants** (`SecureShare`). One open of a share as a step on the permission table, and runs
of opens. `OpenOutcome` says whose session an open gets, its ceiling, and every row it writes. Grants
only rise over unrelated shares, and `OpenLowersExactly` says when a single open lowers a stored row: a
file share overwrites a stronger row on the file's parent, and a stronger grant on the file that no
share gave. `MemberTakenForRecipient` says when a real member is treated as a recipient.

**Smaller machines** (`ChunkedUpload`, `Csv`, `Meeting`, `ReportLimiter`, `Archiver`). A commit hands
over the original file whatever order its chunks came in; a printed table reads back; one session logs
at most 59 reports in any closed minute, and 59 is reached; an archiver that falls silent after a
complaint always leads to the one exit push. A meeting is announced again exactly when the last row of
its room left or its room fell silent for too long. After a restart the rows no longer show who is in
the call: `AnnouncedIntoCallExactly` says when a running meeting is announced once more, and
`RunningMeetingAnnounced` is such a run.

`Options`, `Sequences` and `Trimming` hold the optional value, the slice lemmas and the `trim` that the
other modules share.

Inputs the source draws from elsewhere are parameters: random ids and suffixes (`Supply`), content
identification (`Info`), the pages of a message feed, the clock of an event, the outcome of a grant, a
copy that breaks off, the character a numeric reference stands for.

## Model

| member | source | states |
|---|---|---|
| DocxParser.SectionReader.Finalize | offline/media/normalize-docx-sections.js:124-134 | a geometry with a page size ends one section with the widest content so far and resets both maxima; one without a page size changes nothing |
| DocxParser.SectionReader.OnOpenTable | offline/media/normalize-docx-sections.js:139-159 | the table branches of the open callback move the table accumulators as the table machine does, nested tables and non-dxa widths excluded |
| DocxParser.SectionReader.OnOpenSection | offline/media/normalize-docx-sections.js:161-170 | a section property opens a pending geometry owned by the body or by the innermost paragraph; page size and margins fill it |
| DocxParser.SectionReader.OnOpen | offline/media/normalize-docx-sections.js:137-171 | the whole open callback is one step of the machine |
| DocxParser.SectionReader.OnCloseTable | offline/media/normalize-docx-sections.js:173-183 | a grid or row folds into the table's width; the outermost table banks width plus positive indent and resets |
| DocxParser.SectionReader.OnCloseSection | offline/media/normalize-docx-sections.js:184-190 | a section ends at its body-level property or when the paragraph owning it closes, and nowhere else |
| DocxParser.SectionReader.OnClose | offline/media/normalize-docx-sections.js:172-189 | the whole close callback is one step of the machine |
| DocxParser.ParseSections | offline/media/normalize-docx-sections.js:111-191 | the callbacks over a tag stream yield the sections of the machine's run |
| DocxMeaning.WidestIsMaximum | offline/media/normalize-docx-sections.js:131 | the content width of a section bounds every table and image in it and is one of them, or 0 |
| DocxMeaning.SectionOwnsItsItems | offline/media/normalize-docx-sections.js:100-109 | section k holds exactly the content between the k-1st and the k-th section end, and nothing else |
| DocxMeaning.RoundingIsMonotone | offline/media/normalize-docx-sections.js:131 | rounding the widest image to twips gives the widest rounded image |
| DocxMeaning.BankingMakesSections | offline/media/normalize-docx-sections.js:124-134 | banking items one by one into two maxima makes the sections of the whole list |
| DocxRefinement.TableVisited | offline/media/normalize-docx-sections.js:139-183 | over any subtree of a document, revised grids included, the accumulators become the widest of grid sum, declared width and row sums, and the last indent; nested tables contribute nothing |
| DocxRefinement.SectVisited | offline/media/normalize-docx-sections.js:161-190 | a pending geometry, that of a revised property included, survives exactly until the paragraph that owns it closes |
| DocxRefinement.EndingBanked | offline/media/normalize-docx-sections.js:172-189 | what closing an element banks is what its tree says it ends, runs after the section property and revisions inside it included |
| DocxRefinement.ParserMeetsMeaning | offline/media/normalize-docx-sections.js:97-191 | on every document tree the streaming parser yields exactly the sections of what the tree declares, former properties of tracked revisions counted as declarations like any other |
| DocxRewrite.RotatedFitsExactly | offline/media/normalize-docx-sections.js:202-222 | a rewritten section fits its landscape page iff its content fits with the old margins or with twice the least margin |
| DocxRewrite.TrimKeepsSlack | offline/media/normalize-docx-sections.js:215-222 | above the floor a trim leaves 60 or 61 twips of slack; it narrows the printable width iff the old margins were below twice the floor |
| DocxRewrite.SectPrBlocks | offline/media/normalize-docx-sections.js:194-200 | the scan collects the blocks of the stream, each up to its first close tag, in order |
| DocxRewrite.ApplyEdits | offline/media/normalize-docx-sections.js:264-267 | splicing from the last edit to the first makes all edits at once, with earlier offsets still valid |
| DocxRewrite.DescendingOrderIsReversal | offline/media/normalize-docx-sections.js:265 | the only descending order of the edits is their reversal, so sorting them is running the list backwards |
| DocxRewrite.EditsOf | offline/media/normalize-docx-sections.js:243-257 | on any stream whatever the planned edits are in order, apart from one another and within the text |
| DocxRewrite.SectionsNumbered | offline/media/normalize-docx-sections.js:126-128 | parsed sections carry their own position as index, on any stream |
| DocxRewrite.PlanEdits | offline/media/normalize-docx-sections.js:243-257 | detection plans one edit for each overflowing portrait section that has a block, and reports its one-based number |
| DocxRewrite.NormalizeWideSections | offline/media/normalize-docx-sections.js:228-273 | the result is the stream with all planned edits made at once; unchanged is reported iff there are none; the numbers reported are exactly those of the portrait sections with a block whose content and side margins together are wider than the page |
| DocxPieces.EditedBlockIsEditedSect | offline/media/normalize-docx-sections.js:250-253 | replacing the first page-size and margin tag of a block's text edits those two children of the element and nothing else, and the block stays editable |
| DocxPieces.PiecesOfNode | offline/media/normalize-docx-sections.js:228-273 | a tree's text falls into gaps and blocks that spell it, name its sections, and after the edit spell the rewritten tree |
| DocxPieces.BlocksOfPieces | offline/media/normalize-docx-sections.js:194-200 | the scanner finds exactly the blocks of a document, where they lie, up to the first that is self-closed or holds another's close tag |
| DocxNormalized.PlannedEdits | offline/media/normalize-docx-sections.js:241-257 | the edits planned from parser and scanner are the edits of the tree's own blocks |
| DocxNormalized.PieceEditsGive | offline/media/normalize-docx-sections.js:264-267 | making those edits at once keeps every tag outside the edited blocks |
| DocxNormalized.GeometryIsInert | offline/media/normalize-docx-sections.js:111-191 | page geometry decides neither where sections end nor how wide their content is: streams that differ only there parse alike |
| DocxNormalized.SectionsFollowProperties | offline/media/normalize-docx-sections.js:161-190 | on every document the sections are, in order, those of the properties from which a page size is read and which, at body level, record no revision, each with that property's page |
| DocxNormalized.SectionsAlign | offline/media/normalize-docx-sections.js:241-246 | in an editable document section k is the one whose property is the k-th block, with that block's geometry, and no later property ends a section |
| DocxNormalized.EditedGeometry | offline/media/normalize-docx-sections.js:204-222 | a rewritten block reads back as the rotated section, with margins trimmed only where it declares margins |
| DocxNormalized.NormalizationRewritesTree | offline/media/normalize-docx-sections.js:228-273 | the spliced text is the text of a tree in which only the properties of overflowing sections changed, and which is again an editable document; unsized or revised properties after them stay as they are |
| DocxNormalized.NormalizedSections | offline/media/normalize-docx-sections.js:241-273 | parsing the result gives the old sections, with exactly the overflowing portrait ones rotated |
| DocxNormalized.SecondRunFindsNothing | offline/media/normalize-docx-sections.js:228-273 | a second run plans no edit and returns its input |
| DocxReadings.ImagesAreExtents | offline/media/normalize-docx-sections.js:158 | the images banked are the pictures of the tree, each once and in document order |
| DocxReadings.PicturesAreCovered | offline/media/normalize-docx-sections.js:130-158 | a section is at least as wide as every picture before its end and after the previous one |
| DocxReadings.PicturesHoldAll | offline/media/normalize-docx-sections.js:158 | every picture of a tree belongs to some section |
| DocxReadings.RoundToTwipsIsNearest | offline/media/normalize-docx-sections.js:131 | a picture's width in twips is the nearest whole number, halves rounded up |
| DocxReadings.SectionShowsItsPage | offline/media/normalize-docx-sections.js:124-134 | a section has the size and margins of the property that ends it, and without an orientation of its own it is landscape iff wider than high |
| DocxReadings.ReportedExactly | offline/media/normalize-docx-sections.js:243-257 | the number of section k is reported iff it is portrait, content and side margins together are wider than its page, and block k exists |
| DocxReadings.SectionChangesExactly | offline/media/normalize-docx-sections.js:243-273 | in an editable document section k changes iff it is portrait and its content and side margins together are wider than its page |
| DocxReadings.TurnedSection | offline/media/normalize-docx-sections.js:202-213 | a changed section keeps its sides and content, with the longer side across |
| DocxReadings.UnwrittenStays | offline/media/normalize-docx-sections.js:204-222 | a number or orientation that is not written as the replacement expects stays as it is |
| DocxLimits.AlignmentExact | offline/media/normalize-docx-sections.js:241-246 | on every document the block at each section's index is the property that ends the section iff such properties come before all others and hold no other property's close tag |
| DocxLimits.EditableExactly | offline/media/normalize-docx-sections.js:241-253 | the editable documents are exactly those whose sections and blocks align and whose ending properties have the form the edit expects |
| DocxLimits.SpanHoldsProperty | offline/media/normalize-docx-sections.js:194-200 | the span taken for a property in that statement is where the property's text stands |
| DocxLimits.VoidSwallows | offline/media/normalize-docx-sections.js:196 | the block of a self-closed property runs to the end of the next property that has a close tag |
| DocxLimits.VoidAlone | offline/media/normalize-docx-sections.js:196 | a self-closed property with no close tag after it is a block by itself |
| DocxLimits.OpenAlone | offline/media/normalize-docx-sections.js:196 | an open tag with no close tag after it is no block |
| DocxLimits.CountsMayAgree | offline/media/normalize-docx-sections.js:241-242 | a document with one section and one block whose block is not that section's property |
| DocxLimits.RevisedReadsFormer | offline/media/normalize-docx-sections.js:165-170 | from a property that records a revision the former page is read, whatever it declares itself |
| DocxLimits.RevisionExact | offline/media/normalize-docx-sections.js:161-190 | a revision changes nothing iff, at body level, the property declared no page at all, and in a paragraph, the former page is the declared one |
| DocxLimits.RevisedBodyIsDropped | offline/media/normalize-docx-sections.js:161-164 | a document whose body-level property records a revision has the sections of its other properties only |
| DocxLimits.RevisedParagraphReadsFormer | offline/media/normalize-docx-sections.js:165-190 | the section of a paragraph's property with a revision has the former page |
| DocxLimits.RevisedGridWidth | offline/media/normalize-docx-sections.js:143-173 | a grid that records a revision widens its table to its former columns only |
| DocxLimits.RevisedGridExact | offline/media/normalize-docx-sections.js:143-173 | that makes no difference iff both column sums are equal or the table was declared as wide before |
| DocxRevisions.RowReadsFormer | offline/media/normalize-docx-sections.js:154-158 | a row is read as wide as it is now plus the former width of every revised cell in it |
| DocxRevisions.RowUntouchedExactly | offline/media/normalize-docx-sections.js:156-158 | the revisions of a row's cells make no difference to it iff the former widths add up to nothing |
| DocxRevisions.TableRevisionExact | offline/media/normalize-docx-sections.js:148-183 | a table is read as wide as it is now iff what its revisions add to its widths and to its indent cancels out; either adds nothing iff the revised declarations stay within the others or come to the same, and the last indent is not a former one or counts for as much |
| DocxRevisions.RevisionsHarmlessExactly | offline/media/normalize-docx-sections.js:97-191 | a document is parsed like the same document without its former properties iff in every section the tables that revisions change are within the widest of the rest, as read and as they are, or widest by the same |
| DocxRevisions.FormerWidthTurnsPage | offline/media/normalize-docx-sections.js:156-158 | a page with 9360 printable twips overflows with one cell that is 5000 wide and was 6000 |
| ArchiveNames.SafeName | offline/media/unzip.js:340-345 | the name is never empty, a dot name or longer than the column, and holds no separator |
| ArchiveNaming.SafeNameExactly | offline/media/unzip.js:340-345 | a safe name is the entry's without the white space around it, with dashes for separators and cut to the column, and "file" where nothing or a dot name is left |
| Trimming.TrimIsTight | offline/media/unzip.js:341 | trimming takes the white space off both ends and nothing else |
| ArchiveNames.KeyInjective | offline/media/unzip.js:361-363 | equal keys mean equal names and extensions up to case, because no name holds the separator, however characters outside ASCII are folded |
| ArchiveNaming.CaseIsIgnored | offline/media/unzip.js:361-363 | names and extensions that differ in case only have one key |
| ArchiveNames.UniqueNameIsFree | offline/media/unzip.js:364-376 | unless every counter is taken the chosen name is new among its siblings, fits the column and stays one component |
| ArchiveNaming.NameOrNumber | offline/media/unzip.js:364-380 | a free name is kept, a taken one becomes the first free numbered one after at most 120 of its characters, and the random suffix is drawn iff none is free |
| ArchiveNames.UniqueNameFitsExactly | offline/media/unzip.js:368-379 | the random suffix fits the column iff it leaves room; with eight digits iff the name is shorter than 120 |
| ArchiveNames.NumberedKeysDiffer | offline/media/unzip.js:370-372 | different counters always give different keys |
| ArchiveNames.ExhaustedNeedsManySiblings | offline/media/unzip.js:370-379 | the random suffix is reached only among at least 9999 siblings, and at least 10000 when the name was not cut |
| ArchiveNames.ExhaustionBoundIsTight | offline/media/unzip.js:368-379 | a cut name that itself looks numbered is exhausted by exactly 9999 siblings |
| ArchiveNames.SuffixCanCollide | offline/media/unzip.js:377-379 | among such siblings a random suffix that was drawn before gives a name whose key is taken |
| ArchiveNames.Siblings.UniqueSibling | offline/media/unzip.js:360-380 | returns the first free name in counter order and adds exactly its key to the set |
| ArchivePaths.ChildPathsExtend | service/lib/mfs-path.js:36-52 | a child of a normalized folder path is normalized and extends it by exactly its component |
| ArchivePaths.FolderPathKeepsParts | service/lib/mfs-path.js:36-41 | a repaired folder path has the parts of the old one, without empty parts and dots, and is left alone by a second repair |
| ArchivePaths.SplitCuts | service/lib/mfs-path.js:37-38 | splitting cuts at every slash and nowhere else |
| ArchivePaths.KeptAre | service/lib/mfs-path.js:38-39 | of the parts exactly the empty ones and the single dots are dropped |
| ArchiveImport.ChosenNameIsComponent | offline/media/unzip.js:436-440 | whatever the archive calls an entry, name and extension make one path component |
| ArchiveNaming.PlainExtensionExactly | service/lib/file-extension.js:28-39 | an extension is kept iff it is made of letters and digits joined by single dots, dashes or underscores and has at most 16 characters |
| ArchiveNaming.DottedFileAsks | offline/media/unzip.js:438-445 | a file `stem.x` about which no more is known asks for the name `stem` and the extension `x` in lower case |
| ArchiveNaming.UndottedFileAsks | offline/media/unzip.js:438-445 | a file without a dot asks for its whole name and has no extension |
| ArchiveNaming.HiddenFileAsks | offline/media/unzip.js:438-445 | a leading dot starts no extension |
| ArchiveNaming.IdentifiedFileAsks | offline/media/unzip.js:438-445 | an identified file name and a plain identified extension are the ones used |
| ArchiveNaming.DroppedExtensionKeepsName | offline/media/unzip.js:442-445 | an identified extension that is not plain is dropped, and the whole entry name becomes the file's |
| ArchiveNaming.OddSuffixKeepsName | offline/media/unzip.js:442-445 | so it is with an odd suffix of the name itself |
| ArchiveNaming.FolderAsks | offline/media/unzip.js:438-445 | a directory asks for its whole name, dots and all |
| ArchiveNaming.NodeShows | offline/media/unzip.js:448-473 | a node has its entry's kind and size, its parent and level, and its name and extension at the end of its parent's path |
| ArchiveNaming.DottedFileComesIn | offline/media/unzip.js:438-473 | a file `stem.x` whose key is free comes in as `stem` with extension `x`, at `stem.x` below its folder |
| ArchiveImport.TreeGrows | offline/media/unzip.js:451-473 | a node placed after its parent folder, one level below it, keeps the list a tree |
| ArchiveImport.EntryKeepsTree | offline/media/unzip.js:400-481 | one entry with all that is below it only appends nodes and keeps the tree |
| ArchiveImport.WalkKeepsTree | offline/media/unzip.js:391-483 | whatever the directory tree, the list stays one tree: parents are earlier folders, levels and paths follow, and the entry and path limits hold |
| ArchiveWalk.WalkAddsUnder | offline/media/unzip.js:391-483 | every node a walk adds hangs off the walked folder or off a node the same walk added |
| ArchiveWalk.EntryKeepsReady | offline/media/unzip.js:398-481 | the key set of a directory always covers its nodes, whatever is walked below it in between |
| ArchiveWalk.WalkIsSound | offline/media/unzip.js:391-483 | for every directory tree the walk keeps siblings apart and names within their column iff each random suffix it draws fits and is new among the imported siblings |
| ArchiveWalk.WalkBrings | offline/media/unzip.js:391-483 | the files found come in with their sizes, at most once each and in depth-first order, and all of them unless truncation or an over-long path was reported |
| ArchiveWalk.IrregularIsPassedOver | offline/media/unzip.js:411-424 | an entry that is neither file nor directory leaves no trace, not even a taken name |
| ArchiveWalk.CutExactly | offline/media/unzip.js:402-410 | a directory is cut short exactly when an entry is met at 20000 nodes, and the import is then marked as cut |
| ArchiveWalk.EightDigitsFit | offline/media/unzip.js:377-379 | in an exhausted directory the drawn suffix is good iff the asked name is shorter than 120 characters and no imported sibling bears the name with that suffix |
| ArchiveWalk.ImportRootKeepsFiles | offline/media/unzip.js:311-334 | leaving out the archive's one top-level directory brings in the same files and one folder less; any other archive is imported as it is |
| ArchiveWalk.ImportIsTree | offline/media/unzip.js:249-266 | an import is a tree under its one root and holds all files found unless a warning says otherwise |
| ArchiveWalk.Importer.AddNode | offline/media/unzip.js:421-473 | names one entry among its siblings and appends its node, or counts it as skipped when its path is too long |
| ArchiveWalk.Importer.WalkEntry | offline/media/unzip.js:400-481 | one turn of the loop appends what one entry stands for |
| ArchiveWalk.Importer.WalkEntries | offline/media/unzip.js:391-483 | the loop over a directory appends what the whole directory stands for, up to the entry limit |
| ArchiveKeys.PathsDifferExactly | offline/media/unzip.js:351-358 | no two paths of a node tree are equal up to case iff no two siblings have one leaf |
| ArchiveKeys.LeavesDifferExactly | offline/media/unzip.js:361-363 | siblings' leaves differ iff their keys do and no two cut one leaf into name and extension at different places |
| ArchiveKeys.CrossingNeedsDot | offline/media/unzip.js:438-449 | two nodes cut one leaf differently only if one has no extension and ends in the other's, or an extension holds a dot |
| ArchiveKeys.CompoundExtensionCrosses | offline/media/unzip.js:438-449 | a file identified with a compound extension and one that is not share a leaf and pass the key |
| ArchiveKeys.WalkCrosses | offline/media/unzip.js:391-483 | the walk keeps siblings from sharing a leaf that way iff no chosen leaf is that of an imported sibling with another extension |
| ArchiveKeys.ImportIsSoundExactly | offline/media/unzip.js:351-358 | the imported rows keep both unique keys and their names fit iff the suffixes drawn in exhausted directories are good and no chosen leaf is that of a sibling with another extension |
| ArchiveKeys.NarrowImportIsSound | offline/media/unzip.js:351-358 | where no directory holds 10000 entries the key of parent, name and extension is always kept, and that of the path iff no chosen leaf is that of a sibling with another extension |
| ArchiveKeys.FolderAndFileShareAPath | offline/media/unzip.js:438-449 | an archive of a folder `a.x` and a file `a` identified as `x` gives two rows with one path |
| ArchiveFailures.Pass | offline/media/unzip.js:536-543 | one pass adds only doomed nodes, and strictly more of them unless the set is closed |
| ArchiveFailures.CloseBelow | offline/media/unzip.js:532-544 | the loop ends, with a set that is closed below and holds doomed nodes only |
| ArchiveFailures.ClosureIsDoomed | offline/media/unzip.js:532-544 | such a set is exactly the nodes with a failed ancestor-or-self |
| ArchiveFailures.DropFailed | offline/media/unzip.js:530-546 | keeps exactly the nodes without a failed ancestor-or-self, in order |
| ArchiveFailures.SurvivorsExactly | offline/media/unzip.js:545 | a node is kept iff it stands in the list and is not doomed |
| ArchiveFailures.SurvivorKeepsParent | offline/media/unzip.js:530-546 | whatever failed, every kept node but the root keeps its parent before it |
| ArchiveFailures.TreeLosesOnlyFailedFiles | offline/media/unzip.js:530-531 | on a walked list, where only files fail, exactly the failed files go |
| FolderTree.SubtreeHolds | offline/media/chat-export.js:233-237 | a folder is listed under a top iff the top is the folder or an ancestor of it |
| FolderTree.SubtreeNoRepeat | offline/media/chat-export.js:233-237 | no folder is listed twice |
| FolderTree.SubtreeParentsFirst | offline/media/chat-export.js:217-220 | each folder follows its parent, and its path is its name, after the parent's path and a slash between spaces where that is not empty |
| FolderTree.SubtreeTogether | offline/media/chat-export.js:233-237 | the entries of a folder and of everything below it stand together, in their own order |
| FolderTree.SiblingsInInputOrder | offline/media/chat-export.js:225-237 | the children listed for a folder are its rows as the input gave them, in that order |
| FolderTree.SiblingsKeepOrder | offline/media/chat-export.js:225-237 | of two listed rows of one parent the one given first comes first |
| FolderTree.OrderedIsPreorder | offline/media/chat-export.js:217-240 | the order is the depth-first preorder of the folders reachable from the root: each once, parents first, subtrees together, siblings in input order |
| FolderTree.DepthsForbidLoops | offline/media/chat-export.js:217-222 | a depth column that rises from parent to child forbids that |
| FolderTree.LoopsNeverEnd | offline/media/chat-export.js:233-237 | where a row below the root leads back to itself the walk comes to rows at every depth |
| FolderTree.TreeOrder.constructor | offline/media/chat-export.js:225-230 | the map lists every folder's children in input order |
| FolderTree.TreeOrder.Walk | offline/media/chat-export.js:233-237 | on rows without a loop the recursive walk terminates and appends the preorder of a subtree |
| FolderTree.OrderFolderTree | offline/media/chat-export.js:224-240 | the whole function returns the preorder under the first row of depth 0, and nothing without such a row |
| FolderTree.Root | offline/media/chat-export.js:232 | the root is the first row of depth 0, if there is one |
| ChatExport.FileRow | offline/media/chat-export.js:296-315 | one row is appended to the list of its scope folder, or of the root; a card without its thread is dropped |
| ChatExport.FilePage | offline/media/chat-export.js:296-315 | one page is filed in feed order |
| ChatExport.PageExtends | offline/media/chat-export.js:295-317 | a short page ends the feed, and a full one extends what was read by exactly itself |
| ChatExport.FileRows | offline/media/chat-export.js:280-319 | the loop ends and every row of the whole feed is filed under its folder, in feed order |
| ChatExport.ReadThread | offline/media/chat-export.js:322-350 | a thread's section holds all its messages in order |
| ChatExport.EmitFolders | offline/media/chat-export.js:354-367 | pass 1 emits the selected folders that have messages, in tree order |
| ChatExport.EmitThreadsOf | offline/media/chat-export.js:373-377 | one folder's turn emits its selected threads in order |
| ChatExport.EmittedNext | offline/media/chat-export.js:375 | after each folder the emitted set is exactly the ids of the threads of the folders so far |
| ChatExport.EmitThreads | offline/media/chat-export.js:371-378 | the first loop of pass 2 emits the threads by tree position and remembers exactly their ids |
| ChatExport.EmitOthers | offline/media/chat-export.js:379-382 | the second loop emits exactly the selected threads not emitted yet |
| ChatExport.GatherSections | offline/media/chat-export.js:258-385 | for every feed and selection the whole gather returns its folder sections, then its thread sections |
| ChatExport.FolderMessagesConserved | offline/media/chat-export.js:352-367 | the folder sections hold exactly the retained rows whose folder is emitted, nothing lost and nothing twice |
| ChatExport.FolderSectionsAre | offline/media/chat-export.js:352-367 | every folder section is that of one folder of the tree, holds that folder's rows in feed order, and is followed by the sections of later folders |
| ChatExport.ThreadsConserved | offline/media/chat-export.js:369-382 | each selected thread gets exactly one section, inside the tree or outside |
| ChatExport.ThreadsInTreeOrder | offline/media/chat-export.js:369-382 | thread sections come by the place of their folder in the tree, in input order within a folder, and those outside the tree last, each with all its thread's messages |
| ChatExport.ChatsConserved | offline/media/chat-export.js:352-367 | with a folder selection pass 1 conserves the emitted rows and makes folder sections only |
| ChatExport.ExportConserves | offline/media/chat-export.js:258-385 | in one statement: folder sections first, then threads; rows and threads are conserved, and the threads stand in tree order |
| ChatSections.RowIsShown | offline/media/chat-export.js:297-311 | a row stays unless it is the card of a file without a thread; its message keeps the row's id, and a card becomes an event that names the file of the last thread given for it |
| ChatSections.FiledHolds | offline/media/chat-export.js:296-315 | the messages of a folder show, in feed order, exactly the rows that stay and have it as scope, and for the root also those without a scope |
| ChatSections.ThreadIsShown | offline/media/chat-export.js:322-382 | every selected thread has a section with its id, its folder and all its messages in order |
| ChatSections.ExportShows | offline/media/chat-export.js:258-385 | every section of an export shows a wanted folder, under its name and path and with exactly its rows, or a wanted thread; every wanted folder with rows and every wanted thread has one |
| ChatExport.OrderedNeverRepeats | offline/media/chat-export.js:274 | the tree an export is laid out by never repeats a folder, so conservation applies |
| OfficeComments.BeyondCounts | offline/media/office-comments.js:327-343 | among the new comments each key occurs as often as it occurs more often after than before |
| OfficeComments.BeyondInOrder | offline/media/office-comments.js:336-341 | the new comments are a subsequence of the comments after the save |
| OfficeComments.BeyondExtends | offline/media/office-comments.js:336-341 | of equal comments the earlier ones are the known ones: a longer list only adds at its end |
| OfficeComments.OrderOfBeforeIsIrrelevant | offline/media/office-comments.js:331-334 | the result depends on the comments before the save only as a multiset of keys |
| OfficeComments.CountKeys | offline/media/office-comments.js:333-334 | the map counts the keys of the comments before the save |
| OfficeComments.Consider | offline/media/office-comments.js:336-341 | one turn finds a comment new iff its key is used up, and keeps the counts right |
| OfficeComments.Compare | offline/media/office-comments.js:335-342 | the loop collects exactly the comments beyond the counted ones |
| OfficeComments.NewComments | offline/media/office-comments.js:327-343 | the function returns the multiset difference under the mode its two inputs choose, and nothing when either side is unreadable |
| CasualDocs.ByDateIsStableSort | offline/media/office-comments.js:248-250 | the date order is a sorted permutation that keeps comments of one date in place |
| CasualDocs.AnchorKeyInjective | offline/media/office-comments.js:256 | different places have different ordinals, whatever characters a tab id holds |
| CasualDocs.StoredComment | offline/media/office-comments.js:247-260 | a stored comment is keyed by its tab and content, and carries its place in date order and its text |
| CasualDocs.AnchorComment | offline/media/office-comments.js:262-263 | an anchor is keyed by its tab and place |
| CasualDocs.ModeOfTabs | offline/media/office-comments.js:328-331 | the ordinal mode is chosen iff some tab before has anchors and some tab after has stored comments |
| CasualDocs.AnchorsDecide | offline/media/office-comments.js:327-343 | for a document that had anchors, beside stored comments or not, a comment of any later state is new iff its place, counted over the tabs of its id so far, is reached more often than by the old anchors |
| CasualDocs.AnchorsToComments | offline/media/office-comments.js:240-263 | so it is for a document that had anchors only, whatever ids its tabs share |
| CasualDocs.AnchorsToTails | offline/media/office-comments.js:240-263 | when no two tabs share an id, in each tab exactly the comments past the number of anchors, in date order, are new |
| CasualDocs.UnchangedHasNothingNew | offline/media/office-comments.js:327-343 | comparing a document with itself finds nothing new iff it does not mix anchors with stored comments |
| XmlText.EscXmlIsClean | offline/media/chat-export-odt.js:31-43 | escaped text holds no markup character or quote but the ampersand of its entities |
| XmlText.DecodePass | offline/media/office-comments.js:67-73 | one global replacement turns exactly one entity back, and starts inside no other |
| XmlText.RefPass | offline/media/office-comments.js:71-72 | escaped text holds nothing the numeric-reference passes could take |
| XmlText.RefIsDecoded | offline/media/office-comments.js:71-72 | a numeric reference becomes the character its digits stand for, and the pass goes on behind it |
| XmlText.OthersStay | offline/media/office-comments.js:71-72 | where no numeric reference starts the character stays |
| XmlText.OneRefDecodes | offline/media/office-comments.js:65-74 | through all passes a text that is one numeric reference decodes to its character |
| XmlText.DecodeUndoesEscXml | offline/media/office-comments.js:65-74 | decoding undoes escaping on every string, with both sides as their successive global replacements |
| SecureShare.ShareDesk.Login | service/dmz.js:714-887 | one open leaves the permission table and binds the session exactly as the model's step says; a standing user or the creator gets their own session without a ceiling and no row changes; anyone else is themselves iff every grant of the open was stored, and otherwise the creator, clamped below full edit |
| SecureShare.OpenOutcome | service/dmz.js:825-887 | the rows and the session an open leaves, written out: the level earned on the shared node, its read bits as a root on a file's parent, and no other row |
| SecureShare.InheritedExactly | service/dmz.js:865-869 | what is inherited is what the nearest row above gives, and nothing from a root or without a row |
| SecureShare.OpenLowersExactly | service/dmz.js:739-745 | an open lowers a stored row iff a file share overwrites a stronger row on the parent, or a stronger grant on the file that no share gave |
| SecureShare.FileShareLowersFolderGrant | service/dmz.js:855-880 | viewing a shared file costs a recipient a write grant on the folder it lies in |
| SecureShare.StandingExactly | service/dmz.js:719-737 | standing is a manual grant on the listed node, inherited privilege where there is no row, or a membership above the leftover share grant |
| SecureShare.MemberTakenForRecipient | service/dmz.js:719-737 | a member is treated as a recipient iff the membership is at most a leftover share grant on the listed node, or no privilege is left at all |
| SecureShare.NestedShareLooksStanding | service/dmz.js:731-737 | a share inside an already granted folder takes its recipient for a standing principal |
| SecureShare.NothingInherited | service/dmz.js:865-869 | the read-only root rows file shares leave behind give children nothing |
| SecureShare.NeverStanding | service/dmz.js:693-711 | a newcomer's own grants never make them a standing principal over unrelated shares |
| SecureShare.NextOpen | service/dmz.js:833-881 | the next open raises the row on the shared node to the level now earned and leaves every other shared node's row |
| SecureShare.RunEarns | service/dmz.js:833-841 | after any run of unrelated opens every stored row is the highest level earned there |
| SecureShare.RunIsUpgradeOnly | service/dmz.js:833-887 | over any run grants never fall, the ceiling is the grant below full edit and absent at it, and no open is taken for standing |
| ChunkedUpload.ListedExactly | service/lib/chunked-upload.js:102-112 | the listing is exactly the received, or the missing, indices, each once in ascending order |
| ChunkedUpload.TotalExactly | service/lib/chunked-upload.js:66-70 | a file takes as many chunks of 4 MiB as it needs, and at least one |
| ChunkedUpload.LengthExactly | service/lib/chunked-upload.js:114-116 | all chunks but the last are full, and the last holds the rest |
| ChunkedUpload.StrangersChangeNothing | service/media.js:834-923 | requests to an ended session and those of other callers are refused and change nothing |
| ChunkedUpload.ChunkExactly | service/media.js:834-864 | which chunks are refused and why, where the bytes of any other land, and that one whose copy breaks off is not received |
| ChunkedUpload.StatusLists | service/media.js:870-881 | a status lists exactly what was received, in ascending order |
| ChunkedUpload.CompleteExactly | service/media.js:889-913 | a commit lists exactly what is missing, or ends the session and hands over its file if that is still there |
| ChunkedUpload.AbortEnds | service/media.js:918-923 | an abort ends the session |
| ChunkedUpload.RunOneMore | service/media.js:834-923 | a run ends with what its last request makes of the session |
| ChunkedUpload.WriteKeepsSlices | service/lib/chunked-upload.js:118-132 | writing part of a chunk in its place keeps every other chunk, and a whole chunk makes its own slice right |
| ChunkedUpload.HandleKeepsFaith | service/media.js:834-923 | whatever a request is and whoever sends it, received chunks keep the original's bytes and were delivered in full by the owner |
| ChunkedUpload.RunKeepsFaith | service/media.js:834-923 | so does every run of requests, in any order, with repeats and rejects and with other callers' chunks of any bytes |
| ChunkedUpload.ChunksCover | service/lib/chunked-upload.js:66-70 | files that agree chunk by chunk are equal: the chunks cover the file without a gap |
| ChunkedUpload.CommitIsOriginal | service/media.js:889-913 | a commit happens only when the owner delivered every index in full, and hands over exactly the owner's file |
| ChunkedUpload.UploadSession.constructor | service/lib/chunked-upload.js:65-93 | a new session has its file preallocated and nothing received |
| ChunkedUpload.UploadSession.Missing | service/lib/chunked-upload.js:107-112 | the missing list is the complement of the received set |
| ChunkedUpload.UploadSession.WriteChunk | service/lib/chunked-upload.js:122-132 | the bytes land at the chunk's offset and no other byte changes |
| ChunkedUpload.UploadSession.UploadChunk | service/media.js:834-864 | a chunk is refused, broken off or marked received exactly as the request model says |
| ChunkedUpload.UploadSession.UploadStatus | service/media.js:870-881 | reports the received indices and changes nothing |
| ChunkedUpload.UploadSession.UploadComplete | service/media.js:889-913 | reports what is missing, or commits the file and ends the session, or ends it as corrupted when the file is gone |
| ChunkedUpload.UploadSession.UploadAbort | service/media.js:918-923 | ends the session |
| Csv.ReadField | offline/drumate/backup.js:37-43 | a reader of section 2 of RFC 4180 recovers every printed cell, with commas, quotes and line ends in it |
| Csv.ReadRow | offline/drumate/backup.js:45-47 | it recovers every printed row and stops at the row's end |
| Csv.PrintedReadsBack | offline/drumate/backup.js:228-239 | it recovers every printed table cell by cell; null reads as the empty field |
| Csv.QuotedExactly | offline/drumate/backup.js:37-43 | a cell is quoted iff it holds a comma, a quote or a line end, and prints as it is otherwise |
| Meeting.MeetingRoom.ClaimStart | service/lib/meeting-lifecycle.js:82-96 | the first claim wins while the marker lives, and every claim wins without Redis |
| Meeting.MeetingRoom.JoinRoom | service/conference.js:185-261 | a join informs the peers and announces the meeting exactly when the model says |
| Meeting.MeetingRoom.LeaveRoom | service/conference.js:410-442 | a leave drops the socket's row, and the marker with the last row |
| Meeting.MeetingRoom.ReleaseSocket | router/push/index.js:182-209 | a dropped socket does the same, but only for a room it still had a row in |
| Meeting.MeetingRoom.Heartbeat | service/lib/meeting-lifecycle.js:104-111 | a heartbeat extends a live marker and never creates one |
| Meeting.MarkerStays | service/lib/meeting-lifecycle.js:59-65 | while signs of life come in time and the last row does not leave, the marker outlasts every one of them, restarts included |
| Meeting.NoSecondAnnouncement | service/conference.js:249-261 | between two announcements the last row left or the room fell silent for longer than the marker lasts |
| Meeting.AnnouncedAgainExactly | service/conference.js:249-261 | after an announcement the next join that finds nobody admitted among the rows is announced iff the last row left in between or a silence outlasted the marker |
| Meeting.NextMeetingIsAnnounced | service/conference.js:436-441 | after the last row left, the first join that starts a meeting is announced again |
| Meeting.AnnouncementIsARealStart | service/conference.js:241-247 | an announcement is never caused by a waiting guest, nor while someone else admitted has a row |
| Meeting.RowsAreRecent | service/lib/meeting-lifecycle.js:18-21 | the rows are those of the people in the call who joined since the last restart |
| Meeting.StartsExactly | service/conference.js:241-247 | a join counts as a start iff everyone else admitted in the call has been there since before the last restart |
| Meeting.InformsExactly | service/conference.js:241-248 | the peers are told of an admitted join iff a host joins or everyone else admitted has been in the call since before the last restart |
| Meeting.EmptiesExactly | service/conference.js:436-441 | a leave, or the drop of a socket with a row, clears the marker iff everyone who stays has been there since before the last restart |
| Meeting.AnnouncedIntoCallExactly | service/lib/meeting-lifecycle.js:18-21 | with somebody else admitted in the call, a join is announced once more iff all of them were there before the last restart and the last row left or a silence outlasted the marker |
| Meeting.NoRestartNoIntrusion | service/conference.js:241-247 | without a restart no announcement comes while somebody else admitted is in the call |
| Meeting.RunningMeetingAnnounced | service/lib/meeting-lifecycle.js:18-21 | two people meet, the server restarts, one leaves: the next join is announced though the other is still in the call |
| ReportLimiter.Limiter.ReportError | service/bootstrap.js:147-182 | one report logs, samples and updates the two module variables as the model's step says |
| ReportLimiter.LimitHolds | service/bootstrap.js:168-178 | the invariant of every run: what a session may still log in a closed window, given its slot |
| ReportLimiter.AtMostTwoSlots | service/bootstrap.js:164-178 | in any closed minute one session logs at most 59 reports, 30 more for each clear of the map in it |
| ReportLimiter.BoundIsReached | service/bootstrap.js:170-178 | a run that clears nothing reaches 59 |
| ReportLimiter.MapStaysSmall | service/bootstrap.js:173 | the session map never exceeds 5001 entries |
| ReportLimiter.SamplesAreApart | service/bootstrap.js:152-160 | two noise samples are more than a minute apart |
| ReportLimiter.SampledExactly | service/bootstrap.js:152-160 | noise is sampled iff more than a minute has passed since the clock's start and since every earlier sample |
| ReportLimiter.LogsExactly | service/bootstrap.js:169-178 | a report that opens a slot is logged, and in an open slot the first thirty are |
| ReportLimiter.ForgetsExactly | service/bootstrap.js:170-175 | the slots of other sessions are forgotten iff a new slot is opened over more than 5000, and never change otherwise |
| ReportLimiter.SessionIs | service/bootstrap.js:168 | reports without a session id count as one session |
| Archiver.Watcher.End | offline/media/download.js:244-260 | the first end sends the exit push and disarms the timer, and later ones do nothing |
| Archiver.Watcher.OnStdout | offline/media/download.js:269-287 | output re-arms an armed timer and reports progress only when it rises |
| Archiver.Watcher.OnStderr | offline/media/download.js:294-298 | a complaint is kept up to the limit and arms the timer until the end |
| Archiver.Watcher.OnTimer | offline/media/download.js:232-242 | a stall ends the run as failed, with the stall noted |
| Archiver.Watcher.OnFailed | offline/media/download.js:262-266 | a failed start ends the run as failed, with its message |
| Archiver.Watcher.OnExited | offline/media/download.js:261 | an exit ends the run with its code |
| Archiver.RunIsWellWatched | offline/media/download.js:227-298 | after every run: one exit push iff ended, progress strictly rising, and between a complaint and the end a timer armed from the last output |
| Archiver.EndTells | offline/media/download.js:244-266 | the end is told with the archiver's own code, or 1 for a stall or a failed start, and with the trimmed complaints and the reason unless the code is 0 or there are none |
| Archiver.FirstEndIsTold | offline/media/download.js:244-260 | whatever follows, the exit push stays the one of the first end |
| Archiver.ComplaintsAreKept | offline/media/download.js:294-297 | the complaints are kept from the first on, up to the one that reaches the limit |
| Archiver.RecordsAreTold | offline/media/download.js:270-286 | exactly the percentages above zero and above all before them are pushed |
| Archiver.SilenceIsWatched | offline/media/download.js:227-242 | through any silence after a complaint either the run has ended with its one exit push or a timer is armed that is due the limit after the last output |
| Archiver.SilenceEnds | offline/media/download.js:32-36 | an archiver that complained and stays silent has ended, with the one exit push, once the timer is handled, however late and whatever but output comes before |
| Archiver.TimerIsDue | offline/media/download.js:232-242 | a legal timer is handled only in a run that has not ended, and no earlier than the limit after the last output |
| Archiver.EndedStays | offline/media/download.js:244-260 | an ended run stays ended whatever comes after |

## Left out

Members that state less than one might expect:

- ParserMeetsMeaning: for documents whose section properties sit in the body or in a paragraph, one in each paragraph, with page geometry only inside them and no row inside a row, as the format has it.
- RevisionsHarmlessExactly: for documents in which no section property records a revision; for those `RevisionExact` says what happens to each.
- SecondRunFindsNothing: for editable documents, those of `EditableExactly`; the properties that end a section hold one self-closing page size and at most one self-closing margin element, with sizes and side margins present as plain digits. The code edits no other form, and a margin element without a `w:left` keeps its margin.
- EditedGeometry: under the same condition on the attributes, as are `EditedBlockIsEditedSect` and `NormalizedSections`.
- AnchorsToTails: for tabs with ids of their own; `AnchorsToComments` says what holds otherwise.
- KeyInjective: case is folded character by character, the same in the code and in the database; a letter whose lower case is two characters is not modelled.
- ImportIsSoundExactly: among the rows of one import; a collision of the import's root with a row already in the table is not part of this model.
- AnnouncedIntoCallExactly: people in the call are told apart by socket, so one who comes back under another socket counts as another person.
- DottedFileAsks: for a name before the dot that needs no repair, as are its companions; `SafeNameExactly` says what a repair does.
- ExportShows: for a folder tree without repeats, which `OrderedNeverRepeats` gives, and threads with ids of their own.
- OrderedIsPreorder: for rows without a loop below the root, which the depth column of the stored procedure forbids (`DepthsForbidLoops`); on any other rows the walk of the source does not end (`LoopsNeverEnd`).
- FileRows: takes from the stored procedure that its pages cut one fixed list of rows.
- RunIsUpgradeOnly: for shares on nodes that do not lie below one another and are not at once a shared folder and a shared file's parent; `OpenLowersExactly` and `NestedShareLooksStanding` say what happens otherwise.
- NoSecondAnnouncement: with Redis reachable at both announcements; without it every first joiner is announced, as the code intends.
- AtMostTwoSlots: counts clears of the map, since the code forgets every session with them.

What the repository does and the models do not:

- Word files: reading the zip, cutting XML into tags by regular expression, stripping comments, and replacing digits inside an attribute; attributes are parsed numbers, and `Math.round` works on exact integers.
- Archives: listing, extracting and unwrapping them, moving files into storage, mime types and categories, and the commit to the database; strings are characters, not UTF-16 units.
- Chat export: the file and folder names of a thread's section, normalizing a row's text and attachments, rendering documents, and checking thread access again in the worker.
- Comments: reading Word, Excel and PowerPoint parts, threads of a spreadsheet, and attributing a comment to an author; a date is its rank under the locale's order.
- Secure shares: which capabilities a link carries, the e-mail gate, the anonymous session, the guard on a reused session id, and the privilege mask shown to the client; `user_permission` follows the source's comments.
- Uploads: opening a session with its quota and permission checks, its expiry and sweep, storing the committed file, and requests that overlap in time.
- CSV: the queries behind the table and the other files of the backup.
- Meetings: rooms that are not meetings, the database's admission of a joiner, the early-arrival answer, who in the workspace is told, and the meeting card.
- Error reports: telling noise by its text.
- Downloads: building the file list, reading a percentage out of a line of output, and killing the process.
- Everything else in the repository: most of it is plumbing around stored procedures and would only add easy members.
