# PicWorks: a verified model of its algorithms

PicWorks is an X11 image tool. Below its windows lie algorithms that keep linked structures, parse and
print texts, pack bytes and index cubes. This project models them in Dafny, with the same branches, edge
cases and constants as the C code, and proves what they promise. Code that changes memory in place is
modelled as classes over linked nodes and arrays, with methods proved against functions on plain values;
what the code promises is then proved of those functions.

| source | modules |
|---|---|
| `pw/block.c` | `PixelLayers` (meaning), `PixelToggles` (toggled rectangles), `PixelBlocks` (linked lists) |
| `iomedley/io_lablib3.c`, objects | `OdlShape` (forests, walks), `OdlTree` (linked tree), `OdlEdits` (whole runs), `OdlKeywords` (keyword lists), `OdlFind` (searches) |
| `iomedley/io_lablib3.c`, texts | `Labels` (keywords), `OdlLabel` (printer, parser), `OdlValues` (values of several lines), `OdlComments` (comments, tabs), `OdlLongLines` (lines over the buffer), `Wildcard`, `KwdValues` |
| `lib/misc.c` | `PackBits`, on `Bytes`; `PackBitsNops` (a header -128 that goes unnoticed) |
| `iomedley/iomedley.c` | `Qube` (slices and orders), `QubeFile` (a file for every cube), `QubeReader` (buffers and loops), `QubeSlices` (slices in the header's own numbers) |
| `lib/MB.c` | `Outline` (meaning), `MenuReader` (the buffer that is cut up) |
| `lib/chd.c` | `Chd` |
| `lib/AMap.c` | `Curve` (interpolation), `AMap` (gestures as values), `AMapDraws` (what they draw), `AMapModes` (mode changes while a button is held), `AMapWidget` (the widget) |
| `lib/panes.c` | `Panes` (rules), `PanesColours` (colours as sets of primaries), `PanesMarks` (undone jumps), `PanesGame` (the board) |
| `iomedley/io_bmp.c` | `Bmp` (file format), `BmpPalette` (files byte by byte), `BmpFile` (streams and loops) |

**The pixel index.** Up to seven colour blocks select pixels. One global list holds the covered pixels in
scan order; each carries the list of blocks that cover it, the one painted last on top; each block has its
own sorted list, whose nodes point into the global one. The abstract value is a map from pixels to paint
orders. `Index.Valid` says that all three kinds of list are well linked, sorted, counted and in agreement
with that map. Every operation keeps it and changes the map as `Paint`, `Erase` and their rectangle forms say.

**The label tree.** `OdlShape.Forest` gives each object its children, its parent and its position; `Label`
mirrors it in parent, sibling and child pointers. Levels are a separate map, because a paste first puts the
object in place and then repairs the levels during a walk that itself steers by levels.

**Labels as text.** `OdlLabel.Parse` is the line-by-line state machine of the parser, `Print` the text the
printer writes.

**Cubes.** A cube is any function from sample, line and band to an item of `nb` bytes. `Stores` says that
a file holds it in one of the three organisations, with prefixes, suffixes and corners anywhere between;
`QubeFile` builds such a file for every cube.

**Where the code departs from what its names or comments say**, the model follows the code:

- `DeletePoint` reports a deletion that did not happen when the block's only point sorts before the one
  asked for (`pw/block.c:390`), so `TogglePoint` then does nothing. `PixelLayers.ToggleFlips` gives the exact
  condition, and `PixelToggles.SymmetricIff` that for a whole rectangle.
- `delete_all(i)` for a block that is not current empties its list but takes the current block's colour off
  the pixels (`pw/block.c:565-588` with `292`). `PixelBlocks.Index.DeleteAll` says exactly when the index survives;
  `PixelBlocks.EmptiedForeignBlock` is a case in which it does not.
- `OdlTraverseTree` from a childless object goes on to its right siblings whatever the root level
  (`iomedley/io_lablib3.c:5061`). `OdlShape.ScopeIsSubtree` says exactly when the restricted walk is the subtree,
  and `OdlShape.ScopeEscapes` shows one that is not.
- The wildcard comparison tries the last chunk of a pattern only at its leftmost place
  (`iomedley/io_lablib3.c:4977-4992`), so `*a` does not match `aa`, and lets a pattern with
  a wildcard start anywhere, so `a*` matches `ba`. `Wildcard.Accepts` is the exact meaning.
- The parser gives up at a line its 256-byte buffer cannot hold, though the printer writes keyword lines of
  any length. (The lines that open and end an object it builds in a buffer for 256 characters,
  `iomedley/io_lablib3.c:3592`; longer ones are outside the model.) `OdlLongLines.PrintThenParseIff` gives the exact
  condition for a label to be read back.
- `OdlDataType` calls `{` a sequence and `(` a set; only the distinction from other values matters here.
- `ToTiff` packs no bytes as one byte (`lib/misc.c:197`) and never packs the last run, so equal bytes grow
  (`lib/misc.c:194-204`, `PackBits.LastRunNotPacked`), and `UnTiff` takes the header -128, which section 9
  of TIFF Revision 6.0 makes a no-op, for 129 copies. `PackBits.PrefixesAgreeIff` gives the exact condition for decoding
  by section 9 block by block; `PackBitsNops.NopUnnoticed` shows that the whole data may agree all the same.
- The header's `dim` ignores the stride; the result is sized by the step counts (`iomedley/iomedley.c:502`).
- A change of mode while a button is held may leave a point the button counts as holding without a range
  (`lib/AMap.c:722-723` with `755-761`); interpolation then runs past the array. `AMapModes.HarmlessIff` gives
  the exact condition on the two modes.
- With one value for every column `XfSetAMap` overwrites the first value (`lib/AMap.c:373-379`).
- Undo in the Panes game writes back marked states (`lib/panes.c:469-471`), so marks outlive the hold, and a
  marked cell that is empty may jump at no cost (`PanesMarks.FreeJump`).
- `iom_WriteBMP` counts three bytes a word of a line (`iomedley/io_bmp.c:830`), so its size fields are wrong;
  its own reader ignores them. A picture with neither one band nor three is written as a grey one.

## Model

| member | source | states |
|---|---|---|
| PixelLayers.PaintMeaning | pw/block.c:199-279 | painting puts the block on top at the pixel, adds just that pixel to its region, and keeps every other region and the others' order at every pixel |
| PixelLayers.EraseMeaning | pw/block.c:281-326 | erasing removes just that pixel from the block's region, keeps the others' regions and order, and drops a pixel with no colour left |
| PixelLayers.WithoutCommutes | pw/block.c:291-320 | taking two colours off a paint order gives the same in either sequence |
| PixelLayers.ToggleFlips | pw/block.c:518-527 | a toggle flips membership if and only if the deletion walk does not overshoot the block's only point |
| PixelLayers.ToggleCanBeLost | pw/block.c:390-407 | a concrete toggle that changes nothing |
| PixelLayers.RectangleSides | pw/block.c:415-450 | the rectangle reaches from the anchor to the pointer, both included |
| PixelLayers.AddedMeaning | pw/block.c:415-450 | AddBlock as sets: the rectangle joins the region, or replaces it in replace mode; the current block is on top there; other regions and orders stay |
| PixelLayers.DeletedMeaning | pw/block.c:485-516 | DeleteBlock as sets: the region loses exactly the rectangle; other regions and orders stay |
| PixelLayers.UnselectedKept | pw/block.c:199-413 | over any run, blocks that are never current keep their pixels and their order among each other |
| PixelToggles.OvershootsOnLost | pw/block.c:452-483 | when it is a pixel's turn in the rectangle, the deletion walk overshoots if and only if its toggle is one of the lost ones |
| PixelToggles.ToggledMeaning | pw/block.c:452-483 | ToggleBlock as sets: the symmetric difference with the rectangle but for the lost toggles; other regions and orders stay |
| PixelToggles.SymmetricIff | pw/block.c:452-483 | it is the symmetric difference if and only if no pixel is left alone in the block before one that is toggled on |
| PixelToggles.OnePointLosesAll | pw/block.c:452-483 | in a block of one point exactly the toggles after the point are lost |
| PixelBlocks.StackNode.Cover | pw/block.c:255-258 | a new colour node on top of the pixel's list |
| PixelBlocks.StackNode.Raise | pw/block.c:209-220 | a colour in the list moves to its top, the others keep their order, no other pixel's list changes |
| PixelBlocks.StackNode.Uncover | pw/block.c:291-320 | a colour leaves the list wherever it is, or the list stays if it is absent |
| PixelBlocks.Index.FindOrInsert | pw/block.c:224-253 | from the head or from a hint before the pixel, finds the pixel's node or links a new one in, keeping scan order |
| PixelBlocks.Index.NewBlock | pw/block.c:199-279 | paints the pixel for the current block; returns no node exactly when the block covered it already, else a node that points at the pixel's |
| PixelBlocks.Index.DeleteBlockNode | pw/block.c:281-326 | takes the colour off, unlinks the pixel when none is left, and reports the colour now on top or -1 |
| PixelBlocks.Index.AddPoint | pw/block.c:328-366 | from any valid index the result is valid and its paint orders are Paint of the old ones |
| PixelBlocks.Index.DeletePoint | pw/block.c:368-413 | from any valid index the result is valid and its paint orders are Erase of the old ones; when it reports 1 |
| PixelBlocks.Index.FindNode | pw/block.c:377-407 | the deletion walk finds the pixel's node if and only if there is one; when the loop is skipped |
| PixelBlocks.Index.TogglePoint | pw/block.c:518-527 | the index stays valid and changes as Toggle says |
| PixelBlocks.Index.AddBlock | pw/block.c:415-450 | with either orientation of the rectangle and either mode, the paint order of every pixel afterwards |
| PixelBlocks.Index.DeleteBlock | pw/block.c:485-516 | the paint order of every pixel afterwards |
| PixelBlocks.Index.ToggleBlock | pw/block.c:452-483 | the paint order of every pixel after the rectangle was toggled point by point, lost toggles included |
| PixelBlocks.Index.DeleteAll | pw/block.c:565-588 | emptying the current block takes its colour off every pixel; the index stays valid if and only if the block is the current one, or none, or empty |
| PixelBlocks.EmptiedForeignBlock | pw/block.c:565-588 | with block 2 current, emptying block 3 leaves its list without a node and its colour on a pixel, so the index is not valid |
| PixelBlocks.Index.Run | pw/block.c:199-413 | any run of additions, deletions, toggles and changes of the current block keeps the index valid and leaves the paint orders the run calls for |
| PixelBlocks.OvershootsIff | pw/block.c:390-407 | the value-level overshoot condition is the one of the linked list: one node, sorting before the pixel |
| OdlShape.PreorderExact | iomedley/io_lablib3.c:5047-5085 | the preorder of an object lists exactly its subtree, each object once |
| OdlShape.WalkSubtree | iomedley/io_lablib3.c:5047-5085 | stepping the traversal from an object meets its subtree in preorder and then leaves through the exit the code computes |
| OdlShape.ScopeWalk | iomedley/io_lablib3.c:5047-5085 | the walk with an object's own level as root level visits exactly Scope and stops |
| OdlShape.ScopeIsSubtree | iomedley/io_lablib3.c:5061-5062 | that is the subtree if and only if the object has a child or no right sibling |
| OdlShape.ScopeEscapes | iomedley/io_lablib3.c:5061-5062 | a concrete label: the walk restricted to a childless object goes on to its sibling |
| OdlShape.WalkToEnd | iomedley/io_lablib3.c:721-724 | with root level 0 the walk visits the rest of the label in preorder and stops |
| OdlShape.CutWellFormed | iomedley/io_lablib3.c:773-797 | detaching a subtree leaves a well-formed forest |
| OdlShape.GraftWellFormed | iomedley/io_lablib3.c:837-987 | attaching a root anywhere outside its own subtree leaves a well-formed forest |
| OdlShape.GraftUndoesCut | iomedley/io_lablib3.c:773-987 | pasting a cut object back where it was restores the forest |
| OdlShape.PartlyStep | iomedley/io_lablib3.c:1400-1415 | the level set at a step of the repairing walk, from a parent's, is the final one |
| OdlShape.PartlyNext | iomedley/io_lablib3.c:1400-1415 | the walk over half-repaired levels goes where it would go with all levels final |
| OdlShape.SettledLeveled | iomedley/io_lablib3.c:1400-1415 | with the subtree shifted to its place's level every child is one level below its parent |
| OdlShape.LevelIsDepth | iomedley/io_lablib3.c:1400-1415 | levels below an object are its level plus the distance to it |
| OdlShape.InOneTree | iomedley/io_lablib3.c:773-987 | every object is in the preorder of exactly one root |
| OdlTree.Label.NewObjDesc | iomedley/io_lablib3.c:1090-1128 | a new object is a tree of its own at level 0; all else stays |
| OdlTree.Label.Cut | iomedley/io_lablib3.c:773-797 | after the pointer surgery all pointers mirror the cut forest; levels stay; a null object changes nothing |
| OdlTree.Label.Paste | iomedley/io_lablib3.c:837-861 | the object becomes the parent's last child, pointers mirror that, and the levels of its subtree are settled |
| OdlTree.Label.PasteBefore | iomedley/io_lablib3.c:901-924 | the same, right before a sibling |
| OdlTree.Label.PasteAfter | iomedley/io_lablib3.c:964-987 | the same, right after a sibling |
| OdlTree.Label.AdjustLevels | iomedley/io_lablib3.c:1400-1415 | the repairing loop shifts exactly the object's subtree to the level its place asks for; every other level stays |
| OdlTree.Label.TraverseTree | iomedley/io_lablib3.c:5047-5085 | the pointer walk computes Next of the forest under the levels in force, even while they are wrong |
| OdlTree.Label.NextObjDesc | iomedley/io_lablib3.c:690-732 | one search step in each of the scopes, and the change of scope after the first child |
| OdlEdits.Perform | iomedley/io_lablib3.c:773-987 | every call on the linked tree is the edit it stands for; classes and keywords stay |
| OdlEdits.PerformAll | iomedley/io_lablib3.c:773-987 | any sequence of calls on the linked tree is the run of their edits, to which RunSound applies |
| OdlEdits.RunSound | iomedley/io_lablib3.c:773-987 | after any run of new objects, cuts and pastes no object is lost, each is in one tree and once, and every object below the label's root has its depth as level |
| OdlKeywords.CutConsistent | iomedley/io_lablib3.c:1705-1728 | after a cut every keyword still stands in exactly one place, or is loose |
| OdlKeywords.PutConsistent | iomedley/io_lablib3.c:1770-1910 | likewise after a paste |
| OdlKeywords.PutUndoesCut | iomedley/io_lablib3.c:1705-1910 | pasting a cut keyword back where it was restores all lists |
| OdlKeywords.LinksAfterCut | iomedley/io_lablib3.c:1711-1727 | the pointers a shorter list asks for are the old ones led round the keyword |
| OdlKeywords.LinksAfterPut | iomedley/io_lablib3.c:1776-1786 | the pointers a longer list asks for are the old ones led through the keyword |
| OdlKeywords.KeywordLists.NewHolder | iomedley/io_lablib3.c:1119-1120 | a new object has no keywords; all lists stay |
| OdlKeywords.KeywordLists.Collect | iomedley/io_lablib3.c:4051-4053 | pasting new keywords one by one, as the parser does, gives a new object exactly the statements in order; the other lists stay |
| OdlKeywords.KeywordLists.NewKwd | iomedley/io_lablib3.c:2011-2050 | a new keyword belongs to no object; all lists stay |
| OdlKeywords.KeywordLists.CutKwd | iomedley/io_lablib3.c:1705-1728 | the doubly linked list mirrors the old list without the keyword; all else stays |
| OdlKeywords.KeywordLists.PasteKwd | iomedley/io_lablib3.c:1770-1793 | the loose keyword is the object's last |
| OdlKeywords.KeywordLists.PasteKwdBefore | iomedley/io_lablib3.c:1831-1852 | the loose keyword stands right before the other one |
| OdlKeywords.KeywordLists.PasteKwdAfter | iomedley/io_lablib3.c:1891-1912 | the loose keyword stands right after the other one |
| OdlFind.VisitsStep | iomedley/io_lablib3.c:690-732 | stepping a search from its start visits exactly the objects of its scope in order |
| OdlFind.SearchKwds | iomedley/io_lablib3.c:1540-1555 | counting on through one object's keywords stops at the wanted match or adds all of its matches |
| OdlFind.LiteralFits | iomedley/io_lablib3.c:1540-1555 | for texts without wildcards: searching for a name finds the keywords of that name, for a value those of that value, for both those that have both |
| OdlFind.FittingExact | iomedley/io_lablib3.c:1540-1555 | the fitting keywords are exactly those that fit, in increasing order |
| OdlFind.MatchingExact | iomedley/io_lablib3.c:607-649 | the matching objects are exactly those that match, in visiting order |
| OdlFind.FindKwd | iomedley/io_lablib3.c:1523-1561 | the k-th matching keyword in visiting order with its owner, or none if there are fewer |
| OdlFind.FindObjDesc | iomedley/io_lablib3.c:607-649 | the k-th matching object in visiting order, or none if there are fewer |
| OdlLabel.PrintLabel | iomedley/io_lablib3.c:3584-3670 | for every root level, the recursion over first children and right siblings writes a whole label, one object or a run of siblings; down to the root level only first children are printed |
| OdlLabel.PrintKeywords | iomedley/io_lablib3.c:3688-3751 | one line a keyword, indented, without the value for standard-data-unit names |
| OdlLabel.CheckBalance | iomedley/io_lablib3.c:5851-5881 | true exactly when what follows the '=' nests evenly or its quotes close |
| OdlLabel.NestingLevel | iomedley/io_lablib3.c:4188-4212 | the counts of braces and of parentheses left open |
| OdlLabel.CutComment | iomedley/io_lablib3.c:3904-3925 | the line is cut at the first comment opener outside quotes |
| OdlLabel.ExtendStatement | iomedley/io_lablib3.c:3929-4083 | a line is appended, and the statement is carried out as soon as it is complete and balanced |
| OdlLabel.ParseLine | iomedley/io_lablib3.c:3882-4085 | one turn of the parser's loop is one step of the state machine |
| OdlLabel.CommentDropped | iomedley/io_lablib3.c:3902-3925 | a line is cut at its first `/*` before which the quotes close, and loses the blanks before it; a line without one stays as it is |
| OdlLabel.RunKwd | iomedley/io_lablib3.c:3929-4083 | a keyword is read whatever the blanks before it and around its equals sign; a value that goes on over lines is read as its lines joined by newlines, up to the first line at which it counts as whole |
| OdlLabel.ObjStep | iomedley/io_lablib3.c:3974-4000 | a line that names an object opens one, whatever the blanks |
| OdlValues.OneLine | iomedley/io_lablib3.c:5851-5881 | of values of one line exactly those are read whole that are balanced and do not end in '=' |
| OdlValues.Quoted | iomedley/io_lablib3.c:5851-5881 | a quoted text of any number of lines is read through its closing quote |
| OdlValues.Listed | iomedley/io_lablib3.c:5851-5881 | a list of any number of lines is read until its braces and parentheses close |
| OdlComments.StepNoted | iomedley/io_lablib3.c:3888-3927 | a comment after a line whose quotes close, with blanks and tabs before it, changes nothing for the parser |
| OdlComments.CommentsIgnored | iomedley/io_lablib3.c:3875-4103 | any file parses to the same tree when comments are put behind such lines |
| OdlComments.PrintThenParseNoted | iomedley/io_lablib3.c:3584-4085 | a printed label with comments behind its lines is read back as it was |
| OdlComments.KwdPlain | iomedley/io_lablib3.c:3688-3751 | every printed keyword line whose quotes close may have one |
| OdlComments.NoteOnly | iomedley/io_lablib3.c:3902-3929 | a line of blanks and a comment between statements is passed over |
| OdlComments.ReturnOff | iomedley/io_lablib3.c:3888-3888 | a carriage return before the newline makes no difference |
| OdlComments.BareEnd | iomedley/io_lablib3.c:3935-3945 | END_OBJECT alone ends an object |
| OdlComments.NoteExample | iomedley/io_lablib3.c:3902-3925 | a concrete label with a comment |
| OdlComments.PrintExample | iomedley/io_lablib3.c:3688-3751 | printed keywords: two blanks a level, and standard-data-unit names alone |
| OdlLabel.ParseFile | iomedley/io_lablib3.c:3875-4103 | the parser builds exactly the tree of the state machine run over the file, none for an empty file |
| OdlLabel.RunNode | iomedley/io_lablib3.c:3882-4085 | reading the printed text of an object, in any open label and before any further text, adds exactly that object |
| OdlLabel.PrintThenParse | iomedley/io_lablib3.c:3584-4085 | a label with identifier names, trimmed balanced values of one line or more and lines that fit is read back as it was |
| OdlLongLines.PrintThenParseIff | iomedley/io_lablib3.c:3882-3890 | for every label the printer's own buffer can hold, it is read back if and only if all lines of its keywords fit the parser's, and so do the ends of objects other than the last lines |
| OdlLongLines.LongValueLost | iomedley/io_lablib3.c:3882-3890 | a concrete label that is printed but not read back |
| Wildcard.WildCardCompare | iomedley/io_lablib3.c:4909-5005 | after unquoting, the chunk search is true exactly when Accepts holds |
| Wildcard.LeftmostSuffices | iomedley/io_lablib3.c:4965-4994 | taking the leftmost occurrence of a chunk loses no match when wildcards follow |
| Wildcard.LastChunk | iomedley/io_lablib3.c:4976-4992 | for the last chunk the leftmost occurrence is right exactly when it uses up the text |
| Wildcard.LeftmostCanMiss | iomedley/io_lablib3.c:4976-4992 | a pattern and a text that glob-match but are refused |
| Wildcard.Unquoted | iomedley/io_lablib3.c:4921-4946 | a quoted text stands for what is between its quotes, without outer blanks, and any other text for itself |
| KwdValues.SingleValue | iomedley/io_lablib3.c:2271-2309 | what does not start with a bracket after its blanks is one value |
| KwdValues.GetAllKwdValues | iomedley/io_lablib3.c:2271-2309 | the loop returns the values of a list, or the one value of anything else |
| KwdValues.AtomLen | iomedley/io_lablib3.c:5223-5291 | the scanner takes an atom whole from whatever text follows, without the blanks after it |
| KwdValues.ValueText | iomedley/io_lablib3.c:5223-5291 | scanning a nested value inside any text yields its leaves and then the values of the rest |
| KwdValues.FlattenText | iomedley/io_lablib3.c:2271-2309 | for every nested set or sequence of atoms, with white space before items and blanks after them, the values returned are the leaves in order |
| PackBits.ToTiff | lib/misc.c:152-206 | the output is exactly Packed, decodes to the input, has no header -128, and is at most one byte in 128 longer; for no bytes it packs one |
| PackBits.RunPacked | lib/misc.c:164-196 | a run of three or more with something after it becomes runs of up to 128, and the rest is packed on its own |
| PackBits.NothingToPack | lib/misc.c:164-204 | bytes no two neighbours of which are equal become literals |
| PackBits.LastRunNotPacked | lib/misc.c:194-204 | bytes that are all equal are not packed and come out longer |
| PackBits.UnTiff | lib/misc.c:208-236 | on a stream whose headers are followed by their bytes it delivers Unpacked |
| PackBits.PackAndUnpack | lib/misc.c:152-236 | unpacking what was packed gives the bytes back for every length from 1 |
| PackBits.UnpacksBySection9 | lib/misc.c:208-236 | without the header -128 the decoder is that of section 9 of TIFF Revision 6.0 |
| PackBits.PrefixesAgreeIff | lib/misc.c:208-236 | the data after every complete block are those of section 9 if and only if no header is -128 |
| PackBits.NopUnpacked | lib/misc.c:216-223 | a stream with that header whose data are not those of section 9 |
| PackBitsNops.NopUnnoticed | lib/misc.c:216-223 | a stream that starts with that header whose data are, as a whole, those of section 9 |
| PackBits.FirstNop | lib/misc.c:208-236 | at the first header -128: 129 copies of the next byte against a block with that byte as header; the decoders agree on a stream if and only if they do from there on |
| PackBits.PacksRun | lib/misc.c:183-189 | a run block of 1 to 128 copies extends an encoding; a run of one reads as a literal |
| Qube.SliceOfWhole | iomedley/iomedley.c:436-623 | every item of a strided slice is the item of the full read at lo-1+i*skip on each axis, for any prefixes, suffixes and corner |
| QubeSlices.PlainAxis | iomedley/iomedley.c:479-502 | for 1 <= lo <= hi <= size and skip >= 1 an axis has (hi - lo) / skip + 1 items, those at lo - 1 + i * skip |
| QubeSlices.Defaults | iomedley/iomedley.c:479-483 | a 0 for size, lo, hi or skip reads as 1, 1, size or 1, and a hi past the size as the size |
| QubeSlices.ReadItem | iomedley/iomedley.c:535-598 | item (i, j, k) of what is read of any file is the file's item at the coordinates the header's numbers ask for, in every plane the file holds |
| QubeSlices.PlanesReadIff | iomedley/iomedley.c:535-566 | exactly the planes that the file holds are read |
| QubeSlices.ReadPlain | iomedley/iomedley.c:436-623 | the buffers and loops deliver those items, and a result of exactly their number |
| QubeSlices.PlainFile | iomedley/iomedley.c:31-35 | where each organisation keeps sample x of line y of band z |
| QubeSlices.PixelItem | iomedley/iomedley.c:329-1181 | item (sample i, line j, band k) of a slice of a cube in pixel order is the cube's item at lo - 1 + i * skip on each axis |
| QubeSlices.PixelsDefaulted | iomedley/iomedley.c:479-483 | with defaults filled in the pixels are the same |
| QubeSlices.Asked | iomedley/iomedley.c:329-353 | a slice stated in full is the one that is read, and numbers left at 0 stay as they were |
| Qube.CubeItem | iomedley/iomedley.c:579-598 | item (i, j, k) of what was copied is the file's item at that place of the grid |
| Qube.GridHolds | iomedley/iomedley.c:541-557 | every item of a slice lies within a file that is long enough |
| Qube.PlaneCopied | iomedley/iomedley.c:541-598 | seeking to a plane's first wanted line and copying relative to it gives the plane of the grid |
| Qube.ReadAgain | iomedley/iomedley.c:479-483 | filling in the defaults changes nothing a read depends on |
| Qube.OrganisationIndependent | iomedley/iomedley.c:329-623 | the slice of a stored cube in pixel order depends on the cube and the slice alone, not on organisation, prefixes, suffixes or corners |
| Qube.BipItem | iomedley/iomedley.c:1157-1175 | each item of the converted data is the item of the input that moves there |
| Qube.MovedBack | iomedley/iomedley.c:1157-1175 | the reorganisation is a bijection of the items |
| Qube.PlaceUnplaced | iomedley/iomedley.c:1165-1169 | a linear index determines its coordinates and is determined by them |
| Qube.InOrgFollowsOrder | iomedley/iomedley.c:31-35 | the order table puts samples, lines and bands where each organisation has them |
| QubeFile.EveryCubeStored | iomedley/iomedley.c:541-593 | any cube of equal items has a file that stores it, in every organisation and with any prefixes, suffixes, pads and corner |
| QubeFile.StoreThenRead | iomedley/iomedley.c:329-1181 | storing a cube, reading any slice and putting it into pixel order gives the cube's slice |
| QubeReader.ReadFully | iomedley/iomedley.c:384-410 | reading in limited pieces gets what one read would, up to the end of the file |
| QubeReader.CopyLine | iomedley/iomedley.c:585-597 | a line's items at the stride, whether copied as one block or one by one |
| QubeReader.IHeader.Prepare | iomedley/iomedley.c:473-503 | defaults, clipping and zero-based bounds on all axes, and the size of the result |
| QubeReader.IHeader.SetSlice | iomedley/iomedley.c:329-353 | the positive fields of a user's slice replace the header's, in the order of the organisation |
| QubeReader.IHeader.ReadQubeData | iomedley/iomedley.c:436-623 | the data are the grid's items up to the last plane the file holds, the size is exact, and the header keeps the slice |
| QubeReader.ReadTwice | iomedley/iomedley.c:428-429 | a second call with the same header returns the same data |
| QubeReader.Filled | iomedley/iomedley.c:502-517 | a file that holds the whole cube fills the result exactly |
| QubeReader.ConvertToBIP | iomedley/iomedley.c:1093-1181 | a fresh copy in pixel order, none for an unknown organisation |
| QubeReader.AlreadyBip | iomedley/iomedley.c:1157-1158 | for data in pixel order the general conversion is the plain copy the code makes |
| QubeReader.SlicePixels | iomedley/iomedley.c:329-1181 | slice, read and convert together give the pixels of the cube's slice for all three organisations |
| Outline.ItemsStopBefore | lib/MB.c:83-111 | the items under a line end at the latest where the next line is less deep, so cutting lines never passes the caller's place |
| Outline.ItemsOutlined | lib/MB.c:83-111 | parsing an outline at its level adds its menus, numbered in the order of the lines, and stops after it |
| Outline.OutlineThenParse | lib/MB.c:56-136 | the outline of every menu with plain labels is parsed back into the menu, with consecutive ids in preorder |
| Outline.PrintThenParse | lib/MB.c:129-136 | what print_menu writes is parsed back too, with the printed ids in the labels |
| Outline.OneLineMenu | lib/MB.c:56-80 | a text of one line without a newline is a menu without items |
| Outline.SixSpaces | lib/MB.c:116-123 | what counts as white space |
| Outline.PrintMenu | lib/MB.c:129-136 | the recursion writes the indented outline with a tab and the id after each label |
| MenuReader.MenuReader.Items | lib/MB.c:80-111 | the loop that overwrites newlines in its buffer parses as if the text were intact, never indexes an empty item list, and ends |
| MenuReader.MenuReader.StringToMenu | lib/MB.c:56-114 | the menu and the next id for any text, with ids started anew or continued |
| MenuReader.Reread | lib/MB.c:56-136 | a menu's outline put into a buffer and read is the menu again |
| Chd.SortedDirIs | lib/chd.c:82-101 | the names inserted one by one are sorted, each as often as it is an entry but for the two dots |
| Chd.LeqFirst | lib/chd.c:94-94 | the order is that of the first characters in which names differ |
| Chd.GetSortedDir | lib/chd.c:76-106 | the array insertion, growing as it does, stays within capacity and yields that directory |
| Chd.InsertAt | lib/chd.c:96-99 | the shift that starts one slot above the last name still inserts exactly |
| Chd.SortedDistinct | lib/chd.c:82-101 | distinct entries give distinct names |
| Chd.Narrow | lib/chd.c:124-131 | one round keeps exactly the names that share one more character, or one that shares most |
| Chd.CompleteMatch | lib/chd.c:109-152 | -1 and the name for one match, the longest common prefix for several, the longest agreeing length for none |
| Chd.CutName | lib/chd.c:134-136 | a completion that does not fit the buffer is cut at its end |
| Chd.OneOutcome | lib/chd.c:133-151 | of these three outcomes exactly one is the case |
| Chd.FullName | lib/chd.c:134-136 | a completion that fits the buffer is the full name |
| Curve.Interpolate | lib/AMap.c:412-432 | the in-place loops end within bounds and give the interpolated curve |
| Curve.WholeValue | lib/AMap.c:423-427 | in whole numbers: the value k - f steps along the line from a set point to the next one, rounded towards zero |
| Curve.LeavesIff | lib/AMap.c:420-422 | going from set point to set point leaves the array if and only if the last point is not set |
| Curve.BetweenNeighbours | lib/AMap.c:424-427 | interpolated values lie between those of the set points around them; set values are untouched |
| Curve.RisingCurve | lib/AMap.c:424-427 | set points that do not fall give a curve that does not fall, truncation included |
| Curve.InterpolatedTwice | lib/AMap.c:412-432 | interpolating again changes nothing |
| AMap.RunSound | lib/AMap.c:354-860 | any sequence of gestures, harmless mode changes, clear, set, centre and restore touches points of the map only, ends every interpolation, and keeps both ends set and window and grip within the points |
| AMap.FirstClear | lib/AMap.c:766-785 | clearing a new map makes it sound in every mode |
| AMap.GripRange | lib/AMap.c:591-625 | the neighbours of the grip that a move or deletion takes enclose the pointer strictly |
| AMap.PhotographRestored | lib/AMap.c:820-860 | restoring a photograph brings back the window it was taken of |
| AMap.CenteredWindow | lib/AMap.c:790-815 | centring moves the data under the window to the middle and sets its ends |
| AMap.SpreadPlaces | lib/AMap.c:361-386 | where each value goes, and that the first is lost when every column gets one |
| AMapDraws.PressAdds | lib/AMap.c:585-645 | adding sets a point in the pointer's column at the pointer's height, and nothing on a set point; other set points stay |
| AMapDraws.PressMoves | lib/AMap.c:591-645 | moving takes the nearest set point to the pointer; an end of the window changes its height only |
| AMapDraws.PressDeletes | lib/AMap.c:591-645 | deleting unsets the nearest set point unless it is an end of the window |
| AMapDraws.NearestGrip | lib/AMap.c:591-604 | the set point taken is the nearest, the right one of two equally near |
| AMapDraws.DragMoves | lib/AMap.c:664-681 | a drag takes the point along between its neighbours at the pointer's height; other set points stay |
| AMapDraws.DragRaises | lib/AMap.c:664-667 | an end of the window changes its height only |
| AMapDraws.DragSlides | lib/AMap.c:683-690 | sliding moves the window against the pointer, as far as the map goes |
| AMapDraws.AnchorsSet | lib/AMap.c:607-630 | an end of the window becomes a set point, where the curve is, exactly if no set point lies between it and the grip |
| AMapDraws.ReleaseDrags | lib/AMap.c:693-737 | letting go is a last drag, after which nothing is held |
| AMapDraws.ClearedCurve | lib/AMap.c:766-785 | a cleared map is flat on both sides and rises evenly over the middle window, fractions dropped |
| AMapDraws.SpreadOne | lib/AMap.c:354-390 | one value makes a flat curve |
| AMapDraws.SpreadTwo | lib/AMap.c:354-390 | two values are those at the window's ends |
| AMapDraws.SpreadOutside | lib/AMap.c:361-386 | outside the window the curve goes on flat to the right, and no point but the ends is set |
| AMapModes.HarmlessIff | lib/AMap.c:576-761 | changes from one given mode to another while a button is held keep every run on a new map within the points if and only if the first is none, add, delete or move, or the second is not, or the window is at most two columns wide |
| AMapModes.HarmfulChange | lib/AMap.c:576-761 | for every other pair of modes a run that ends in a motion after which interpolation looks past the last point |
| AMapWidget.PerformAll | lib/AMap.c:354-860 | any run of calls on a widget, all of them allowed, is the run of their events and leaves the map sound |
| AMapWidget.Widget.SetData | lib/AMap.c:354-390 | refused exactly if there are more values than columns, else the curve through them |
| AMapWidget.Widget.Press | lib/AMap.c:576-646 | a press in each mode, while another button is held or not, changes the widget as the value-level gesture says and leaves a sound one sound |
| AMapWidget.Widget.Motion | lib/AMap.c:647-692 | likewise a motion, held or not, whenever its points are points of the map |
| AMapWidget.Widget.Release | lib/AMap.c:693-737 | likewise a release |
| AMapWidget.Widget.Center | lib/AMap.c:790-815 | likewise centring |
| AMapWidget.Widget.Restore | lib/AMap.c:844-860 | likewise restoring |
| AMapWidget.Widget.Value | lib/AMap.c:396-407 | the interpolated values under the window |
| Panes.JumpCosts | lib/panes.c:72-124 | by the rules for jumping over and landing on, a coloured pane's jump uses up primaries and keeps colours in 0..6 |
| PanesColours.NextBySets | lib/panes.c:72-93 | with colours as sets of primaries: what can be jumped over, and what is left of it; every other combination is refused |
| PanesColours.LandBySets | lib/panes.c:102-124 | what can be landed on; the result is the union |
| PanesColours.JumpsIff | lib/panes.c:281-305 | a held pane jumps to a marked cell an even distance away exactly if it may jump over the one half-way and land there |
| PanesColours.JumpColours | lib/panes.c:306-314 | a completed jump empties the pane's cell, leaves the jumped-over pane's rest half-way, mixes the colours where it lands, and changes no other colour |
| PanesColours.CanJumpIff | lib/panes.c:72-124 | when a pane may jump in a direction, in terms of primaries |
| PanesColours.MoreMovesIff | lib/panes.c:474-502 | moves are left if and only if some cell that does not read as empty may jump over one of its eight neighbours |
| Panes.JumpLowersTotal | lib/panes.c:303-314 | a completed jump lowers the primaries on the board if and only if the pane that jumped has a colour |
| Panes.ClickKeeps | lib/panes.c:255-326 | every click keeps moves equal to the stack depth; only a jump counts and changes colours |
| Panes.CleanJump | lib/panes.c:281-314 | in play without undo a jump goes exactly two steps and always uses up a primary |
| Panes.GameEnds | lib/panes.c:230-327 | without undo, jumps made plus primaries left never exceed the primaries at the start |
| Panes.JumpTakenBack | lib/panes.c:309-314 | the pushed entry gives a jump's colours back |
| Panes.UndoRestores | lib/panes.c:449-472 | after any play that nets n moves, n undos restore all colours |
| Panes.UndoLeavesMarks | lib/panes.c:469-471 | an undone jump leaves marked panes with none held, so the undo-free guarantees no longer apply |
| PanesMarks.TwoClicks | lib/panes.c:255-314 | a cell that does not read as empty and may jump by the rules does so in two clicks, the target being marked by the first |
| PanesMarks.FreeJump | lib/panes.c:230-327 | play from a new board, with one undo, in which a marked empty cell jumps and no colour changes |
| Panes.NewGame | lib/panes.c:225-225 | a new board with every pane coloured meets the assumptions |
| PanesGame.PanesGame.Action | lib/panes.c:255-327 | a click is refused without effect on board or hold, or carried out as Click says; the game is over exactly if no pane can jump |
| PanesGame.PanesGame.Act | lib/panes.c:255-322 | the click without the look for further moves |
| PanesGame.PanesGame.Undo | lib/panes.c:449-472 | pops one entry, lets go of a held pane, and writes the three states back in the order that matters |
| PanesGame.PanesGame.LookForMoves | lib/panes.c:474-502 | true exactly if some pane can jump; the current cell is put back only then |
| Bmp.RoundTrip | iomedley/io_bmp.c:165-885 | a picture of any width and height comes back with the same size, bands and pixels if and only if it has one band or three |
| Bmp.WriteThenRead | iomedley/io_bmp.c:165-885 | what comes back of a picture with any number of bands |
| Bmp.HeadBack | iomedley/io_bmp.c:832-858 | the fields of the written header as the reader takes them |
| Bmp.IntBack | iomedley/io_bmp.c:1007-1038 | a number below 2^32 survives its four bytes |
| BmpPalette.Read8 | iomedley/io_bmp.c:165-589 | a file of indices into a map of 256 colours, its bytes at the places the format gives them, is read as the map's red, green and blue of each index, or as one band if all colours are greys |
| BmpPalette.ReadOld8 | iomedley/io_bmp.c:215-589 | the same for the old header, whose map has three bytes a colour |
| BmpPalette.Read24 | iomedley/io_bmp.c:165-707 | a file of blue, green, red rows from the last one up is read as red, green, blue from the first one down |
| BmpPalette.EncodedStores | iomedley/io_bmp.c:723-885 | the writer puts every byte of header, map and pixels at those places |
| BmpPalette.Accepted | iomedley/io_bmp.c:229-256 | one plane and 1, 4, 8 or 24 bits without compression, or 32 bits with any code up to 2 |
| BmpPalette.EncodedRest | iomedley/io_bmp.c:861-1004 | all other bytes are zero: the fourth of a colour, and those that fill up a row; nothing follows |
| BmpPalette.OtherFields | iomedley/io_bmp.c:830-858 | the signature, the sizes as the code counts them, resolution and colour counts of the written header |
| BmpFile.WriteBMP | iomedley/io_bmp.c:723-885 | converts to pixel order and writes exactly the encoded picture; refuses an unknown organisation |
| BmpFile.ReadBMP | iomedley/io_bmp.c:165-359 | reads exactly what the format says, rejecting bogus headers |
| BmpFile.LoadBMP8 | iomedley/io_bmp.c:562-589 | bottom-up rows of padded colour indices become grey or RGB pixels |
| BmpFile.LoadBMP24 | iomedley/io_bmp.c:677-707 | bottom-up padded rows of blue, green, red become RGB pixels |
| BmpFile.WriteAndRead | iomedley/io_bmp.c:165-885 | a cube of one or three bands in any organisation, written and read, is the same picture in pixel order |

## Left out

- X11 windows, drawing and callbacks everywhere: ColorMag, UncolorMag and the plot callbacks of the pixel
  index, redrawing, readouts and colours of the widgets.
- ColorBlocks, which only draws, and library-type blocks in pw/block.c.
- C ints are taken as unbounded where no width is named: lengths, offsets and counters that overflow are outside
  the model.
- PixelBlocks.Index.AddPoint: needs a current block between 0 and 6, as the array of blocks does.
- Freeing of memory and failing allocations; fresh nodes stand for calloc and malloc.
- OdlTree.Label.Cut: needs an object with a parent, because the code follows the parent pointer unchecked.
- OdlTree.Label.Paste: needs a detached object, and a parent outside its subtree; the code would otherwise tie
  the tree into a knot.
- Keywords are plain values in OdlTree, OdlFind and OdlLabel; their linked lists are modelled on their own in
  OdlKeywords. OdlNextKwd, copying and freeing of trees are not modelled.
- OdlLabel.ParseFile: builds a tree of values instead of linked objects, and keeps no comments, messages, metrics or
  line numbers of keywords. The checks that only report messages are left out; the one on list values runs past the end of
  the text at an open quote.
- OdlLabel.PrintLabel: writes to a text, without comments; an object without a class does not occur.
- OdlLabel.PrintThenParse: names are letters, digits, '_' and '^' and not reserved; values are trimmed, have lines without
  trailing blanks and comments, are whole at their last line and not before, and, in lists, have closed quotes; these are
  the labels the printer and parser are made for.
- OdlComments.CommentsIgnored: a comment after a line with an open quote stays part of the line, as OdlLabel.CommentDropped says.
- OdlLongLines.PrintThenParseIff: classes are short enough for the printer's buffer, which it fills without checking.
- KwdValues.GetAllKwdValues: needs closed quotes in a list, since the scanner runs past the end of the text at an open
  one; the terminator it writes and takes back for each value is not modelled.
- Wildcard.WildCardCompare: null arguments, for which the code answers false, do not occur.
- PackBits.ToTiff: needs an output buffer with room for the worst case, as the code does.
- PackBits.UnTiff: needs a stream whose last block is complete; the code reads past the end of any other.
- PackBits.UnpacksBySection9: the absence of a header -128 is sufficient and, by PackBitsNops.NopUnnoticed, not necessary for
  the data as a whole; PackBits.PrefixesAgreeIff has both directions for the data block by block.
- PackBits.FirstNop: the condition after a header -128 is again one on the decoders, from there on.
- QubeReader.IHeader.ReadQubeData: reads a file; data attached to the header, byte swapping, gain, warnings and failing
  allocations are not modelled, a slice is not empty, and an item has at least one byte.
- QubeReader.ReadFully: a read falls short only at the end of the file.
- VAX and IEEE conversion, uncompressing, file names and header loading in iomedley/iomedley.c.
- Outline.OutlineThenParse: labels are non-empty, start with no white space, and hold no newline or terminator.
- MenuReader.MenuReader.StringToMenu: the null pointer for no further line is taken for the end of the text; items grown by realloc
  count as zeroed; items are values.
- Chd.GetSortedDir: the directory is a list of names; opendir, sort_dirs and complete_dir are not modelled.
- Chd.CompleteMatch: needs at least one entry, sorted and distinct; the common prefix is stored without regard to the buffer's size,
  as in the code.
- Curve.Interpolate: slopes are exact reals where the code rounds floats.
- Curve.BetweenNeighbours: likewise.
- Curve.RisingCurve: likewise.
- Curve.InterpolatedTwice: likewise.
- AMap.RunSound: presses are in the window, and a mode change while a button is held is a harmless one (AMapModes.HarmlessIff
  says why); the gesture variables, static in the code, belong to one map.
- AMapWidget.Widget.SetData: needs at least one value.
- The random start, windows, the end of the program, and key handling other than undo in lib/panes.c.
- Bmp.RoundTrip: the code computes w * h * bands in an int, so a picture of 2^31 bytes or more does not come back.
- Bmp.WriteThenRead: likewise.
- BmpFile.ReadBMP: truncated files, 1, 4 and 32 bits a pixel, colour maps of other than 256 entries and
  negative dimensions are reported as not modelled; compressed files are rejected as in the code, so the RLE loops are never reached.
- BmpFile.WriteBMP: the return status, which the code takes from the stream after it has closed it
  (iomedley/io_bmp.c:876-885), opening the file, the overwrite check and the release of the caller's buffer are not modelled.
- Codecs that wrap other libraries (GIF, JPEG, PNG, TIFF files), OdlExpandLabelFile, and the colour arithmetic of
  pw/color.c.
