# Verified models of the ups menu editor and debugger back end

This project models, in Dafny, the parts of the ups source tree where correctness is hardest to see, and proves what
they are relied on for.

**The menu editor `med3`.** A menu is a tree of rectangles: a button has a next button in its sequence and a menu
underneath. Every command rescales and relinks parts of that tree with integer division. `MenuTree` states the
invariant behind the program's own run-time check `bmcheck`: every sequence tiles its owner exactly, at every level,
with every flag in place. `Scaling`, `ScalingBounds`, `ScalingOverflow`, `Edits`, `Resizes` and `FirstEdge` model the
commands and prove for each exactly when it keeps the invariant. `Placement` says where everything is after a move and
after scaling, `Outcomes` and `Effects` what every command does in terms of what the user chose. `Paths` lifts the
edits to an edit anywhere in a menu; `Session` and `Editor` lift them to every sequence of commands. `Labels`,
`ReturnValues` and `ValueSafety` follow the captions and return values of the buttons and the two tables that count
them. `SaveLoad` and `RoundTrip` turn a menu into the binary menu that is written to a file and back, `Faithful`
proves which menus come back unchanged, `Reading` what a read leaves behind, and `Reloadable` which sessions keep the
menu in a state that can be written and read again. `Buttons`, `Breaks`, `Links` and `LinkShapes` treat the same
operations on linked heap objects: the break marks that saving sets and clears, and the links that cover and uncover
rewrite. `MenuLoops` has the loops over sequences in the form the program gives them. `Wrappers` is the option type of
all modules.

**Kernels of the debugger back end.** `Crc` (checksum of separate debug files), `AliasTypes` and `TypeTable` (types of
the symbol parser), `WordAccess`, `DebugControl` and `Watchpoints` (memory and debug registers of the target process),
`SymbolCache`, `DescriptorPool` and `BitVector` (reading symbol files), `LineTable` (line numbers of functions),
`BaseTypes` (base types that are referred to before they are read), `LibraryWalk` and `WalkComplete` (the walk over
shared library dependencies).

A division by zero and a panic are outcomes of the model and not excluded beforehand: predicates such as
`ScaleSafe` say when a computation does not trap, and methods return whether the program would have stopped.
Everything the user points at, every result of a system call and every short read is a parameter.

Where a property the code suggests does not hold for all inputs, the exact condition is proved instead:

- dividing a button keeps the menu tiled if and only if the button is at least three units long;
- moving an edge keeps it tiled if and only if the two buttons have two units between them, and taking the first
  button of a sequence for the edge, as `rfindedge` can, keeps it tiled if and only if nothing moves;
- moving a side is right if and only if that side has room up to the limit of the editing area;
- uncovering is right if and only if a button that is part of a sequence has a submenu that is one;
- scaling a menu of short sizes overflows a 32-bit product if and only if some submenu that it comes to with a
  multiplier above the largest short has an extent that is too long for the multiplier; when the multiplier and the
  scaled size fit a short as well, menus without a bound submenu wider than its owner never do, and a concrete menu
  with one that does is given;
- a saved menu can be loaded if and only if every transparent button holds two or more, and one that can comes back with
  the single buttons of submenus marked as indivisible and with transparent buttons that hold a sequence of their own
  direction dissolved; so it comes back unchanged if and only if nothing dissolves and those buttons were marked before.
  Covering a whole sequence makes a menu that gains a mark, and cutting can make one in which a button dissolves;
- a menu that is read is tiled in the editing area if and only if no part of it was left of or above its own corner;
- a session keeps the menu in a state that can be loaded, at every step, if and only if it never makes a button over a
  single one transparent and never covers the whole sequence under a transparent button; dividing a new menu and
  covering both pieces always leaves a tiled menu that can be written and not be loaded;
- the eight-byte watchpoint of a machine without such registers is made exactly when two registers are free and all six
  accesses work; when it is refused, its first half is left if and only if that half was installed and its removal
  fails, which the registers and the failing accesses decide beforehand, and otherwise nothing is left (a concrete run
  that leaves half is given). A request to remove it when only its first half is there removes that half and then fails;
- an extra string offset leaves the string cache right if and only if it changes no string already read;
- the dependency walk always goes forward, and it comes to every library if and only if neighbours of one depth are
  under neighbouring siblings and every depth begins below the parent of the last library of the depth above (at the
  top, below the last one itself); a concrete tree where it misses a library is given.

## Model

| member | source | states |
|---|---|---|
| MenuTree.ValidChecks | med3/bmstack.c:595-668 | a menu whose sequences tile their owners at every level passes every test of the run-time check, from the root or from any submenu |
| MenuTree.ValidRestChecks | med3/bmstack.c:616-664 | what is left of a tiled sequence passes the loop of the check for its direction |
| MenuTree.ValidIff | med3/bmstack.c:595-668 | the check finds everything that can be wrong with a menu except what it does not look at: a menu is tiled if and only if it passes and keeps to the editing area, fills its owners and has the remaining flags in place |
| MenuTree.TakeDropValid | med3/box.c:426-464 | any first part of a tiled sequence tiles exactly the room it takes, and the remainder tiles the rest |
| MenuTree.AppendValid | med3/bmenu.c:373-407 | two tiled sequences one after the other tile the joint room |
| Scaling.MoveValid | med3/bmdiv.c:390-409 | moving a menu keeps it tiled inside the moved owner, with independently placed submenus held inside the editing area |
| Placement.MoveIsShift | med3/bmdiv.c:390-409 | if nothing would leave the editing area, a move shifts every button at every level by the same distance |
| Placement.MovePlaces | med3/bmdiv.c:390-409 | in general the first button of a moved menu goes as far as asked or to the limit of the area, the first button of every submenu goes by the distance its owner went or to the limit, every sequence goes as one piece, and no length or flag changes |
| Placement.PlacedOnce | med3/bmdiv.c:390-409 | this determines where everything is |
| Scaling.ScaleValid | med3/bmdiv.c:413-481 | a tiled menu scaled from `den` to `num` again tiles its scaled owner exactly at every nesting level, with no gap or overlap |
| Scaling.ScaleRunValid | med3/bmdiv.c:426-439 | the running boundary of the loop along a sequence makes it total exactly the scaled length |
| Scaling.ScaleCrossValid | med3/bmdiv.c:439-444 | the branch across a sequence gives every button the same new length |
| Scaling.ScaleStepValid | med3/bmdiv.c:413-481 | a submenu moved and scaled with its owner tiles the owner's new rectangle |
| Placement.ScaleRides | med3/bmdiv.c:413-481 | at every level of a scaled menu the first button of every submenu, bound and free ones among them, went by the distance its owner went or to the limit, and on the other axis nothing changed |
| Placement.ScaleRunEnds | med3/bmdiv.c:426-439 | scaling along a sequence puts the end of every button at its exact place, rounded towards zero |
| Placement.ScaleBones | med3/bmdiv.c:413-481 | scaling changes nothing but rectangles |
| ScalingBounds.ScaleFair | med3/bmdiv.c:413-481 | every button of a scaled menu, at every level, gets the floor or the ceiling of its exact share |
| ScalingOverflow.ScaleFitsIff | med3/bmdiv.c:413-481 | for every tiled menu of short sizes and every multiplier, no product computed while scaling leaves the range of a 32-bit int if and only if every submenu it comes to with a multiplier above the largest short is short enough for it |
| ScalingOverflow.BearableMoved | med3/bmdiv.c:413-481 | that condition depends on sizes alone and not on positions |
| ScalingBounds.ScaleFitsInt | med3/bmdiv.c:413-481 | in particular no product overflows when sizes fit a C short before and after and no bound submenu is longer than its owner |
| ScalingBounds.WideSubmenuOverflows | med3/bmdiv.c:413-481 | a concrete tiled menu with short sizes, scaled to a short size, whose scaling overflows |
| FirstEdge.ScaleSame | med3/bmdiv.c:413-481 | scaling from a size to the same size changes nothing at any level |
| FirstEdge.MoveFirstEdgeValid | med3/bmstack.c:216-229 | moving the edge of a first button, whose back link is its owner, whatever that owner is, keeps the menu tiled if and only if the shift is zero |
| Outcomes.MoveFirstEdgeDoes | med3/bmstack.c:428-445 | where the edge of a first button is after a drag, and by how much its owner grows |
| Edits.DivideValid | med3/bmdiv.c:164-385 | dividing a button keeps the menu tiled if and only if the button is at least three units long |
| Outcomes.DivideDoes | med3/bmdiv.c:138-385 | a divided button is cut at the chosen place, or at the nearest one three units from either end; the piece on the side of the press is blank with the new value and the other keeps label and contents, fitted into it; an indivisible button or one of the other direction becomes transparent around the pieces |
| Edits.DivideKeepsContents | med3/bmdiv.c:232-384 | the submenu of a divided button tiles whichever piece it goes to |
| Edits.PairValid | med3/bmdiv.c:164-384 | two adjoining pieces in place of one member leave its sequence tiled |
| Edits.CoverValid | med3/box.c:398-464 | covering any part of a sequence, a single button or all of it keeps the menu tiled |
| Edits.UncoverValid | med3/bmenu.c:353-408 | uncovering keeps the menu tiled if and only if an oriented button has an oriented submenu |
| Edits.UncoverCover | med3/box.c:426-464 | uncovering what was just covered, a part of a sequence or all of it, gives back the very same menu: links, flags, geometry and labels |
| Edits.CoverKeepsAxis | med3/box.c:437-454 | covering a proper part of a sequence gives the new button the direction of the sequence |
| Resizes.CutUnderValid | med3/bmenu.c:165-273 | cutting a button out of a sequence, with a neighbour taking its room, keeps the menu tiled and the cut piece a valid menu |
| Resizes.CutRunValid | med3/bmenu.c:204-245 | the neighbour that grows over the gap keeps its sequence tiled |
| Outcomes.CutRunDoes | med3/bmenu.c:204-245 | when a button is cut the next one grows if it was the first and the one before otherwise, over exactly the gap and with its contents fitted; every other button stays as it was |
| Outcomes.CutUnderDoes | med3/bmenu.c:165-273 | a cut leaves no submenu, that sequence, or, when one button would be left, the owner with its label and contents |
| Resizes.FittedValid | med3/bmenu.c:296-303 | a cut menu scaled in both directions tiles the button it is pasted into |
| Resizes.PasteValid | med3/bmenu.c:277-312 | pasting keeps the menu tiled |
| Outcomes.PasteDoes | med3/bmenu.c:277-312 | the button pasted into keeps its place and flags and gets the label and the contents of the cut one, moved to it and fitted in both directions |
| Resizes.MoveEdgeValid | med3/bmstack.c:428-445 | moving the edge between two buttons keeps the menu tiled if and only if they have two units between them |
| Outcomes.MoveEdgeDoes | med3/bmstack.c:428-445 | a dragged edge is at the chosen place or at the nearest one three units from the far ends, both outer ends stay, and the contents of both buttons are fitted |
| Resizes.MoveSideValid | med3/bmstack.c:446-475 | moving an outer side keeps the menu tiled if and only if the side has room inside the editing area |
| Outcomes.MoveSideDoes | med3/bmstack.c:446-475 | a dragged side is at the chosen place or at the nearest one allowed, and the opposite side stays |
| Resizes.EquispaceValid | med3/box.c:469-526 | equal spacing keeps the menu tiled: the buttons fill exactly the room they had |
| Outcomes.EquispaceDoes | med3/box.c:469-526 | button i of n begins at the floor of i nths of the room and ends at the floor of i + 1, so each is the floor or the ceiling of an nth long; contents are fitted, and the buttons after the n are unchanged |
| Resizes.MarksFit | med3/box.c:502-524 | the marks of equal spacing begin at the start, end at the end and never go back |
| Resizes.AddSubmenuValid | med3/box.c:263-394 | adding a bound or a free submenu under a button keeps the menu tiled |
| MenuLoops.MoveMenu | med3/bmdiv.c:390-409 | the loop over a sequence computes the move that is proved to keep the tiling |
| MenuLoops.ScaleMenu | med3/bmdiv.c:413-481 | the scaling functions, one for each direction in the source, compute the scaling that is proved exact |
| MenuLoops.ScaleAlong | med3/bmdiv.c:426-439 | the loop with its running sum and boundary computes scaling along a sequence |
| MenuLoops.ScaleAcross | med3/bmdiv.c:439-444 | the loop across a sequence computes scaling across it |
| MenuLoops.SpaceButtons | med3/box.c:502-524 | the loop with its running boundary computes equal spacing |
| MenuLoops.CheckMenu | med3/bmstack.c:595-668 | the check's own loops decide the predicate that tiled menus satisfy |
| Paths.AtValid | med3/bmstack.c:595-668 | every part of a tiled menu is tiled in its place |
| Paths.PutValid | med3/bmenu.c:353-408 | replacing a part keeps the whole menu tiled if and only if the new part is tiled in the place of the old one |
| Paths.PutCount | med3/bmenu.c:97-160 | replacing a part changes the labels of the menu by exactly the difference of the parts |
| Labels.ScaleCount | med3/bmdiv.c:413-481 | scaling keeps every caption, style and return value, counted over all levels |
| Labels.DivideCount | med3/bmdiv.c:164-385 | dividing keeps all labels and adds one blank one with the value asked for |
| Labels.CoverCount | med3/box.c:398-464 | covering keeps all labels and adds exactly one blank one, or none when it is refused |
| Labels.UncoverCount | med3/bmenu.c:353-408 | uncovering loses exactly the label of the button uncovered |
| Labels.CutUnderCount | med3/bmenu.c:165-273 | labels left and labels cut are together the labels that were there, and if an opaque owner's sequence collapses to one button, the owner's own label is lost as well |
| Labels.PasteCount | med3/bmenu.c:277-312 | pasting brings in exactly the labels of the cut menu and loses those it replaces |
| Labels.MoveEdgeCount | med3/bmstack.c:428-445 | moving an edge keeps all labels |
| Labels.MoveFirstEdgeCount | med3/bmstack.c:428-445 | moving the edge of a first button keeps all labels |
| Labels.SpaceRunCount | med3/box.c:502-524 | equal spacing keeps all labels |
| ReturnValues.CellOfRvFull | med3/rvals.c:341-351 | the value handed out for a cell is counted in that cell again |
| ReturnValues.ChrIs | med3/rvals.c:55-66 | the sixty-four characters of a layer in the order of its cells; any other character is counted in the first cell |
| ReturnValues.RvFullIs | med3/rvals.c:32-34 | a value holds its layer above its character |
| ReturnValues.RvNext | med3/rvals.c:333-351 | the two loops find the first cell no counter marks as used, count it and hand out its value; when there is none the first character is handed out and nothing counted |
| ReturnValues.NextWhenFull | med3/rvals.c:333-351 | the value handed out is of the first unused cell, and of the very first cell, uncounted, when all are used |
| ReturnValues.NextThenFree | med3/rvals.c:333-382 | while a cell is free, handing out a value and freeing it leaves both tables as they were |
| ReturnValues.HeldIsCount | med3/bmenu.c:126-160 | the buttons counted for a cell are the opaque buttons with a value in it, at every level |
| ReturnValues.MoveValuesEffect | med3/bmenu.c:126-141 | without wrap-around, moving the values of a menu between the tables moves for every cell exactly the number of its opaque buttons |
| ReturnValues.MoveValuesWrap | med3/bmenu.c:126-141 | in general moving the values of a menu changes every counter by the number of its opaque buttons modulo 256 |
| ReturnValues.FreeValuesEffect | med3/bmenu.c:146-160 | freeing the values of a menu lowers every counter by exactly the number of its opaque buttons |
| ReturnValues.FreeValuesWrap | med3/bmenu.c:146-160 | so does freeing them |
| Session.EditedValid | med3/bmstack.c:595-668 | for each of thirteen edits, the edge of a first button among them, the edited part is tiled in its place if and only if the edit had room |
| Session.ApplyTiled | med3/med3.c:165-269 | one command keeps the menu and all cut menus tiled if and only if it had room |
| Effects.EditedDoes | med3/med3.c:165-269 | each of thirteen edits, given room, does to its part what the user asked for with the places, sides, corners, cells and values chosen |
| Effects.EditDoes | med3/med3.c:165-269 | so does the command anywhere in a menu, and no button outside that part changes |
| Effects.ChooseDoes | med3/rvals.c:155-238 | choosing a cell or a layer gives the value of that cell in the same layer, or of the same cell in that layer |
| Effects.NewDoes | med3/bmenu.c:474-498 | a new menu is one blank free button from the corner of the editing area to the place chosen, at least six units long either way |
| Effects.NewCounts | med3/rvals.c:384-392 | its value is the only one counted, and cut buttons keep theirs |
| Effects.ReadDoes | med3/rw.c:177-190 | reading replaces the menu by what comes back of the written one, keeps the cut buttons, and counts the values of that menu exactly |
| Effects.CutRootDoes | med3/bmenu.c:165-199 | cutting the root leaves no menu; it goes on the stack and its values to the other table, unless the stack is full |
| Effects.CutThenPaste | med3/bmenu.c:97-122 | a paste brings back the button cut last, and leaves the stack as it was before that cut |
| Effects.SizedSafe | med3/med3.c:165-269 | where every button has an extent in both directions, no edit divides by zero, dragging the edge of a first button aside |
| Session.AfterTiled | med3/med3.c:165-269 | over any sequence of commands that starts tiled, the menu and all cut menus are tiled at every step if and only if every command had room |
| Session.SessionTiled | med3/med3.c:165-269 | after any session from the start whose commands had room the menu is tiled and the check made after every command passes |
| Session.CoverThenUncover | med3/box.c:398-464 | in any tiled state with an unused cell, covering two or more buttons and uncovering the new one gives back the very same state: menu, cut menus and both tables |
| ValueSafety.EditedHeld | med3/rvals.c:153-167 | under every edit each counter changes by exactly as much as the number of buttons that use its cell, except that a cut does not free the value of an owner whose sequence collapses, nor those of a button that does not fit on the stack |
| ValueSafety.StackedHeld | med3/bmenu.c:97-122 | the counters of cut buttons follow the stack of cut menus exactly |
| ValueSafety.EditExact | med3/rvals.c:155-404 | so do both tables over an edit anywhere in a menu |
| ValueSafety.ApplyCovered | med3/rvals.c:333-404 | one command keeps every counter at or above the number of opaque buttons it stands for, in the menu and among cut menus |
| ValueSafety.AfterCovered | med3/rvals.c:333-404 | so does every sequence of commands in which free cells remain and no counter wraps, whether or not the commands had room |
| ValueSafety.NextIsFresh | med3/rvals.c:333-351 | after any such session from the start the next value handed out is carried by no opaque button, in the menu or cut |
| Editor.MenuEditor.EditPart | med3/med3.c:165-269 | the editor as an object: an edit has the effect of its specification on menu, cut menus and tables, and the object is well formed afterwards if and only if the edit had room |
| Editor.MenuEditor.NewMenuAt | med3/bmenu.c:474-498 | a new menu replaces the old one, clears the main table, keeps cut menus and leaves everything well formed |
| Session.ReadBack | med3/rw.c:177-190 | the menu made of any file of a tiled menu that can be loaded is the written one with its corner at the origin, single buttons of submenus marked and transparent buttons over their own direction dissolved, and it is tiled if and only if nothing of the written one was left of or above its corner |
| Editor.MenuEditor.ReadFrom | med3/rw.c:177-190 | reading such a file replaces the menu, keeps cut menus and counts the values afresh, and the object is well formed afterwards under exactly that condition |
| Editor.MenuEditor.CutWholeMenu | med3/bmenu.c:165-199 | cutting the root leaves no menu, and the cut menu on the stack unless the stack is full |
| Editor.MenuEditor.AfterCommand | med3/med3.c:165-269 | the check after a command never fails on a well formed editor, on the root or on whatever submenu is open |
| SaveLoad.BackAgain | med3/rw.c:437-655 | any part of a sequence, saved as a balanced binary tree and loaded, comes back button by button once it joins its sequence, with single buttons of submenus marked as indivisible, and transparent buttons over their own direction dissolved |
| SaveLoad.SplitBack | med3/rw.c:684-702 | the two halves of a saved sequence are put together again as the sequence, marked and dissolved in that way |
| SaveLoad.InsideBack | med3/rw.c:437-655 | what is under a saved button comes back under it in that way |
| SaveLoad.SingleBack | med3/rw.c:437-655 | a button of the root or of a lone submenu comes back with everything under it in that way |
| SaveLoad.MarkSave | med3/rw.c:437-655 | the saved form does not tell a single button of a submenu that is marked as indivisible from one that is not |
| RoundTrip.LoadSave | med3/rw.c:437-678 | for every tiled menu whose transparent buttons hold two or more sub-buttons, saving, loading and tidying gives back every rectangle, direction, transparency, caption, return value of an opaque button and the whole nesting, with every single button of a submenu marked as indivisible and every transparent button over a sequence of its own direction replaced by that sequence |
| RoundTrip.KeptLabels | med3/rw.c:437-678 | menus of which the same is kept agree in transparency and in the value, caption and style of opaque buttons, but for the cursor flag of a style without an indivisible submenu |
| Faithful.LoadSaveIff | med3/rw.c:437-678 | a tiled menu can be loaded again and comes back unchanged, the marks included, if and only if its transparent buttons hold sequences of the other direction and its single buttons of submenus are indivisible |
| Faithful.LoadMarkIff | med3/rw.c:437-678 | it can be loaded and comes back with every single button of a submenu marked as indivisible, and otherwise unchanged, if and only if its transparent buttons hold sequences of the other direction |
| Faithful.LoadableIff | med3/rw.c:437-655 | a saved menu can be loaded if and only if every transparent button in it holds two or more buttons |
| Faithful.CoverAllChanges | med3/box.c:398-464 | covering the whole of a sequence anywhere in a tiled menu gives a tiled menu that does not come back unchanged |
| Faithful.LoneMenuChanges | med3/rw.c:529-655 | a concrete tiled menu that comes back with its mark changed and all else the same |
| RoundTrip.LoadShift | med3/rw.c:393-418 | loading a library menu that was moved gives the moved menu |
| RoundTrip.ReadWritten | med3/rw.c:138-190 | a menu written and read again is what its saved form loads as, moved with its corner to the origin of the editing area |
| RoundTrip.WrittenCorner | med3/rw.c:138-139 | the file has the menu with its corner one unit before the origin |
| Reading.ReadLeaves | med3/rw.c:177-190 | after a read the menu is tiled under the exact condition on its corner, it has exactly the labels of the written one as far as a file keeps them, and every counter that cannot wrap is exactly the number of opaque buttons of the written menu in its cell |
| Reading.ComesTiledIff | med3/rw.c:177-190 | what is read of a tiled menu is tiled in the new editing area if and only if nothing of the written menu was left of or above the corner that goes to the origin |
| Reading.FlatValid | med3/rw.c:567-655 | dissolving keeps every sequence tiled |
| Reading.FlatCount | med3/rw.c:567-655 | dissolving loses no label |
| Reloadable.EditedHolding | med3/med3.c:165-269 | under each of thirteen edits every transparent button goes on holding two or more if and only if the edit makes no button over a single one transparent |
| Reloadable.ApplyHolding | med3/med3.c:165-269 | one command, reading among them, leaves a menu and cut menus that can be written and loaded if and only if, in addition, it covers no whole sequence under a transparent button |
| Reloadable.AfterHolding | med3/med3.c:165-269 | over any sequence of commands that holds at every step if and only if every command was of that kind |
| Reloadable.SessionReloads | med3/rw.c:138-190 | after any session of such commands from the start the saved menu can be loaded, and if they had room its file is one that the read command takes |
| Reloadable.CoverBothLoses | med3/box.c:398-464 | dividing a new menu and covering both pieces always leaves a tiled menu whose saved form cannot be loaded |
| Reloadable.CutDissolves | med3/bmenu.c:227-273 | cutting one of two buttons under a transparent member of a sequence, when the other is transparent, leaves a menu in which a button dissolves on loading |
| RoundTrip.SavedBalanced | med3/rw.c:684-702 | a sequence of n buttons becomes a binary tree of height ceil(log2 n) |
| RoundTrip.SavedEvenly | med3/rw.c:684-702 | the two halves of a saved sequence stand for equally many buttons, or the second for one more |
| RoundTrip.SavedColours | med3/rw.c:437-520 | every node of a saved menu has the line colour of the nearest node with a caption above it, its own if it has one |
| Breaks.Bmsize | med3/rw.c:722-739 | the loop to the next break mark measures the rectangle of the segment |
| Breaks.Bmsplit | med3/rw.c:684-702 | the two loops mark the last button of the first half and return the first of the second, leaving two segments |
| Breaks.Bmtom | med3/rw.c:437-522 | on linked buttons with break marks the recursion computes the saved form of the segment, and changes nothing but break marks inside it |
| Breaks.Clearbreaks | med3/rw.c:707-717 | afterwards no button of the menu carries a break mark |
| Breaks.SaveMenu | med3/rw.c:138-145 | saving an unmarked menu gives its saved form and leaves the menu as it was, marks included |
| Links.CoverLinks | med3/box.c:426-464 | every link that covering rewrites, on linked buttons, and the direction and flags of the new button |
| Links.UncoverLinks | med3/bmenu.c:373-407 | every link that uncovering rewrites |
| LinkShapes.CoverShape | med3/box.c:426-464 | after covering linked buttons all links, forwards and backwards, are those of the new shape, and its values are the covered menu |
| LinkShapes.UncoverShape | med3/bmenu.c:373-407 | after the deleting branch all links are those of the sequence without the button, and its values are the uncovered menu |
| Links.CoverAndUncover | med3/bmenu.c:373-407 | covering two or more buttons and uncovering the new one restores all three links, all flags and all values of every button that was there |
| Crc.EntryIsEight | ups/ao_elfread.c:272-329 | every one of the 256 table entries is eight steps of the shift register on its index |
| Crc.TableStepFeedsByte | ups/ao_elfread.c:333-334 | one table step is the bit-at-a-time CRC of the eight bits of a byte, lowest first |
| Crc.CalcCrc | ups/ao_elfread.c:332-335 | the loop over a buffer continues a checksum by the bit-at-a-time CRC of section 8 of RFC 1952 |
| Crc.ChunkStep | ups/ao_elfread.c:349-352 | continuing the checksum of one part over the next is the checksum of both |
| Crc.FileMatches | ups/ao_elfread.c:338-357 | for every split of the file into chunks the file is accepted if and only if the wanted value is the CRC-32 of the whole file |
| AliasTypes.LinkAcyclic | ups/ao_symparse.c:1585-1595 | linking a type to another makes a cycle if and only if the chain of the other passes through the type |
| AliasTypes.NoCycle | ups/ao_symparse.c:1172-1173 | no chain of alias links comes back to where it started |
| AliasTypes.JoinUnites | ups/ao_symparse.c:1592-1594 | linking one chain end to another makes every chain that ended at the first end at the second, and leaves every other end alone |
| AliasTypes.RelinkedMeaning | ups/ao_symparse.c:1585-1595 | pointing a type, an alias already or not, at a chain end gives that meaning to every type whose chain passes through it and leaves all other meanings alone |
| AliasTypes.LinkKeepsAcyclic | ups/ao_symparse.c:1567-1595 | defining a type again, an alias or not, as another never makes a cycle; it and every type whose chain passes through it get the meaning of the other, or void when it is its own definition, and all others keep theirs; the panic needs a type with a definition of its own |
| AliasTypes.BuiltMeaning | ups/ao_symparse.c:1543-1549 | filling in a definition gives it to every type whose chain passes through it and changes what no other type means |
| AliasTypes.Parser.NewListed | ups/ao_symparse.c:431-457 | a new record without a type joins the list of its file, and every other type means what it meant |
| AliasTypes.Parser.Build | ups/ao_symparse.c:1543-1549 | the parser's records after a definition is filled in, with that effect on meanings |
| AliasTypes.PatchedMeaning | ups/ao_symparse.c:574-595 | patching any set of aliases changes what no type means |
| AliasTypes.PatchedTwice | ups/ao_symparse.c:574-595 | patching in steps, in any order and division, gives the same result as patching at once |
| AliasTypes.PatchedDefs | ups/ao_symparse.c:574-595 | every patched type holds the definition at the end of its chain, every other type is as it was |
| AliasTypes.Parser.Chase | ups/ao_symparse.c:1172-1173 | the loop along alias links ends, at the end of the chain |
| AliasTypes.Parser.Define | ups/ao_symparse.c:1567-1595 | the numeric case of a type definition, with the flag that asks for patching |
| AliasTypes.Parser.Patch | ups/ao_symparse.c:574-595 | overwriting the aliases of one list in place, in list order, is patching the set of its types |
| AliasTypes.Parser.Wrapup | ups/ao_symparse.c:597-604 | afterwards every listed type of every file holds the definition it always meant, and types on no list are unchanged |
| TypeTable.KnownExpected | ups/ao_symparse.c:400-429 | for every history of definitions seen, types made and searches ended, what is known of a number is its first real definition, unless the search was over before it was seen, and its first entry of any kind otherwise |
| TypeTable.BestUnique | ups/ao_symparse.c:400-429 | that definition is the only one the description fits |
| TypeTable.AddFinds | ups/ao_symparse.c:431-457 | adding an entry in its place keeps the list strictly descending and changes what is found under its number alone |
| TypeTable.PlaceFinds | ups/ao_symparse.c:546-572 | stopping the search at the first smaller number finds what there is |
| TypeTable.FileTypes.Lookup | ups/ao_symparse.c:546-572 | the loop finds the place of a number and whether it is there |
| TypeTable.FileTypes.Add | ups/ao_symparse.c:431-457 | the order panics happen exactly when the new entry would be out of order |
| TypeTable.FileTypes.NoteDefPos | ups/ao_symparse.c:400-429 | noting a definition keeps the list in order and in agreement with the longer history, and never panics |
| TypeTable.FileTypes.InsertFtype | ups/ao_symparse.c:640-664 | so does making the record of a type |
| TypeTable.FileTypes.SearchDone | ups/ao_symparse.c:486-493 | the end of a search settles the noted position |
| TypeTable.FileTypes.Noted | ups/ao_symparse.c:400-429 | at any time the list holds for every number what its history says |
| WordAccess.Target.GetWords | ups/ao_ptrace.c:135-199 | for every address, length and word size the bytes asked for are returned, by aligned peeks only, and success is reported exactly when every word touched is mapped |
| WordAccess.Target.WriteData | ups/ao_ptrace.c:820-884 | exactly the bytes of the range change; a failing write changes nothing when it starts inside an unmapped word and every mapped byte of the range otherwise |
| WordAccess.ReadAfterWrite | ups/ao_ptrace.c:135-199 | a read after a write sees the new bytes inside the range and the old ones outside it |
| WordAccess.ReplacedOnce | ups/ao_ptrace.c:820-884 | the description of a write determines the memory after it |
| DebugControl.SetField | ups/ao_ptrace.c:964-967 | setting up one register changes its enable bits and field as asked and, apart from the slowdown bit, nothing else in DR7 |
| DebugControl.SetExactly | ups/ao_ptrace.c:964-967 | it sets the local enable bit and the slowdown bit, and every bit besides these and the field stays, the global enable bit as well |
| DebugControl.Positions | ups/ao_ptrace.c:964-967 | the enable bits, fields and slowdown bit are where section 17.2.4 of the Intel manual, Volume 3B, has them |
| DebugControl.ClearField | ups/ao_ptrace.c:1046 | turning one register off clears its enable bits and leaves every other bit of DR7, those of its field included, as it was |
| DebugControl.Dr7Lawful | ups/ao_ptrace.c:933-967 | an update for one register never shows in the fields of another |
| Watchpoints.CheckIs | ups/ao_ptrace.c:899-900 | exactly the aligned sizes 1, 2, 4 and 8 are accepted; a size of zero divides by zero |
| Watchpoints.CodeOf | ups/ao_ptrace.c:943-957 | decoded as that section lays it out, the field of a request watches writes to exactly as many bytes as were asked for, and no other field does |
| Watchpoints.CountUpdate | ups/ao_ptrace.c:937-971 | changing one register swaps its entry in the multiset of watches |
| Watchpoints.CountIsMultiset | ups/ao_ptrace.c:889-1055 | the counts used in the contracts are those of the multiset of registers |
| Watchpoints.Registers.Install | ups/ao_ptrace.c:889-978 | the multiset gains exactly what was asked for or nothing, apart from an eight-byte watchpoint in halves that strands: it is refused and its first half stays exactly when that half is installed, the second has no register or a failing access, and the removal of the first fails; success is characterised by free registers and working accesses |
| Watchpoints.Registers.InstallHalves | ups/ao_ptrace.c:902-921 | two four-byte watchpoints or, after rollback, neither; with a failing rollback, and only then, the first |
| Watchpoints.HalfIsLeft | ups/ao_ptrace.c:902-921 | concrete register faults that leave the first half of an eight-byte watchpoint |
| Watchpoints.Registers.InstallOne | ups/ao_ptrace.c:930-971 | the first free register is taken exactly when there is one and the three accesses work, and then watches writes to the bytes asked for; no other register changes |
| Watchpoints.Registers.Uninstall | ups/ao_ptrace.c:980-1055 | exactly what was asked for goes, exactly when every removal works, which without faults is when all of it is there; a refused eight-byte request takes the first half exactly when its removal works, and nothing otherwise |
| Watchpoints.Registers.UninstallOne | ups/ao_ptrace.c:1010-1050 | the first register that watches writes to so many bytes and, as far as it can be read, that address is turned off, and no other changes |
| BitVector.SetBit | ups/ao_symread.c:226-235 | setting a bit through a shifted mask sets that bit of the slot and no other |
| BitVector.WordsLawful | ups/ao_symread.c:226-276 | 32-bit slots with integer masks behave as slots of 32 independent bits |
| BitVector.NewSymbols | ups/ao_symread.c:185-193 | a new vector has enough slots and marks nothing |
| BitVector.Symbols.MarkSym | ups/ao_symread.c:226-235 | exactly the symbol marked joins the marked ones; outside the table it panics |
| BitVector.Symbols.NextUnmarkedSym | ups/ao_symread.c:237-276 | the search ends inside the slots allocated and returns the least unmarked symbol from the start on, at most the number of symbols |
| DescriptorPool.AtMostFour | ups/ao_symread.c:133-134 | at most four symios have an open descriptor |
| DescriptorPool.OldestIsLeastRecent | ups/ao_symread.c:297-306 | until the stamps wrap around, the resident with the least stamp, if it was used, was used before every other resident that was used |
| DescriptorPool.Pool.GetFreeSlot | ups/ao_symread.c:288-315 | an empty slot, or the slot of the resident with the least stamp, which is closed; nothing else changes |
| DescriptorPool.Pool.PrepareToUse | ups/ao_symread.c:319-341 | a use stamps the symio and reopens it if needed, in a slot that was free or held the least stamp; after a failed reopen that slot is empty and the symio closed |
| DescriptorPool.Pool.Make | ups/ao_symread.c:204-223 | a new symio comes with its descriptor and one slot, whatever its uninitialised stamp |
| DescriptorPool.Pool.CloseSymio | ups/ao_symread.c:357-384 | the symio leaves the pool and its slot, and the panic for a missing slot cannot happen |
| SymbolCache.Symio.FillSymbuf | ups/ao_symread.c:389-419 | whatever number of whole records a read returns, the buffer holds records of the file; it fails only out of range or on a failed read |
| SymbolCache.Symio.Getsym | ups/ao_symread.c:423-442 | the record of the file, whatever the buffer held before |
| SymbolCache.Symio.Findsym | ups/ao_symread.c:482-516 | from a start inside the table, the first symbol of a wanted type or the end of the table, unless a read failed on the way; a start beyond it is handed back exactly when it is not before the buffer |
| SymbolCache.HintAgrees | ups/ao_symread.c:597-621 | in a list ordered by symbol a scan from the hint finds what a scan from the head finds |
| SymbolCache.Symio.GetExtraOffset | ups/ao_symread.c:597-621 | with any valid hint the offset found is that of a scan from the head |
| SymbolCache.ExtraOffsetIs | ups/ao_symread.c:597-621 | the offset is that of the last entry that starts at or before the symbol |
| SymbolCache.LineIs | ups/ao_symread.c:597-621 | a symbol before all entries has its string at its own offset, and any other at its offset plus that of the last entry that starts at or before it |
| SymbolCache.Symio.Symstring | ups/ao_symread.c:548-594 | the string returned, cached or not, is the one an uncached lookup gives, a cached one costs no read, and a symbol in range is refused only when its read failed |
| SymbolCache.Symio.AddExtraStringOffset | ups/ao_symread.c:623-647 | after an offset is added all caches are right if and only if offsets are in order of their symbols and the new one changes no string already cached |
| SymbolCache.CurrentAfterExtra | ups/ao_symread.c:623-647 | in an ordered list, a new offset leaves every cached string right if and only if it changes none of those at or after its symbol |
| LineTable.InsertedIsStableSort | ups/ao_dwfsyms.c:135-192 | inserting the rows from last to first sorts them by address with equal addresses in row order |
| LineTable.StableSortPermutes | ups/ao_dwfsyms.c:176-192 | the sorted list is a permutation of the rows |
| LineTable.StableSortUnique | ups/ao_dwfsyms.c:176-192 | only one list is the stable sort of given rows |
| LineTable.TrimKeeps | ups/ao_dwfsyms.c:210-237 | trimming takes off the first entry if and only if there are two or more and it is at or before the start, and the last if and only if three or more remain and it is at or after the end of the function; it empties no list and keeps it in order |
| LineTable.RowsOfIn | ups/ao_dwfsyms.c:135-175 | the rows of a function are those that can be read and whose address belongs to it |
| LineTable.Unit.InsertLno | ups/ao_dwfsyms.c:179-192 | the search loop puts the new entry before the first that is not below it |
| LineTable.Unit.DoCuLines | ups/ao_dwfsyms.c:97-239 | the list of every function not done becomes the sort of its usable rows in front of what it had, trimmed under exactly those conditions, with the greatest line number, and the function is done; functions already done are left alone |
| BaseTypes.SettledIff | ups/ao_dwftype.c:1107-1134 | when no entry waits for itself, exactly the entries whose chain reaches a resolved entry through types are resolved, each to the type of the entry it waited for |
| BaseTypes.FixedTwice | ups/ao_dwftype.c:976-1001 | repeating the resolving pass changes nothing more |
| BaseTypes.UnresolvedIs | ups/ao_dwftype.c:976-1001 | the number reported is that of the entries that still wait |
| BaseTypes.Dtypes.MakeDtype | ups/ao_dwftype.c:602-644 | an entry goes to the end of the list and the index keeps agreeing with a scan for the first match; a second entry with an offset is reported |
| BaseTypes.Dtypes.LookupDtype | ups/ao_dwftype.c:876-899 | the index answers as a scan of the list for the first match |
| BaseTypes.Dtypes.FixupType | ups/ao_dwftype.c:1107-1134 | the recursion settles its entry, touches others only by settling them, and returns the type found |
| BaseTypes.Dtypes.FixupTypes | ups/ao_dwftype.c:976-1001 | one sweep settles every entry and returns the number of those left unresolved |
| LibraryWalk.FirstBelowIs | ups/ao_elflib.c:1023-1044 | the result is the leftmost descendant at the level, and there is none only if there is none at all |
| LibraryWalk.FindFirstDescendent | ups/ao_elflib.c:1023-1044 | the recursion with its loop over siblings computes that descendant |
| LibraryWalk.NextIsLater | ups/ao_elflib.c:1046-1071 | every step goes strictly forward in the order by depth and then from left to right, and at most one level down |
| LibraryWalk.AheadShrinks | ups/ao_elflib.c:1046-1071 | every step strictly shrinks the finite set of libraries that can still be come to |
| LibraryWalk.NextLibrary | ups/ao_elflib.c:1046-1071 | the loop up the ancestors computes the next library of the specification |
| LibraryWalk.Walk | ups/ao_elflib.c:1107 | iterating from any library ends, and comes to no library twice |
| LibraryWalk.EndHasNothingBelow | ups/ao_elflib.c:1046-1071 | the walk ends only at a library without a following sibling and without dependencies |
| WalkComplete.CompleteIff | ups/ao_elflib.c:1046-1071 | for every tree the walk from the first library comes to all of them if and only if neighbours of one depth are under neighbouring siblings and every depth begins where the walk goes on from the end of the depth above |
| WalkComplete.StepAcross | ups/ao_elflib.c:1051-1068 | of two neighbours of one depth the second is found from the first if and only if it is under the next sibling at their first difference |
| WalkComplete.StepDown | ups/ao_elflib.c:1054-1070 | the first of a depth is found from the last of the depth above if and only if it is below that one's parent, or at the top below that one itself |
| LibraryWalk.WalkMisses | ups/ao_elflib.c:1058-1070 | a concrete tree whose walk never comes to one of its libraries |

## Left out

- The user interface of med3: mouse, cursor, captions on display, drawing, the open-menu stack and the BM_OPEN flag. The place or range the user chose is a parameter of a command.
- `rfindb`, `rfindedge` and `bmrect`: which button or range a position selects is taken as given; what a wrong choice of a first button does is `FirstEdge`.
- Update in place in the editing commands: `MenuLoops` and the commands work on tree values, so aliasing is not captured there. Links and marks on heap objects are modelled for saving, cover and uncover only.
- 16-bit truncation of positions and sizes: sizes are integers; `ScalingOverflow.ScaleFitsIff` says when all products stay in range.
- The line colours of transparent buttons, which the saved form takes from the buttons around them (`RoundTrip.SavedColours`), their SM_CREL style, and their return values.
- The text of menu files (`prntmen`, `getmenu`): `RoundTrip.ReadWritten` starts and ends at the library menu in memory; reading is a command of a session for the files of all tiled menus that can be loaded (`Faithful.LoadableIff`); files of menus that were not tiled when they were written, and files the editor did not write, are not modelled.
- `addhidden`: not part of the command set.
- Equal spacing when a lone open button is selected: the command then works on the sequence below it, which is the same command at that path.
- `AliasTypes` and `TypeTable` take the parser's decisions as given: the grammar of stabs strings is not modelled.
- `BaseTypes.Dtypes.FixupTypes`: covers the resolving sweep; the sweep that copies dummy types and the alignment of aggregates are not modelled, and cyclic references, on which the recursion does not end, are excluded.
- `WordAccess.Target.GetWords`: a successful request is taken not to clear `errno`, and addresses do not wrap around at the top of memory.
- The variants of the watchpoint functions for systems with `i386_set_watch` and `i386_clr_watch`.
- Bit vectors with slots of other widths than 32 bits: the masks are computed as `int`.
- `SymbolCache` treats the string cache library as the string table itself, and `DescriptorPool` treats opening a file as succeeding or not.
- Stack unwinding, block and compiler guessing, nearest-address guesses, process start and attach, core and a.out readers, and the library path search.
