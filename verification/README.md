# IanOS in Dafny

A model of the parts of IanOS that carry the most logic, with proofs of what they promise.
`dafny verify dfyconfig.toml` checks everything.

**The FAT16 image builder** (`FatGeometry`, `FatRecords`, `FatReader`, `FatLayout`, `FatOwnership`, `FatNaming`,
`FatNames`, `FatWrites`, `FatMount`, `FatBuilder`, `FatEstimate`, on `Bytes`).
`ImageBuilder` is a class with the image, the allocation table and the next free cluster, filled by the loops of
the Python tool: files along fresh chains, directories reserved first and extended after their children, so that
chains interleave. `FatReader` is an independent reader that mounts an image from its boot sector alone, decodes
names from long-name slots and 8.3 fields with its own checksum, and walks the tree. The main theorem is that the
image built reads back as the source tree if and only if the root records fit their 512 entries: the same shape and
contents, and every name as it is or, where it is stored short, in capitals (`FatNames.ReadsBack`, which mentions no
record). Every cluster in use belongs to exactly one object of the tree. The size of the table is a
fixed point the tool searches for by iteration; the search is shown to end for exactly one residue condition, and
the first size for which it does not is exhibited. The estimate that sizes the image is shown to suffice within its
margin, with a counterexample beyond it.

**The terminal stack** (`Console`, `TextLaws`, `Terminal`, on `RingSlots`). The console draws incrementally over a ring of rows;
its text is that of an unbounded terminal and its screen, while it follows the tail, is what a repaint would show,
over every run of calls without a row-crossing erase. Pixels are one glyph per cell. The terminal is two
overwrite-oldest rings behind a line discipline; each locked call is one atomic step.

**The shell core** (`ShellLine`, `History`, `LineDisplay`, `Editor`, `Jobs`). Lines are cut in place at `;`, `&&` and
`||` and evaluated against a status oracle, for every line, and agree with the evaluation of command trees for every
printed list. The editor works in place on its 64-byte buffer and refines operations on the text around a cursor, a
draft and the history ring; what it writes to draw a line is followed through the console to the row it leaves. The
job table is an array of eight slots with laws over whole runs.

**The tools** (`Words`, `Reads`, `Md5Rounds`, `Md5`, `Crc32`, `Base64`, `Base64Bits`, `Realpath`, `Cal`, `Pstree`). Streaming hashes and
codecs equal their definition for every input and every way reads cut it; the checksum detects bursts exactly;
paths reduce as stacks; weekdays are counted days; the process tree prints parents first.

Conventions. Bytes are integers below 256. Machine words are sequences of 32 bits, lowest first. Reads, the
working directory, segment execution and the contents of the source tree are parameters. The streaming classes of
`Base64` take the code of a triplet or a quad as a parameter and are proved for every one; the programs pass the
real one.

Where the code differs from what one would expect of it, the model follows the code, and each of these has its
exact condition and an input that shows it:

- the search for the table size can run for ever (`FatGeometry.SearchStopsExactly`, `FatGeometry.FirstOscillation`);
- large demands leave FAT16 unnoticed (`FatEstimate.ChosenIsFat16`, `FatEstimate.LargeFile`);
- the margin does not cover every tree (`FatEstimate.MakeImage`, `FatEstimate.EmptyFilesOverflow`);
- a root directory of more than 512 entries is written but cut off when read (`FatMount.TruncatedVolume`,
  `FatEstimate.RootOverflows`);
- an 8.3 name that repeats another one up to case is stored again (`FatNaming.ShortsDistinctExactly`,
  `FatNaming.CaseTwins`), and then two children can be shown under one name (`FatNames.ShownAlikeExactly`,
  `FatNames.TwinsLookAlike`);
- a dot at the end of an 8.3 name is lost (`FatNames.CapitalsOfAscii`);
- erasing across a row can leave the viewport behind (`Console.Display.EraseChar`,
  `Console.EraseAfterBreak`);
- a line drawn with the cursor inside it loses what follows the cursor (`LineDisplay.WholeLineShown`,
  `LineDisplay.CursorHidesLine`);
- a command after `&& ;` is still conditional (`ShellLine.GapsKeepConnector`, `ShellLine.StillConditional`);
- a job that recycles the first slot keeps the old number, so it need not be the current one
  (`Jobs.NewestIsCurrent`, `Jobs.NinthIsNotCurrent`);
- processes on or below a cycle of parent links are not printed when the table is full (`Pstree.AllPrinted`,
  `Pstree.NoneOfCircle`).

## Model

| member | source | states |
|---|---|---|
| FatGeometry.SearchStopsExactly | tools/make_fat_image.py:166-175 | for every total, the search for the table size ends if and only if (total + 995) mod 1026 < 1024 |
| FatGeometry.SearchStopsOnAlignedSizes | tools/make_fat_image.py:166-186 | for the totals the builder tries, multiples of 2048, it ends if and only if total mod 1050624 is not 509952 |
| FatGeometry.FirstOscillation | tools/make_fat_image.py:166-175 | the first looping size: at 509952 sectors the candidate alternates between 497 and 498 for ever |
| FatGeometry.FixedPointUnique | tools/make_fat_image.py:166-175 | a table size reproduces itself exactly when it is the one candidate and the total is solvable |
| FatGeometry.StepApproaches | tools/make_fat_image.py:166-175 | every round of the search comes closer to the fixed point, with a measure that rules out two-cycles |
| FatGeometry.ComputeGeometry | tools/make_fat_image.py:166-175 | the loop, under exactly the condition that lets it end, returns the unique self-describing geometry |
| FatGeometry.SizeSearchStopsExactly | tools/make_fat_image.py:178-186 | the search for an image size ends if and only if at most 506879 sectors are required |
| FatGeometry.ChooseTotalSectors | tools/make_fat_image.py:178-186 | the loop returns the smallest candidate that has room for the demand and enough clusters for FAT16 |
| FatGeometry.ChosenOnce | tools/make_fat_image.py:178-186 | one demand leads to one size |
| FatRecords.MakeShortAlias | tools/make_fat_image.py:53-66 | the first numbered alias not in use, or none after 99 |
| FatRecords.LfnChecksum | tools/make_fat_image.py:69-73 | the rotating checksum loop computes the recursive checksum of the short name |
| FatRecords.LfnEntry | tools/make_fat_image.py:76-89 | the byte-by-byte writer produces the slot with marker, attribute, checksum and code units in place |
| FatRecords.LfnEntries | tools/make_fat_image.py:92-107 | the loop emits the chunks of a name last to first, with descending sequence numbers |
| FatRecords.DirectoryRecord | tools/make_fat_image.py:119-133 | the record of an object under the name chosen for it, an error exactly when no alias is left or a field does not fit, and the set of used names afterwards |
| FatReader.SlotUnitsRoundTrip | tools/make_fat_image.py:76-89 | the thirteen code units scattered over a long-name slot are read back from their byte offsets |
| FatReader.SameSums | tools/make_fat_image.py:69-73 | the reader's own checksum, which rotates the eight bits of a byte, is that of the writer for every short name |
| FatReader.ShortNameShown | tools/make_fat_image.py:24-36 | an 8.3 field read as base and extension without its blanks is the name in capitals |
| FatReader.AliasShown | tools/make_fat_image.py:53-66 | an alias is read as the start of the sanitised base, the numbered suffix and the extension |
| FatReader.LfnRoundTrip | tools/make_fat_image.py:69-107 | an independent reader, which itself insists on descending sequence numbers and on the checksum, collects exactly the name, for every length up to 255 |
| FatReader.RecordRoundTrip | tools/make_fat_image.py:110-133 | reading a directory record back gives the name under which it is shown, attribute, cluster and size |
| FatReader.TableRoundTrip | tools/make_fat_image.py:241-262 | reading a whole table back gives one entry per child, in order, under decoded names |
| FatLayout.ChainInRange | tools/make_fat_image.py:202-229 | the chain of every object is strictly increasing and stays in the clusters of its subtree |
| FatLayout.StoredFrame | tools/make_fat_image.py:202-262 | a stored subtree stays stored under any change outside its own clusters |
| FatLayout.ReadStoredChain | tools/make_fat_image.py:202-229 | following the table from the first cluster of a stored object gathers its padded bytes |
| FatLayout.DirBytesRoundTrip | tools/make_fat_image.py:136-141 | a directory's bytes parse to its two dot entries and its children's records |
| FatLayout.StoredReads | tools/make_fat_image.py:202-262 | reading a stored object back through the reader gives the object: exact bytes for a file, the whole subtree for a directory |
| FatLayout.StoredReadsAll | tools/make_fat_image.py:202-262 | the same for all children of a directory |
| FatOwnership.ChainsDisjoint | tools/make_fat_image.py:202-262 | the chains of two different objects share no cluster, wherever the objects are in the tree |
| FatOwnership.HeldExactly | tools/make_fat_image.py:202-262 | the clusters held by the objects below a directory are exactly one range, its own length |
| FatOwnership.Allocated | tools/make_fat_image.py:202-262 | if the entries in use are such a range, every one of them is in the chain of exactly one object |
| FatNaming.NameKidsPrefix | tools/make_fat_image.py:241-262 | names are chosen left to right: naming fewer children gives the same names to them |
| FatNaming.KidsBuildable | tools/make_fat_image.py:119-133 | children that can be named can all be recorded |
| FatNaming.ShortsDistinctExactly | tools/make_fat_image.py:119-133 | the stored 8.3 names of a directory are pairwise distinct if and only if no 8.3 name repeats, up to case, one stored before it |
| FatNaming.CaseTwins | tools/make_fat_image.py:119-133 | `A` and `a` are stored under one 8.3 name |
| FatNames.EightAndThree | tools/make_fat_image.py:24-36 | one to eight and up to three allowed capitals with a dot between them are their own 8.3 name, padded field by field |
| FatNames.CapitalsOfAscii | tools/make_fat_image.py:24-36 | the name an 8.3 field shows is the name in capitals, letter by letter, without a dot at its end |
| FatNames.CapitalsAgain | tools/make_fat_image.py:24-36 | writing it in capitals changes nothing about how a name is stored |
| FatNames.KidsShow | tools/make_fat_image.py:241-262 | for every source tree whose children can be named, what is stored shows the tree, whatever names were chosen |
| FatNames.ShownAlikeExactly | tools/make_fat_image.py:119-133 | two children with different names are shown under one name if and only if the earlier one is stored short and the later one is called its capitals |
| FatNames.TwinsLookAlike | tools/make_fat_image.py:119-133 | `a` and then `A` are both shown as `A` |
| FatWrites.SliceAssignInside | tools/make_fat_image.py:202-229 | slice assignment of equal length keeps the image length and everything outside the slice |
| FatWrites.GrowChain | tools/make_fat_image.py:215-229 | one round of extending a directory chain links the previous cluster to the new one and stores the next piece |
| FatWrites.LayChain | tools/make_fat_image.py:202-213 | one round of writing a file stores the next piece and its link |
| FatBuilder.ImageBuilder.constructor | tools/make_fat_image.py:190-200 | a fresh builder: constant-size image and table, reserved first two entries, every cluster untouched |
| FatBuilder.ImageBuilder.ReserveCluster | tools/make_fat_image.py:231-235 | succeeds exactly when a cluster is left, ends its chain in the table, and disturbs nothing below |
| FatBuilder.ImageBuilder.AllocateChain | tools/make_fat_image.py:202-213 | succeeds exactly when the file fits, stores its bytes along a chain of the next clusters, and disturbs nothing below |
| FatBuilder.ImageBuilder.WriteChain | tools/make_fat_image.py:215-229 | stores a directory along its reserved cluster and later ones, leaving the children in between as they were |
| FatBuilder.ImageBuilder.BuildKid | tools/make_fat_image.py:241-262 | one child: success exactly when it can be named and fits; its subtree is stored and its record is returned |
| FatBuilder.ImageBuilder.BuildKids | tools/make_fat_image.py:241-262 | all children of a directory, success exactly when all fit |
| FatBuilder.ImageBuilder.BuildDirectory | tools/make_fat_image.py:241-262 | a subdirectory built depth first: success exactly when it fits, allocated clusters are contiguous, all earlier ones are undisturbed |
| FatBuilder.ImageBuilder.EncodeFat | tools/make_fat_image.py:288-295 | the packed table holds every entry: the bound check never drops one |
| FatBuilder.ImageBuilder.WriteFats | tools/make_fat_image.py:288-295 | both copies of the table are in place and nothing else changed |
| FatBuilder.ImageBuilder.Build | tools/make_fat_image.py:297-312 | success exactly when everything fits; the image then has its length, and an independent mount and walk of it shows the source tree if and only if the root records fit 512 entries; every cluster in use is in the chain of exactly one object |
| FatBuilder.RootInside | tools/make_fat_image.py:297-312 | even a root directory that is too long ends inside the image, because a record is shorter than the clusters of its object |
| FatMount.MountRoundTrip | tools/make_fat_image.py:264-295 | a reader that trusts only the boot sector finds the table, the root directory and the data region |
| FatMount.BootLayout | tools/make_fat_image.py:264-286 | the fields of the boot sector, byte by byte at their offsets |
| FatMount.TruncatedRoot | tools/make_fat_image.py:297-312 | root records beyond 512 entries are cut off, so fewer objects are read than were written |
| FatMount.TruncatedVolume | tools/make_fat_image.py:297-312 | such an image is unreadable or shows fewer objects in its root than the source has |
| FatEstimate.EstimateSourceBytes | tools/make_fat_image.py:148-163 | the loop over all paths adds up the estimate |
| FatEstimate.EstimateCovers | tools/make_fat_image.py:148-163 | clusters really taken stay within the estimate if empty files, directories and repeated 8.3 names stay within the 4 MiB margin |
| FatEstimate.EstimateSuffices | tools/make_fat_image.py:148-186 | every accepted size then has room for the whole tree |
| FatEstimate.ChosenIsFat16 | tools/make_fat_image.py:178-186 | the chosen image has fewer than 65525 clusters if and only if at most 261599 sectors are required |
| FatEstimate.LargeFile | tools/make_fat_image.py:148-186 | a single file: the chosen image leaves FAT16 if and only if the file has more than 129740800 bytes |
| FatEstimate.EmptyFilesOverflow | tools/make_fat_image.py:148-186 | without the margin condition it fails: nine thousand empty files do not fit the size chosen for them |
| FatEstimate.RootOverflows | tools/make_fat_image.py:178-312 | 513 to 4085 empty files in the root: the clusters of the chosen image suffice and its root directory does not |
| FatEstimate.MakeImage | tools/make_fat_image.py:148-200 | the whole program: an image is made exactly when the tree fits the size chosen, in particular under the margin condition, and an image made shows the source tree if and only if the root records fit |
| Console.Display.constructor | kernel/src/console.cpp:47-57 | a blank console follows the tail and shows what a repaint would |
| Console.Display.Clear | kernel/src/console.cpp:47-57 | all text is forgotten and every cell of the screen is blank |
| Console.Display.NewLine | kernel/src/console.cpp:68-77 | a row is started, the recycled ring slot is blank and the screen still agrees with a repaint |
| Console.Display.EraseChar | kernel/src/console.cpp:79-98 | erasing inside a row keeps every invariant; across a row the text loses its last row, the ring holds the rest, the screen still shows a repaint, and the view invariant is lost exactly while following the tail or with the row above at the bottom of the viewport |
| Console.Display.ClearCell | kernel/src/console.cpp:100-110 | one cell is blanked on the screen, if it is on it, and in the ring, if the ring holds it |
| Console.Display.Render | kernel/src/console.cpp:161-178 | a full repaint shows the rows of the viewport |
| Console.Display.ScrollView | kernel/src/console.cpp:180-200 | the viewport moves within the rows still held, following is recomputed, and the screen is up to date |
| Console.Display.ScrollToBottom | kernel/src/console.cpp:202-205 | the view returns to the tail and is up to date |
| Console.Display.ResetInputLine | kernel/src/console.cpp:207-217 | the cursor row is blank in ring and screen, without a repaint |
| Console.Display.Put | kernel/src/console.cpp:219-240 | one character acts on the text as on an unbounded terminal and keeps every invariant unless it erases across a row; then the text and the view are those of the erase; a form feed leaves no text and a blank screen |
| Console.EraseAfterBreak | kernel/src/console.cpp:79-98 | on any fresh console, a line break and a backspace lose the view invariant |
| Console.Display.Run | kernel/src/console.cpp:47-240 | for every run without row-crossing erases: the ring holds the youngest rows of the unbounded text, following holds exactly at the tail and lasts while nobody scrolls, and while following the incrementally drawn screen equals a repaint and shows the last rows of the text, every printable character as itself |
| Console.Display.FollowingIsDrawn | kernel/src/console.cpp:151-178 | while following, no visible row has been recycled, so the screen is up to date |
| Console.Display.FollowingIsLegible | kernel/src/console.cpp:161-257 | while following, each cell of the screen shows the character of the text behind it: 32 to 127 as themselves, NUL as a blank, others as a question mark |
| TextLaws.TypeWrapped | kernel/src/console.cpp:219-240 | printing text of any length on an empty row leaves it cut into rows of the screen's width, with the cursor after the last part |
| TextLaws.PrintLines | kernel/src/console.cpp:68-77 | printing lines separated by newlines leaves each line on rows of its own, wrapped |
| Console.TypeThenErase | kernel/src/console.cpp:79-98 | after any calls, typing a character that does not wrap and erasing it restores the text |
| Console.BlankAheadAlways | kernel/src/console.cpp:47-240 | over every run of calls, the cells from the cursor on stay blank |
| Console.SlotsDistinct | kernel/src/console.cpp:146-159 | rows young enough to be held occupy different ring slots |
| Terminal.TypeAndErase | kernel/src/terminal.cpp:71-97 | typing a character and erasing it is invisible, whatever follows, if and only if the line was not full |
| Terminal.PlainPrefix | kernel/src/terminal.cpp:71-97 | plain text typed on an empty line is pending as typed, cut to 127 bytes |
| Terminal.EnteredLine | kernel/src/terminal.cpp:71-97 | entering it, by either key, commits those bytes and a newline and leaves an empty line |
| Terminal.ControlOvertakes | kernel/src/terminal.cpp:71-97 | any other control byte is committed ahead of the pending line, which stays; NUL does nothing |
| Terminal.LineBounded | kernel/src/terminal.cpp:71-97 | the pending line always has room for its terminator |
| Terminal.CookAppend | kernel/src/terminal.cpp:71-97 | input may be fed in any pieces |
| Terminal.Queue.HoldsRecent | kernel/src/terminal.cpp:46-64 | over every run of pushes and pops, a ring holds the last 256 of the bytes pushed after the last one popped |
| Terminal.Queue.Push | kernel/src/terminal.cpp:46-56 | a ring keeps the last 256 bytes and reports exactly when it drops one |
| Terminal.Queue.Pop | kernel/src/terminal.cpp:58-64 | the oldest byte is taken, or none from an empty ring; everything pushed is what was taken or dropped, followed by what is held |
| Terminal.Queue.Drain | kernel/src/terminal.cpp:156-189 | the oldest bytes, in order, as many as asked for and held |
| Terminal.Device.LineStep | kernel/src/terminal.cpp:71-97 | one character changes the committed bytes and the pending line as the line discipline says, control characters passing ahead of the line |
| Terminal.Device.CanonicalInput | kernel/src/terminal.cpp:71-97 | over all input since the mode change, committed bytes and pending line are those of the discipline |
| Terminal.Device.PushInput | kernel/src/terminal.cpp:119-132 | a key goes to the ring of the mode; NUL is ignored; all invariants and the byte count are kept |
| Terminal.Device.InjectInput | kernel/src/terminal.cpp:134-154 | injected text goes the same way, up to the first NUL and within the length limit |
| Terminal.Device.ReadInput | kernel/src/terminal.cpp:156-173 | a read delivers the oldest bytes of the mode's ring, and refuses lengths above 4096 |
| Terminal.Device.ReadKey | kernel/src/terminal.cpp:175-189 | a raw read in either mode |
| Terminal.Device.SetInputMode | kernel/src/terminal.cpp:202-210 | a mode change discards everything buffered and accounts for it: bytes in equal delivered plus dropped plus held plus discarded |
| ShellLine.Shell.RunShellLine | userland/src/init.cpp:3097-3134 | for every line and every status oracle, cutting in place runs exactly the parsed segments, in order, with the same final status |
| ShellLine.CutSegment | userland/src/init.cpp:3106-3125 | a segment is terminated over its separator, and the rest of the line is untouched |
| ShellLine.FindEnd | userland/src/init.cpp:3106-3125 | the loop finds the length of the segment |
| ShellLine.SegmentEnds | userland/src/init.cpp:3106-3125 | that is the least place with a `;`, two `&` or two `|`, or the end of the line |
| ShellLine.PassGaps | userland/src/init.cpp:3102-3103 | blanks and semicolons in front of a segment are passed |
| ShellLine.ParseList | userland/src/init.cpp:3097-3134 | a printed list of AND-OR lists parses to its commands and connectors, whatever blanks it is printed with |
| ShellLine.PrintedListRuns | userland/src/init.cpp:3097-3134 | a list of words, any strings in which no `;`, `&&` or `||` occurs, printed with any blanks, runs as the left-associative evaluation of its AND-OR lists one after another, as in section 2.9.3 of the POSIX.1-2017 Shell Command Language |
| ShellLine.GapsKeepConnector | userland/src/init.cpp:3097-3134 | blanks and semicolons in front of a segment leave the connector before them in force |
| ShellLine.ConditionalAcrossGap | userland/src/init.cpp:3097-3134 | so in `a && ; b` the second command is conditional, for all words |
| ShellLine.StillConditional | userland/src/init.cpp:3097-3134 | the same for the line `a&&;b` |
| History.Ring.Push | userland/src/init.cpp:452-459 | the ring lists the last eight lines kept, empty lines and immediate repeats being skipped |
| History.Ring.At | userland/src/init.cpp:461-465 | the i-th line from the oldest, or nothing beyond the newest |
| History.OfferedKeeps | userland/src/init.cpp:452-459 | keeping eight at a time is the same as keeping all and listing the last eight |
| History.KeptOnce | userland/src/init.cpp:452-459 | lines that fit the buffer leave no empty entry and no two equal neighbours |
| Editor.LineEditor.Redraw | userland/src/init.cpp:434-444 | the loop writes exactly the drawing of prompt and line with the cursor stepped back to the target, at most the end of the line |
| LineDisplay.DrawingShows | userland/src/init.cpp:434-444 | over every earlier output, drawing a line that fits the row leaves the prompt and the line up to the cursor on the row, the cursor there, and blanks after it |
| LineDisplay.DrawingRegular | userland/src/init.cpp:434-444 | drawing is a run without row-crossing erases |
| LineDisplay.ShowLine | userland/src/init.cpp:434-444 | so on the console itself the bottom row of the view shows exactly the characters of the prompt and of the line up to the cursor, and blanks, whatever it showed before |
| LineDisplay.PromptFits | userland/src/init.cpp:434-444 | with the shell's prompt every line of the editor fits a row of 71 columns |
| LineDisplay.WholeLineShown | kernel/src/console.cpp:79-98 | so the whole line is visible if and only if only blanks follow the cursor, because the console's backspace erases |
| LineDisplay.CursorHidesLine | userland/src/init.cpp:434-444 | the line `ls` behind the shell's prompt, drawn with the cursor in front of it, is not shown |
| Editor.LineEditor.ReplaceInput | userland/src/init.cpp:446-450 | the line becomes the text that fits, with the cursor at its end, and is drawn so |
| Editor.LineEditor.CloseGap | userland/src/init.cpp:3347-3350 | the characters after a place move down one, NUL included |
| Editor.LineEditor.OpenGap | userland/src/init.cpp:3393-3396 | the characters after the cursor move up one, NUL included |
| Editor.LineEditor.MoveKey | userland/src/init.cpp:3340-3391 | cursor and deletion keys refine the operations on the text before and after the cursor |
| Editor.LineEditor.UpKey | userland/src/init.cpp:3327-3333 | one step up the history, saving the line when leaving the newest place |
| Editor.LineEditor.DownKey | userland/src/init.cpp:3334-3339 | one step down the history, back to the saved line at the newest place |
| Editor.LineEditor.EnterKey | userland/src/init.cpp:3311-3326 | the line enters the history and runs, and the next one starts empty |
| Editor.LineEditor.PressKey | userland/src/init.cpp:3299-3401 | every key but a tab refines its operation on text, cursor, draft, history and session; the cursor stays in the line, which keeps its only NUL at its end |
| Editor.PressKeeps | userland/src/init.cpp:3299-3401 | every key keeps lines within 63 characters and free of NULs |
| Editor.OfferedTidy | userland/src/init.cpp:452-459 | a line of the editor is entered uncut, and the history keeps no empty line and no two equal neighbours |
| Editor.TidyAlways | userland/src/init.cpp:3299-3401 | the same over every run of keys |
| Editor.UpsAndDowns | userland/src/init.cpp:3327-3339 | any number of steps up and as many down bring the line back |
| Editor.TypeText | userland/src/init.cpp:3392-3400 | typing inserts the text before the cursor |
| Editor.TypedAndErased | userland/src/init.cpp:3381-3400 | a character typed and erased leaves the line as it was, if and only if the line was not full or had nothing before the cursor |
| Editor.KeysSorted | userland/src/init.cpp:3299-3401 | only code 4 on an empty line ends the run, and off the history exactly the codes 32 to 126 lengthen a line of fewer than 63 characters |
| Editor.LeftAndDelete | userland/src/init.cpp:3361-3391 | stepping left and deleting is erasing, and stepping left and right is nothing, if and only if something is before the cursor or nothing behind it |
| Editor.MoveCursor | userland/src/init.cpp:3355-3370 | cursor keys keep the text and put the cursor at the start, the end, or one place along |
| Editor.TypedListRuns | userland/src/init.cpp:3299-3401 | a command list typed on an empty line and entered runs as its AND-OR lists and enters the history |
| Jobs.RememberIdentifies | userland/src/init.cpp:190-238 | live jobs keep distinct nonzero numbers below the next one |
| Jobs.RememberDisjoint | userland/src/init.cpp:190-238 | jobs stay disjoint if and only if no process of the new job is listed by a job in another slot |
| Jobs.RememberLookup | userland/src/init.cpp:190-238 | a new job is found under all its processes, and only the job it displaced is lost |
| Jobs.Remembered | userland/src/init.cpp:190-238 | under its leader the new job is found with all its fields: the processes, the first 63 characters of the command, and the number of the job that had the leader, else the next one if a slot was free, else that of the first slot |
| Jobs.ForgetKeeps | userland/src/init.cpp:240-252 | forgetting keeps the table good and leaves no job with the process |
| Jobs.ForgetLookup | userland/src/init.cpp:240-252 | forgetting a process forgets its whole job and no other |
| Jobs.RunsStayGood | userland/src/init.cpp:161-252 | over every run with fresh processes, numbers are distinct and no process is in two jobs |
| Jobs.Replaced | userland/src/init.cpp:190-213 | a live job is replaced exactly through one of its processes, or in the first slot of a full table |
| Jobs.FoundWhileSpared | userland/src/init.cpp:161-252 | a job is found under its processes until it is ended or replaced |
| Jobs.NewestIsCurrent | userland/src/init.cpp:181-213 | a new job becomes the current one if and only if it got a new number or took over the greatest one |
| Jobs.NinthIsNotCurrent | userland/src/init.cpp:181-213 | after eight starts a ninth job takes over number 1 and is not the current one |
| Jobs.JobTable.FindJob | userland/src/init.cpp:161-171 | the first live job with the process |
| Jobs.JobTable.FindJobId | userland/src/init.cpp:173-179 | the live job with a number, if any |
| Jobs.JobTable.CurrentJob | userland/src/init.cpp:181-188 | the live job with the greatest number, or none if no job is live |
| Jobs.JobTable.RememberJob | userland/src/init.cpp:190-213 | a single process is remembered, without conditions, and the table stays good |
| Jobs.JobTable.RememberPipeline | userland/src/init.cpp:215-238 | at most four processes are listed, and the table stays good if and only if they were fresh |
| Jobs.JobTable.ForgetJob | userland/src/init.cpp:240-252 | the job of a process is emptied |
| Md5.Hasher.Update | userland/src/md5sum.cpp:111-125 | data of any length is absorbed: the state is the fold of the transformation over all full blocks so far, the rest waits, the counter wraps at 64 bits |
| Md5.Hasher.Mark | userland/src/md5sum.cpp:127-135 | the bit after the message, and a further block exactly when the length no longer fits |
| Md5.Hasher.StoreCount | userland/src/md5sum.cpp:56-61 | the little-endian count fills the last eight bytes |
| Md5.Hasher.Finish | userland/src/md5sum.cpp:127-138 | in the one-block and the two-block case the final state is the fold over the once-padded message |
| Md5.PaddedLength | userland/src/md5sum.cpp:127-138 | the padded message is the shortest whole number of blocks with room for the bit and the length |
| Md5.PaddingIs | userland/src/md5sum.cpp:127-138 | the padding is a set bit, zeros, and the number of bits of the message modulo 2 to the 64, lowest byte first |
| Md5.InitialBytes | userland/src/md5sum.cpp:63-71 | the registers start at the bytes 01 23 45 67 to 76 54 32 10 of section 3.3 of RFC 1321, lowest byte first |
| Md5.WriteDigest | userland/src/md5sum.cpp:138-143 | the digits to the base 256 of the four registers, lowest first, are the digest |
| Md5.FoldAppend | userland/src/md5sum.cpp:111-125 | folding whole blocks first and the rest later gives the same state |
| Md5.HashReads | userland/src/md5sum.cpp:111-138 | for every way the reads cut the input, running the rotating loop block by block ends in the state of the whole input under any function it computes |
| Md5.Md5Sum | userland/src/md5sum.cpp:63-144 | the digest is that of sections 3.1 to 3.5 of RFC 1321 for the whole input, or an error exactly when a read fails |
| Md5.DigestInjective | userland/src/md5sum.cpp:138-144 | different final registers give different digests |
| Md5Rounds.RotatedOperation | userland/src/md5sum.cpp:82-103 | rotating the registers after each operation is the same as rotating the roles they play in section 3.4 of RFC 1321 |
| Md5Rounds.SecondRound | userland/src/md5sum.cpp:88-91 | the index formula of the second round gives the listed word order |
| Md5Rounds.ThirdRound | userland/src/md5sum.cpp:91-94 | the same for the third round |
| Md5Rounds.FourthRound | userland/src/md5sum.cpp:94-97 | the same for the fourth round |
| Md5Rounds.Mix | userland/src/md5sum.cpp:83-97 | the selected auxiliary function and word are those of the round |
| Md5Rounds.Transform | userland/src/md5sum.cpp:73-109 | the loop computes the block transformation of section 3.4 of RFC 1321 |
| Md5Rounds.AuxiliaryBits | userland/src/md5sum.cpp:83-97 | bit by bit the four auxiliary functions are two choices, the parity, and the fourth function of section 3.4 of RFC 1321 |
| Md5Rounds.IncreaseIs | userland/src/md5sum.cpp:105-108 | each register grows by what the operations left in it, as numbers modulo 2 to the 32 |
| Md5Rounds.FourRows | userland/src/md5sum.cpp:5-10 | the table of 64 rotations repeats the four of each round in turn |
| Md5Rounds.Turn | userland/src/md5sum.cpp:98 | one round of the loop, with the table of rotations and shifted halves, gives the new word of the operation |
| Words.RotateByShifts | userland/src/md5sum.cpp:45-47 | two shifts and an or are a rotation |
| Words.LoadStored | userland/src/md5sum.cpp:49-54 | loading the stored bytes of a word gives the word |
| Words.AddIs | userland/src/md5sum.cpp:98-108 | words are added as numbers modulo 2 to the 32 |
| Words.RotateMoves | userland/src/md5sum.cpp:45-47 | a rotation moves every bit up by the amount, modulo 32 |
| Words.LoadIs | userland/src/md5sum.cpp:49-54 | a word loaded is the number its bytes spell to the base 256, lowest first |
| Words.Digits | userland/src/md5sum.cpp:138-143 | the bytes of a word are the digits of its number to the base 256, lowest first |
| Crc32.StepInjective | userland/src/cksum.cpp:20-30 | the bit step loses nothing, because the polynomial has its top bit set |
| Crc32.Absorbs | userland/src/cksum.cpp:20-30 | bits still to come may be added to the register early |
| Crc32.BurstTheorem | userland/src/cksum.cpp:20-30 | two bit streams that differ only in a window of 33 bits leave the same register if and only if the windows are equal or differ by exactly the generator |
| Crc32.ErrorDetection | userland/src/cksum.cpp:20-30 | messages of any equal length that differ only in 32 consecutive bits (in particular in four bytes) have different checksums; for 33 bits the one exception is the generator |
| Crc32.FourBytes | userland/src/cksum.cpp:20-30 | messages that differ only within four consecutive bytes have different checksums |
| Crc32.ChecksumAppend | userland/src/cksum.cpp:20-30 | a checksum continued over pieces is the checksum of the whole |
| Crc32.Residue | userland/src/cksum.cpp:20-30 | for every message, continued from any checksum, and any four bytes after it: the checksum is one constant of the generator if and only if the bytes are the message's own checksum, lowest byte first |
| Crc32.IeeeTerms | userland/src/cksum.cpp:26 | the constant is the generator of IEEE 802.3, reflected: 1 + x + x^2 + x^4 + x^5 + x^7 + x^8 + x^10 + x^11 + x^12 + x^16 + x^22 + x^23 + x^26 + x^32 |
| Crc32.CrcUpdate | userland/src/cksum.cpp:20-30 | the nested loops compute the checksum: complement, division of the bit stream by the generator, complement |
| Crc32.Cksum | userland/src/cksum.cpp:65-79 | the read loop prints the checksum and length of the whole input, however the reads cut it |
| Base64.TripletRoundTrip | userland/src/base64.cpp:47-97 | one to three bytes survive encoding and decoding |
| Base64.RoundTrip | userland/src/base64.cpp:47-97 | every byte string is decoded from its encoding, with any white space put in |
| Base64.ConcatenationRoundTrip | userland/src/base64.cpp:81-97 | encodings put together, padding included, decode to the data put together |
| Base64.EncodedLength | userland/src/base64.cpp:47-56 | n bytes are encoded as four times the ceiling of n / 3 characters, as in section 4 of RFC 4648 |
| Base64Bits.LetterIs | userland/src/base64.cpp:5 | every letter is the one at its place in the 64-character alphabet |
| Base64Bits.EncodingSpells | userland/src/base64.cpp:47-56 | the letters of an encoding, six bits each, spell the same number as the data, eight bits each, followed by the zero bits that fill up the last letter |
| Base64.BadCharacter | userland/src/base64.cpp:58-97 | one character outside the alphabet makes the whole text invalid |
| Base64.TrialDecodes | userland/src/base64.cpp:81-97 | decoding up to the first bad quad and decoding the whole text agree |
| Base64.LetterValue | userland/src/base64.cpp:58-67 | letters and sextets are in one-to-one correspondence |
| Base64.PutAllWrites | userland/src/base64.cpp:36-45 | output lines of 79 characters join to what was emitted |
| Base64.PutDecodedWrites | userland/src/base64.cpp:69-79 | decoded output keeps every byte but the line breaks, in order |
| Base64.LineWriter.Emit | userland/src/base64.cpp:36-45 | a full line is written out before the next character is stored |
| Base64.Encoder.Feed | userland/src/base64.cpp:146-152 | bytes pass through the carry and are encoded three at a time |
| Base64.Encoder.Finish | userland/src/base64.cpp:154-155 | the rest of the carry is encoded with padding and the open line is written |
| Base64.EncodeProgram | userland/src/base64.cpp:138-155 | however the reads cut the input, the lines join to its encoding and all but the last have 79 characters |
| Base64.Decoder.DecodeFull | userland/src/base64.cpp:81-97 | a full quad gives its bytes, or no continuation of the text can be decoded |
| Base64.Decoder.FeedByte | userland/src/base64.cpp:163-176 | white space is passed, a bad character is final, others fill the quad |
| Base64.DecodeProgram | userland/src/base64.cpp:156-187 | however the reads cut the input, the lines printed are those of the bytes the text decodes to; an error is reported exactly when it does not decode, after the full lines of the bytes before it |
| Reads.PiecesReceived | userland/src/cksum.cpp:65-79 | reads that are not empty are put together up to the end of the input, and a failure before it is an error |
| Realpath.Buffer.Append | userland/src/realpath.cpp:16-21 | a character is appended exactly when it fits with the terminator |
| Realpath.Buffer.AppendText | userland/src/realpath.cpp:23-28 | the same for a text |
| Realpath.Buffer.Pop | userland/src/realpath.cpp:30-45 | scanning back to a slash removes the last component; the root stays |
| Realpath.Buffer.PushComponent | userland/src/realpath.cpp:47-59 | the buffer follows the stack of components, and fails exactly when the new one does not fit |
| Realpath.NormalizeAbsolute | userland/src/realpath.cpp:61-79 | the result is the reduction of the stack of components; an error exactly for a relative path or a stack on the way that does not fit |
| Realpath.NormalForm | userland/src/realpath.cpp:61-79 | results have no empty, `.` or `..` component and are their own normal form |
| Realpath.NormalizePrefix | userland/src/realpath.cpp:61-79 | norm(p/q) = norm(norm(p)/q) |
| Realpath.NamedBelow | userland/src/realpath.cpp:47-59 | a name below a directory is the directory's path, one slash and the name |
| Realpath.DownAndUp | userland/src/realpath.cpp:30-59 | norm(p/c/..) = norm(p) for every name c |
| Realpath.DotsVanish | userland/src/realpath.cpp:47-59 | norm(p/.) = norm(p/) = norm(p), and nothing is above the root |
| Realpath.EnoughRoom | userland/src/realpath.cpp:61-79 | a buffer longer than the input always suffices |
| Realpath.JoinedMeans | userland/src/realpath.cpp:81-97 | a relative path means what it means below the normalised working directory |
| Realpath.Combine | userland/src/realpath.cpp:81-95 | the path to normalise, or an error when it is too long or the working directory is unknown |
| Realpath.MakeAbsolute | userland/src/realpath.cpp:81-97 | for every buffer size: the normal form of the combined path, or an error exactly for an empty or overlong path, an unknown working directory, or a path that does not normalise in the buffer |
| Realpath.CombinedFits | userland/src/realpath.cpp:81-97 | with a buffer of at least 128 bytes a combined path is an error exactly if it is not absolute |
| Cal.WeekdayCounts | userland/src/cal.cpp:38-57 | for every date from year 1 on, Zeller's congruence equals the count of days since 1 January of year 1, a Monday, modulo seven |
| Cal.YearCount | userland/src/cal.cpp:38-46 | the days before a year are 365 a year and the leap days |
| Cal.YearLength | userland/src/cal.cpp:38-46 | the months of a year add up to its 365 or 366 days |
| Cal.DaysCounted | userland/src/cal.cpp:38-46 | the number of a day goes up by one from date to date, across months and years |
| Cal.EmitRow | userland/src/cal.cpp:64-78 | a row shows its seven cells in their columns |
| Cal.PrintMonth | userland/src/cal.cpp:117-121 | just enough rows, seven cells each |
| Cal.EachDayOnce | userland/src/cal.cpp:64-78 | each day of the month is shown in one cell only: the row of its week and the column of its weekday |
| Cal.EachDayShown | userland/src/cal.cpp:64-78 | that cell is on the grid |
| Cal.DayTextReads | userland/src/cal.cpp:59-62 | a day is printed as its number in two columns, a blank for a leading zero |
| Pstree.FindByPid | userland/src/pstree.cpp:23-28 | the first live process with a pid |
| Pstree.ProcessDepth | userland/src/pstree.cpp:30-42 | the guarded climb computes the depth |
| Pstree.DepthCounts | userland/src/pstree.cpp:30-42 | below the guard, the depth is the number of ancestors |
| Pstree.DepthsBounded | userland/src/pstree.cpp:30-42 | all depths are below the table size if and only if no process is its own proper ancestor (pigeonhole) |
| Pstree.ParentNamed | userland/src/pstree.cpp:30-42 | with distinct pids the parent is the process the link names |
| Pstree.ChildrenNamed | userland/src/pstree.cpp:44-50 | with distinct pids the children counted are the processes with this one as their parent, and itself if it names itself |
| Pstree.ChildDeeper | userland/src/pstree.cpp:30-42 | a child is one deeper than its parent |
| Pstree.ChildCount | userland/src/pstree.cpp:44-50 | the number of live processes with a parent pid |
| Pstree.PrintTree | userland/src/pstree.cpp:89-98 | rows are in order of depth, at most one for each process, and exactly for those of depth below 16 |
| Pstree.AllPrinted | userland/src/pstree.cpp:77-98 | every process is printed if and only if fewer than 16 are loaded or the links have no cycle |
| Pstree.NoneOfCircle | userland/src/pstree.cpp:30-42 | sixteen processes in a circle all have depth sixteen, so none is printed |
| Pstree.ParentsFirst | userland/src/pstree.cpp:89-98 | without cycles a process has one row, and parents come before their children |

## Left out

- FatBuilder.ImageBuilder.constructor: totals of 65525 clusters and more, which would not be FAT16, are excluded; the tool does not check for them, and `FatEstimate.ChosenIsFat16` says exactly when they come up.
- FatEstimate.MakeImage: the same, as the bound of 261599 required sectors.
- FatGeometry.ComputeGeometry: the ceiling is exact, where the tool divides in floating point; the two agree far beyond any image size.
- The order in which the tool sorts the children of a directory, which is taken as given, and its file input and output.
- Console.Display.constructor: screens of 1 to 512 rows and 1 to 160 columns, the sizes the ring has room for.
- Console.Display.Put: NUL characters are excluded; callers stop at them.
- Pixels, the font and the statistics of the console; 32-bit and 64-bit counters in console and terminal are unbounded.
- LineDisplay.DrawingShows: prompts and lines that fit one row of the console; `LineDisplay.PromptFits` says when they do.
- LineDisplay.WholeLineShown: the same.
- ShellLine.Shell.RunSegment: running a segment is an oracle that leaves the line buffer alone; background jobs, pipelines, redirections and variables inside a segment are not modelled.
- Editor.LineEditor.PressKey: tab completion is excluded; of what the editor writes only the drawing of a line is modelled.
- Jobs.JobTable.RememberJob: job numbers are unbounded, so the branch for a number that wrapped to zero does not occur.
- Md5Rounds.Transform: the 64 constants are the listed ones, and that they are sines is not proved.
- Crc32.CrcUpdate: the mask made by subtraction from zero is written as a choice between the polynomial and zero.
- Realpath.MakeAbsolute: resolving links and looking up the result are left out.
- Cal.PrintMonth: the title line and argument parsing are left out, and the limit of year 9999 is not needed.
- Pstree.PrintTree: rows are their process, depth and child count; their text and the loading of the table are left out.
- The kernel's scheduler, memory management, file systems, pipes and drivers, the boot loader and the system call layer.
- The kernel log ring, which repeats the argument of the terminal's rings.
- The remaining command line tools, which would only add easy members.
