# Verified models of curses, the property-list reader and writer, and three AppleTalk routines

Each part models one piece of C code of the repository in the form the code has — classes with
mutable fields, arrays and loops where the code updates in place, pure functions where it only
computes — and proves what the code is for, over all inputs, all runs or all reachable states.
A method that changes state is tied to a function of the old state, and what the code promises is
proved about that function.

**The curses screen update** (Libcurses-21). `curscr` caches the physical screen; every window line
carries a dirty flag and a range `[first, last]` of changed columns. `Windows`, `Editing`, `Clearing`
and `Typing` model the editing calls on arrays of line objects, with the line pointers a permutation
that the calls keep; `EditingCells` and `TypingCells` say cell by cell what each call does. `Terminal`
is a model terminal with scrolling regions, line insertion and line deletion. `Cycle` is the arithmetic
of walking a rotation by its cycles. `Screens` and `QuickChange` model the search for an unchanged
block, the rotation of `curscr` and the scrolling of the terminal; `Repaint` and `Refresh` model
`makech` and `wrefresh`. `EditingSound` and `Session` show that the dirty marks stay sound over every
run of calls, so that each refresh brings `curscr` to the window, and the terminal too unless it has
run wild, for the reasons that are named below.

**The property-list writer and reader** (IOKitUser-1). `PlistValues` has the values and when two are
equal; `PlistWriting` what is written for a value, and `PlistSerializer` the serializer that writes it.
`PlistLexer` says what the lexer finds in a text and `PlistReader` is the lexer with its index and
buffers. `PlistTables` holds the LALR tables, `PlistGrammar` and `PlistParsing` run them, `PlistTrees`
and `PlistDescent` give an independent recursive-descent parser for the same grammar, and `PlistPool`
and `PlistParser` are the parser with its pool of semantic objects, its free list and its in-place list
reversal. `PlistLayout` shows that the layout of a text does not matter. `PlistSharing`,
`PlistSpelling`, `PlistLexing` and `PlistRoundTrip` join the two ends. `PlistText`, `Base64` and
`PlistTokens` cover numerals, escapes, base64 and single tokens.

**The reader/writer lock** (AppleTalk-52-1/at_rwlock.c): `RwLock`, a transition system over any number
of threads with spurious wakeups, one step for each critical section.

**The cursor motion planner** (Libcurses-21/cr_put.c): `CursorMotion` has the motions, what they do to
the cursor and which ones are planned; `CursorMover` is the code, whose dry run and real run follow the
same plan; `CursorTerminal` is a terminal that reads the characters sent, and `CursorEffect` what the
motions do to the cells of the screen.

**NBP replies and the AFP status block** (AppleTalk-52-1): `Nbp` packs, unpacks, collects and
deduplicates name tuples; `StatusBlock` inserts TCP data into a status block and moves its offsets.
`Basics` holds the optional values and the bytes that all parts use.

## What the code does not do

Where the code falls short of what it is for, the exact condition is proved.

- `makech` follows a cursor past the end of the previous line by moving one line down
  (refresh.c:248-252), but the flag it looks at outlives a newline. From the bottom line this scrolls
  the terminal without `curscr` knowing. `Before.Overruns` in `Refresh` says when, of the lines, the
  marks and the cursor's line the main loop starts with, and it takes enough lines marked as left past
  their end (`Refresh.OverrunTakesPastEols`). `Session.UnseenIffBlank` says when the scroll shows, and
  `Session.OverrunLosesTheScreen` is a run of calls after which it does.
- On a terminal that does not wrap at the margin, a window that may not scroll is painted up to the
  bottom right corner by moving away from past the margin (refresh.c:422-423); `__mvcur` sends a newline
  for a wrap that has not been (cr_put.c:117-133), which on the bottom line scrolls the screen.
  `Before.Wraps` says when, and `Session.CornerLosesTheScreen` is a run of calls that does it.
- These two are the only ways in which the main loop of `wrefresh` loses the terminal, if moving the
  cursor writes over nothing: `Refresh.Wrefresh` is an if-and-only-if, and where `quickch` is not called
  it speaks of the state before the call.
- `quickch` loses the terminal exactly by the shifts of `QuickChange.ShiftUndetermined`: a plain scroll of
  the whole screen is sent from above the bottom line if the block ends there, and otherwise the next
  move starts from a line the cursor is not on (refresh.c:784).
- On a terminal without `nd`, a step to the right during a refresh writes a blank over a cell that
  stands out, and in standout mode over any cell, since cr_put.c:410-413 compares flags of different
  value. Planned motions have the effect of absolute addressing if and only if the terminal has `nd` or
  every step is harmless (`CursorEffect.PlanIsAddressingIff`; `CursorEffect.StepBlanksStandout` is an
  input). `Repaint.Domvcur` and all that moves the cursor behind it leave a terminal that can stand out
  and has no `nd` undetermined.
- During a refresh a step to the right counts as one character whatever is sent for it. The count is
  exact if and only if every step writes a cell again or `nd` is one character
  (`CursorMover.RefreshCostIff`), and otherwise relative motion can be longer than the address it is
  preferred to (`CursorMover.LongerThanTheAddress`).
- `at_rwlock_destroy` and the lock operations test `valid` without the mutex. After a successful
  destroy a thread can come to hold the lock exactly if it had passed the test and not yet taken the
  mutex (`RwLock.DestroyKeepsOutIff`, `RwLock.DestroyRace`). It never gives the lock back, as every
  unlock then reports EINVAL (`RwLock.HoldersNeverLeave`), and so a thread that waits for it waits for
  ever: a waiter can still come to hold the lock if and only if `valid` is set
  (`RwLock.WaiterGetsInIff`; `RwLock.StrandedWaiter` is a run that leaves one waiting).
- Strings and keys with a NUL character, and values nested too deep for the parser's stack, are written
  but not read back; `PlistRoundTrip.RoundTrip` is an if-and-only-if.
- Characters outside the base64 alphabet, such as line breaks, are skipped as section 6.8 of RFC 2045
  asks, unless one stands between the two padding characters: then, and only then, a zero byte is added
  (`Base64.ForeignAddsAByteIff`, `Base64.DataWithForeign`; `Base64.ForeignInPaddingAddsAByte` is an
  input).
- The planner is to home the cursor where that is shorter. Where the destination is to the left and no
  further from the cursor than from the margin, the estimate for homing is overwritten
  (cr_put.c:250), and the cursor is homed exactly if there are fewer lines from the top than from here;
  `CursorMotion.HomesThoughLonger` is an input for which that takes 39 motions instead of 12. Elsewhere
  it is homed exactly if that takes no more motions (`CursorMotion.HomesIffShorter`), unless a tab goes
  too far: then fewer motions are made than estimated (`CursorMotion.RightCost`).
- A terminal without a backspace is sent one in exactly the cases of `CursorMotion.BackspaceAnyway`.
- The offset fields of a status block for machine type, versions and methods are right in the new block
  if and only if they point at the body (`StatusBlock.OffsetIsRightIff`). One that points into the
  header is moved although its bytes are not, and one that points at the icon is not moved far enough
  and comes to denote the new data or an earlier byte of the icon
  (`StatusBlock.OffsetsIntoTheIconGoWrong`).
- The size check of asp_if.c:1252 does not leave room for what is inserted: every write stays inside
  the buffer if and only if `StatusBlock.Fits` holds, and `StatusBlock.AcceptedWithoutRoom` is an
  accepted block for which it does not. `StatusBlock.SPNewStatus` then writes the end of the block
  behind the buffer.
- The adjustments of refresh.c:553-556 never change anything (`QuickChange.FoundIsJustified`,
  `QuickChange.ToShift`); `bot == win->maxy` at refresh.c:823 and 830 never holds; scrolln's branch for
  a terminal with `sf` alone cannot be reached once refresh.c:132 has found that the terminal can
  scroll. The length comparison at refresh.c:331 is unsigned, as `strlen` is.
- A tag whose name is unknown ends the input silently if it begins like a known name, and is an error
  otherwise (`PlistLayout.UnknownNames`).
- Text that does not begin an object parses without an error and gives nothing, unless the lexer
  reports an error there.

## Model

| member | source | states |
|---|---|---|
| RwLock.MutualExclusion | AppleTalk-52-1/at_rwlock.c:126-250 | in every reachable state, for any threads, the counters equal the numbers of threads holding and waiting in each mode, a writer excludes every other holder, and one thread at most owns the mutex |
| RwLock.NoWakeupIsLost | AppleTalk-52-1/at_rwlock.c:174-250 | in every reachable state with the lock free and a thread waiting, some waiter has been woken and has not rechecked yet; a reader sleeps only while a writer is active |
| RwLock.NobodyIsStuck | AppleTalk-52-1/at_rwlock.c:129-208 | from every such state some thread comes to hold the lock without a new call and without a spurious wakeup |
| RwLock.DestroyIffUnused | AppleTalk-52-1/at_rwlock.c:92-124 | destroy succeeds exactly if nobody holds the lock and nobody waits; otherwise EBUSY and the lock stays valid |
| RwLock.DestroyKeepsOutIff | AppleTalk-52-1/at_rwlock.c:92-124 | when destroy has just succeeded, before mutex and conditions are cleared, some thread can still come to hold the lock if and only if one had passed the test of `valid` and waits for the mutex |
| RwLock.DestroyRace | AppleTalk-52-1/at_rwlock.c:95-122 | a run from the initial state in which a thread ends up holding a destroyed lock whose mutex is still whole, with EINVAL from its unlock |
| RwLock.ShutKeeps | AppleTalk-52-1/at_rwlock.c:76-250 | each step keeps that only a destroyed lock is cleared, that nobody is past the test of an unlock of a destroyed lock, and that who waits on one waits behind a holder |
| RwLock.HoldersNeverLeave | AppleTalk-52-1/at_rwlock.c:174-250 | over every run after a destroy, a thread that holds the lock still holds it in the same mode, and each call it can make reports EINVAL and changes nothing else |
| RwLock.WaiterGetsInIff | AppleTalk-52-1/at_rwlock.c:129-250 | in every reachable state a waiting thread can still come to hold the lock, by some further run, if and only if the lock is valid; if it is not, the thread waits over every run |
| RwLock.StrandedWaiter | AppleTalk-52-1/at_rwlock.c:92-208 | a run from the initial state after which a thread waits on a destroyed lock |
| RwLock.StepKeeps | AppleTalk-52-1/at_rwlock.c:76-250 | each step of each operation keeps the counters exact, the mutex exclusive and the wakeups |
| RwLock.RunKeeps | AppleTalk-52-1/at_rwlock.c:76-250 | so does every run |
| RwLock.ReadLockKeeps | AppleTalk-52-1/at_rwlock.c:129-146 | a reader enters, to return 0, if no writer holds the lock, and otherwise goes to sleep, counted as waiting, with nothing returned; all of the above is kept |
| RwLock.ReadRecheckKeeps | AppleTalk-52-1/at_rwlock.c:138-144 | a woken reader enters, to return 0, if no writer holds the lock, and otherwise sleeps again; all is kept |
| RwLock.WriteLockKeeps | AppleTalk-52-1/at_rwlock.c:191-208 | a writer enters, to return 0, if nobody holds the lock, and otherwise goes to sleep; all is kept |
| RwLock.WriteRecheckKeeps | AppleTalk-52-1/at_rwlock.c:200-206 | a woken writer enters, to return 0, if nobody holds the lock, and otherwise sleeps again; all is kept, so someone is left who will wake it |
| RwLock.ReadTryKeeps | AppleTalk-52-1/at_rwlock.c:152-169 | readtrylock enters and returns 0 if no writer holds the lock, and otherwise stays out and returns EBUSY; all is kept |
| RwLock.WriteTryKeeps | AppleTalk-52-1/at_rwlock.c:214-230 | writetrylock enters and returns 0 if nobody holds the lock, and otherwise stays out and returns EBUSY; all is kept |
| RwLock.ReadUnlockKeeps | AppleTalk-52-1/at_rwlock.c:174-186 | the call returns 0; the last reader out wakes a writer if one waits, so that someone is awake whenever the lock is free |
| RwLock.WriteUnlockToReaders | AppleTalk-52-1/at_rwlock.c:243-245 | the call returns 0; a writer that leaves wakes all readers if any waits: none sleeps without an active writer |
| RwLock.WriteUnlockToWriter | AppleTalk-52-1/at_rwlock.c:246-247 | and else a writer, if one waits; the call returns 0 |
| RwLock.ReadUnlockWakes | AppleTalk-52-1/at_rwlock.c:181-183 | a leaving reader wakes one sleeping writer if it was the only reader, and moves no other thread |
| RwLock.WriteUnlockWakes | AppleTalk-52-1/at_rwlock.c:242-247 | a leaving writer wakes every sleeping reader, or one sleeping writer if no reader waits, and moves no other thread |
| RwLock.DestroyKeeps | AppleTalk-52-1/at_rwlock.c:92-124 | destroy keeps all of this whether or not it succeeds |
| Windows.Line.Touch | Libcurses-21/touchwin.c:108-138 | the line is dirty, its range is the smallest one that holds the old one and the new one, the force flag is set if asked for, cells and the other flags stay |
| Windows.Window.TouchWin | Libcurses-21/touchwin.c:93-106 | every line is touched over its full width |
| Windows.Window.constructor | Libcurses-21/newwin.c:72-107 | a blank window with distinct line objects and buffers, nothing marked, cursor at the top left |
| Editing.ShiftUp | Libcurses-21/deleteln.c:76-88 | the line pointers from the cursor line on move up by one place, each touched over its full width |
| Editing.Wdeleteln | Libcurses-21/deleteln.c:66-102 | the lines below move up, the line of the cursor is blanked and comes last, all of them are marked, and the pointers are a known permutation of what they were |
| Editing.ShiftDown | Libcurses-21/insertln.c:77-89 | the line pointers below the cursor line move down by one place |
| Editing.Winsertln | Libcurses-21/insertln.c:66-102 | the mirror image: a blank line at the cursor, the last line is lost, the pointers are a known permutation |
| Editing.Wmove | Libcurses-21/move.c:64-82 | moves the cursor or, outside the window, fails without a change; the flag for past the end is taken off the line the cursor leaves |
| Editing.Scroll | Libcurses-21/scroll.c:64-91 | with scrolling allowed deletes the top line and leaves the cursor where it is; otherwise nothing but failure |
| EditingCells.DeletedCells | Libcurses-21/deleteln.c:66-102 | after wdeleteln each line from the cursor on holds the cells of the line below, the last one is blank, all of them are marked over their full width, and those above are as before |
| EditingCells.InsertedCells | Libcurses-21/insertln.c:66-102 | after winsertln the line of the cursor is blank, each line below holds the cells of the line above, and those above the cursor are as before |
| EditingCells.MovedToMeans | Libcurses-21/move.c:64-82 | wmove sets the cursor and takes the flag for past the end off the line it leaves and the line it enters, and changes nothing else; outside the window it changes nothing |
| EditingCells.ScrolledCells | Libcurses-21/scroll.c:64-91 | scroll moves the cells of every line up by one, brings a blank line in at the bottom, and keeps the cursor |
| EditingCells.TouchedIsSmallest | Libcurses-21/touchwin.c:108-138 | the marks after a touch hold the old marks and the columns touched, and no smaller range does |
| EditingCells.MarkedIsSmallest | Libcurses-21/addbytes.c:127-138 | the same for a character written |
| Clearing.Wclrtoeol | Libcurses-21/clrtoeol.c:64-98 | blanks from the cursor to the end of the line, or all of the next line when the line was left past its end, and marks those columns; `EditingCells.ClearedToEolCells` has the cells |
| EditingCells.ClearedToEolCells | Libcurses-21/clrtoeol.c:71-91 | cell by cell: columns in front of the cursor are unchanged, those from the cursor on are blank and no other line changes; past the end of the line the next line is all blank and the line of the cursor unchanged, and nothing changes at the bottom |
| EditingCells.ClearedToEolMarks | Libcurses-21/clrtoeol.c:97 | marked are the columns cleared and those that were marked, and no others |
| Clearing.Wclrtobot | Libcurses-21/clrtobot.c:64-95 | the same down to the last line, each line with its own smallest range |
| EditingCells.ClearedToBotCells | Libcurses-21/clrtobot.c:64-95 | cell by cell: from the cursor on, or from the next line if the line is left past its end, all is blank, and everything in front is unchanged |
| EditingCells.WipedLineMeans | Libcurses-21/clrtobot.c:79-91 | a line is marked from the first to the last column whose cell changes, and is untouched if none does |
| Clearing.Werase | Libcurses-21/erase.c:64-92 | the same for the whole window |
| EditingCells.ErasedCells | Libcurses-21/erase.c:64-92 | every cell is blank, and every line marked as for clrtobot |
| Clearing.PushRight | Libcurses-21/insch.c:74-80 | the cells from the cursor on move right by one, in place |
| Clearing.Winsch | Libcurses-21/insch.c:66-86 | a character is inserted, the last one falls off, the rest of the line is marked; says whether the corner check holds |
| EditingCells.InsertedChCells | Libcurses-21/insch.c:74-83 | cell by cell: the character at the cursor, the cells from there moved right by one, those in front and the other lines unchanged |
| Clearing.Wdelch | Libcurses-21/delch.c:66-83 | the cells behind the cursor move left by one, a blank comes in at the end, the rest of the line is marked |
| EditingCells.DeletedChCells | Libcurses-21/delch.c:66-83 | cell by cell: those behind the cursor moved left by one, a blank at the end, those in front and the other lines unchanged |
| Typing.Waddbytes | Libcurses-21/addbytes.c:67-177 | lines, cursor and return value after any bytes: tabs, newlines, carriage return, backspace, wrapping, scrolling and the first error, which ends it |
| Typing.TextIsTyped | Libcurses-21/addbytes.c:119-153 | text that fits the rest of the line is written there and nowhere else, in standout if asked; the cursor ends behind it, or on the last column with the line marked as left past its end |
| TypingCells.TextFlows | Libcurses-21/addbytes.c:94-155 | text of any length that fits the rest of the window stands at consecutive places, flowing from line to line; every other cell is as before, and the cursor is behind it |
| TypingCells.LineIsTyped | Libcurses-21/addbytes.c:120-165 | text that does not fill its line and a newline: the line keeps what was in front and holds the text and then blanks, the other lines are as before, and the cursor goes to the start of the next line |
| TypingCells.NewlineMeans | Libcurses-21/addbytes.c:102-165 | a newline clears to the end of the line and goes on to the next line; on the bottom line it scrolls, or is an error if that is not allowed |
| TypingCells.CharBehindFullLine | Libcurses-21/addbytes.c:99-154 | a character behind a full line goes to the start of the next line, or of the bottom line after scrolling, or is an error; the full line loses its flag |
| TypingCells.ControlsMove | Libcurses-21/addbytes.c:166-172 | carriage return and backspace move the cursor in its line and change nothing else |
| TypingCells.TabIsTyped | Libcurses-21/addbytes.c:87-93 | a tab writes plain blanks up to the next column divisible by eight |
| Typing.BlanksAreTyped | Libcurses-21/addbytes.c:87-92 | what the nested call for a tab does is what typing that many blanks does |
| Typing.StopsAt | Libcurses-21/addbytes.c:100-110 | after the first error the rest of the bytes changes nothing |
| Cycle.FullItinerary | Libcurses-21/refresh.c:626-680 | for every rotation of a region, coprime or not, the walk along the cycles writes every place exactly once, starting the next cycle one place after the last start |
| Cycle.ReturnsAfterD | Libcurses-21/refresh.c:669-678 | the walk is back at the start of its cycle exactly after size / gcd steps |
| Cycle.NextCycle | Libcurses-21/refresh.c:669-678 | the place after the last start has not been written while any cycle is left |
| Cycle.AllDone | Libcurses-21/refresh.c:630-631 | after gcd cycles every place has been written |
| Cycle.SourceOfTarget | Libcurses-21/refresh.c:632-634 | where a line goes and where a line comes from are inverse maps |
| Terminal.DeleteThenInsert | Libcurses-21/refresh.c:766-844 | deleting lines at one end of a block and inserting as many at the other end moves the block and leaves the rest of the screen alone, in both directions |
| Terminal.ScrollForwardOnce | Libcurses-21/refresh.c:756-758 | one more single scroll after n is n + 1 of them |
| Terminal.ScrollReverseOnce | Libcurses-21/refresh.c:811-813 | the same in the other direction |
| Terminal.DeleteLinesOnce | Libcurses-21/refresh.c:772-775 | the same for deleting lines |
| Terminal.InsertLinesOnce | Libcurses-21/refresh.c:787-790 | the same for inserting lines |
| Screens.Screen.FindTop | Libcurses-21/refresh.c:477-485 | marks clean exactly the lines above the first one that differs from curscr or is forced |
| Screens.Screen.FindBot | Libcurses-21/refresh.c:489-497 | the same from below |
| Screens.Screen.CompareBlocks | Libcurses-21/refresh.c:525-535 | true exactly if every line of one block matches the line of the other |
| Screens.Screen.FindBlock | Libcurses-21/refresh.c:521-542 | the block found matches line for line, no larger one does, and none of its size that the search comes to earlier; if none is found, none as large as a quarter of the window matches |
| Screens.Screen.UpInRegion | Libcurses-21/refresh.c:749-762 | with a scrolling region the block moves up and blank lines come in |
| Screens.Screen.DownInRegion | Libcurses-21/refresh.c:804-817 | the mirror image |
| Screens.Screen.TakeOutAtTop | Libcurses-21/refresh.c:766-781 | lines are taken out at the top of the block; undetermined exactly in the plain scroll above the bottom line |
| Screens.Screen.PutIn | Libcurses-21/refresh.c:784-791 | blank lines are put in and push the lines below down; undetermined exactly if the cursor is not where the move is said to start |
| Screens.Screen.TakeOutAtBottom | Libcurses-21/refresh.c:822-834 | lines are taken out at the bottom of the block |
| Screens.Screen.ScrollUp | Libcurses-21/refresh.c:745-792 | for every set of capabilities the block, and only the block, moves up and the cursor comes back; undetermined exactly if the whole screen is scrolled plainly, but for a screen of one column, or the way back may write over cells |
| Screens.Screen.ScrollDown | Libcurses-21/refresh.c:801-845 | for every set of capabilities the block, and only the block, moves down and the cursor comes back; undetermined exactly if the way back may write over cells |
| QuickChange.RotateOne | Libcurses-21/refresh.c:632-668 | one turn settles one more line in its place, blanked if it wrapped around, marks the window's line, and takes the displaced line along |
| QuickChange.Turn | Libcurses-21/refresh.c:632-680 | one turn with the step to the next line of the cycle, or to the next cycle |
| QuickChange.Rotate | Libcurses-21/refresh.c:626-680 | the cycle-following loop leaves curscr as the rotation modulo the size of the region with the wrapped lines blanked, whatever the gcd, and the window's marks as they must be |
| QuickChange.MapsAreInverse | Libcurses-21/refresh.c:632-634 | each line of the screen goes to exactly one place |
| QuickChange.RotationScrolls | Libcurses-21/refresh.c:626-705 | the rotation with its blanking is on rows what scrolling the region is on the screen, in both directions |
| QuickChange.RotationMarks | Libcurses-21/refresh.c:640-668 | a line left clean equals curscr cell for cell; every other line is marked over its full width |
| QuickChange.FoundIsJustified | Libcurses-21/refresh.c:543-558 | a block that was found asks for a shift smaller than the region, and lies with its source inside the region |
| QuickChange.ToShift | Libcurses-21/refresh.c:553-558 | the adjustments of top and bot change neither |
| QuickChange.FindShift | Libcurses-21/refresh.c:474-558 | of the lines before: a shift has the first and the last line that differ as its ends, and the first of the largest blocks that match between them; if none is found, no block of a quarter of the window or more that is searched for matches; exactly the lines outside the ends are marked clean |
| QuickChange.ShiftIsUnique | Libcurses-21/refresh.c:521-558 | the lines of the window and of curscr determine the shift |
| QuickChange.ShiftOrNothing | Libcurses-21/refresh.c:521-545 | lines that ask for a shift are not lines with nothing to shift |
| QuickChange.ScrollTerminal | Libcurses-21/refresh.c:695-697 | the terminal's rows are scrolled as curscr was rotated |
| QuickChange.ApplyShift | Libcurses-21/refresh.c:587-705 | a terminal that showed curscr before shows curscr after, for every justified shift |
| QuickChange.Quickch | Libcurses-21/refresh.c:462-706 | quickch shifts what the lines ask for, and nothing only if there is nothing to shift; it is transparent: a terminal that showed curscr still does, the rows of curscr move as the shift says, the window's text is untouched, a line is clean afterwards only if it equals curscr, and the cursor is where it was; the terminal is undetermined exactly if scrolln leaves it so |
| Repaint.Domvcur | Libcurses-21/refresh.c:444-455 | the cursor, which is where refresh.c takes it to be, arrives; standout mode does not travel unless it may, and a move below the bottom line scrolls the screen; the terminal becomes undetermined only by such a move or where steps may write over cells |
| Repaint.FollowPastEol | Libcurses-21/refresh.c:248-252 | the screen scrolls unseen exactly if the line above was left past its end and the tracked cursor is on the bottom line |
| Repaint.FindNlsp | Libcurses-21/refresh.c:274-278 | the last column of the window's line that is not blank, or the first column |
| Repaint.SkipEqual | Libcurses-21/refresh.c:295-305 | stops at the first column that differs |
| Repaint.TryClear | Libcurses-21/refresh.c:323-347 | clears to the end of the line exactly if the test passes for the last column of curscr's line that is not blank; curscr and the terminal then have the window's blanks there |
| Repaint.ClearingPaysIff | Libcurses-21/refresh.c:323-334 | when that is: on the bottom line, if curscr's last ink is as far behind the window's as the clear is long, and, the comparison being unsigned, also if there is no ink left to clear and the window's ends just before |
| Repaint.ClearTail | Libcurses-21/refresh.c:335-345 | curscr is blanked over the tail that the terminal clears |
| Repaint.SendCell | Libcurses-21/refresh.c:369-404 | a cell is sent in its standout mode and stored in curscr; in the bottom right corner neither happens |
| Repaint.PaintSpan | Libcurses-21/refresh.c:316-416 | the painted prefix grows column by column until a cell is equal, the line is cleared or the corner is reached |
| Repaint.AfterSpan | Libcurses-21/refresh.c:417-425 | after a span the cursor is where it is taken to be, or a wrap is pending on the last column; on a terminal that does not wrap the screen scrolls exactly if the span ended with the corner |
| Repaint.PaintLine | Libcurses-21/refresh.c:294-430 | afterwards the whole marked range is painted, by sending or by clearing; the screen has been scrolled exactly if the corner was reached on a terminal that does not wrap, in a window that may not scroll, without clearing |
| Repaint.RepaintMarked | Libcurses-21/refresh.c:253-437 | the curscr line has the window's cells in the marked range and its own outside, except what clearing made equal, and terminal and curscr agree |
| Repaint.Makech | Libcurses-21/refresh.c:235-437 | the same for the whole function, with the exact conditions under which the terminal runs off the bottom line or is scrolled at the corner, the exact line the cursor is then taken to be on, and the cursor there; the other lines of the terminal are as they were, or scrolled |
| Refresh.StartOver | Libcurses-21/refresh.c:98-112 | after a clear both the terminal and curscr are blank, the cursor is at home and every line is marked over its full width |
| Refresh.QuickchSound | Libcurses-21/refresh.c:125-135 | sound dirty marks are still sound after quickch |
| Refresh.MaybeQuickch | Libcurses-21/refresh.c:120-135 | whether or not quickch is called, the marks stay sound and the text stays; nothing is shifted if it is not called or there is nothing to shift, and otherwise what the lines ask for; the terminal becomes undetermined exactly by an undetermined shift |
| Refresh.QuickchRunsIff | Libcurses-21/refresh.c:125-135 | it is called exactly on a terminal that can scroll a region both ways or insert and delete lines, with more than a quarter of the lines dirty or forced |
| Refresh.Rehash | Libcurses-21/refresh.c:89-96 | every dirty line gets the hash of its cells, and the other lines stay as they are |
| Refresh.RefreshLine | Libcurses-21/refresh.c:167-198 | one turn of the loop shows one line, copies its hash, leaves it clean, unforced and with its marks pushed past each other, leaves the others, and loses the terminal exactly if it follows a cursor off the screen or scrolls it at the corner |
| Refresh.RefreshLines | Libcurses-21/refresh.c:167-198 | after the loop curscr shows the whole window and no line is dirty; the terminal is lost if and only if, by the lines, marks and cursor's line before the loop, some turn follows a cursor past the end of a line from the bottom line or the last one scrolls at the corner, and it then shows the lines that have moved |
| Refresh.OverrunTakesPastEols | Libcurses-21/refresh.c:248-252 | it takes enough lines marked as left past their end to bring the cursor from its line to the bottom and beyond |
| Refresh.KeepCursor | Libcurses-21/refresh.c:204-216 | with leaveok the window takes over the cursor where the repainting left it |
| Refresh.ReturnCursor | Libcurses-21/refresh.c:217-223 | otherwise the cursor goes where the window has it, and no row changes |
| Refresh.PlaceCursor | Libcurses-21/refresh.c:204-224 | the cursor ends where the window has it, or with leaveok the window's cursor moves to where it ended |
| Refresh.Wrefresh | Libcurses-21/refresh.c:75-229 | with sound marks every cell of curscr, and of the terminal unless it has run wild, equals the window's but for the corner, whichever optimisation ran, and the cursor is where curscr has it; the terminal is lost if and only if quickch could not follow its shift, or the main loop follows a cursor off the bottom line or scrolls at the corner; without quickch that is a predicate of the state before the call; quickch has shifted what the lines asked for, or nothing exactly if it was not called or there was nothing to shift |
| EditingSound.DeletedGood | Libcurses-21/deleteln.c:66-102 | after wdeleteln every cell that differs from the screen lies on a dirty line inside its range, but for the corner |
| EditingSound.InsertedGood | Libcurses-21/insertln.c:66-102 | the same after winsertln |
| EditingSound.MovedGood | Libcurses-21/move.c:64-82 | the same after wmove |
| EditingSound.ScrolledGood | Libcurses-21/scroll.c:64-91 | the same after scroll |
| EditingSound.ClearedToEolGood | Libcurses-21/clrtoeol.c:64-98 | the same after wclrtoeol |
| EditingSound.ClearedToBotGood | Libcurses-21/clrtobot.c:64-95 | the same after wclrtobot |
| EditingSound.ErasedGood | Libcurses-21/erase.c:64-92 | the same after werase |
| EditingSound.InsertedChGood | Libcurses-21/insch.c:66-86 | the same after winsch |
| EditingSound.DeletedChGood | Libcurses-21/delch.c:66-83 | the same after wdelch |
| EditingSound.AddedGood | Libcurses-21/addbytes.c:67-177 | the same after any bytes, also when they end in an error |
| EditingSound.TouchedGood | Libcurses-21/touchwin.c:93-106 | the same after touchwin |
| Session.EditedGood | Libcurses-21/touchwin.c:108-138 | the same for every editing call, with cursor bounds and distinct lines |
| Session.Edit | Libcurses-21/addbytes.c:67-177 | the calls do to the window what the functions say |
| Session.Run | Libcurses-21/refresh.c:75-229 | over every run of editing calls and refreshes the marks stay sound, and a final refresh leaves the window on curscr and on a terminal that has not run wild |
| Session.Start | Libcurses-21/newwin.c:72-107 | a new screen and window satisfy what a run needs |
| Session.UnseenIffBlank | Libcurses-21/refresh.c:248-252 | an unasked scroll of the screen goes unseen if and only if every row is blank |
| Session.FullLineStaysMarked | Libcurses-21/addbytes.c:150-165 | for every text that fills a line and a newline, the text is there, the line below is wiped, the cursor is on it, and the full line stays marked as left past its end |
| Session.OverrunLosesTheScreen | Libcurses-21/refresh.c:248-252 | a run of window calls and two wrefreshes after which the terminal differs from curscr |
| Session.CornerLosesTheScreen | Libcurses-21/refresh.c:417-425 | a run of window calls and a wrefresh, on a terminal that does not wrap, after which the terminal differs from curscr |
| PlistRoundTrip.RoundTrip | IOKitUser-1/IOCFUnserialize.tab.c:1864-1901 | a value can be written iff its strings are ASCII; what was written reads back as an equal value iff no string has a NUL and the nesting fits the stack, and is rejected otherwise, so no reference ever comes too early |
| PlistRoundTrip.ModestValuesSurvive | IOKitUser-1/IOCFSerialize.c:444-476 | 3332 levels of nesting always fit, whatever the number of elements |
| PlistDescent.TablesAreTheGrammar | IOKitUser-1/IOCFUnserialize.tab.c:183-242 | for every token list the table-driven parser gives what recursive descent gives: the same value, or a rejection in the same cases |
| PlistDescent.ObjectIsTree | IOKitUser-1/IOCFUnserialize.tab.c:785-938 | what recursive descent accepts is a tree of the grammar and its tokens are those read |
| PlistDescent.TreeIsRead | IOKitUser-1/IOCFUnserialize.tab.c:785-938 | every tree of the grammar is read as itself, so the grammar is unambiguous |
| PlistDescent.BrokenTreeIsNoTree | IOKitUser-1/IOCFUnserialize.tab.c:969-1110 | tokens that break off with an error inside a tree begin no other tree |
| PlistDescent.NoObjectNoParse | IOKitUser-1/IOCFUnserialize.tab.c:652-754 | where no object begins, the tables reject from every state in which one is wanted |
| PlistParsing.TreeIsParsed | IOKitUser-1/IOCFUnserialize.tab.c:558-967 | in every state that wants an object, the tables accept the tokens of any tree, leave its meaning on the stack and its ids remembered, and use exactly its peak of stack |
| PlistParsing.InputIsParsed | IOKitUser-1/IOCFUnserialize.tab.c:489-1135 | a tree at the start of the input is the result, unless the stack overflows or a reference is unknown; what follows is not read |
| PlistParsing.ReversalRestoresOrder | IOKitUser-1/IOCFUnserialize.tab.c:1720-1756 | reversing the list the actions built newest-first gives source order |
| PlistTrees.BuiltDictMeans | IOKitUser-1/IOCFUnserialize.tab.c:1702-1714 | of the pairs of a dictionary with the same key the last one counts |
| PlistTrees.BuiltDictKeys | IOKitUser-1/IOCFUnserialize.tab.c:1702-1714 | and it has the keys of its pairs and no others |
| PlistTrees.BuiltSetMeans | IOKitUser-1/IOCFUnserialize.tab.c:1780-1790 | a set has what its elements mean and nothing else |
| PlistTrees.LaterIdWins | IOKitUser-1/IOCFUnserialize.tab.c:1650-1656 | an id given twice: a reference behind both is to the second object |
| PlistTrees.PeakIsNesting | IOKitUser-1/IOCFUnserialize.tab.c:558-645 | the stack needs at most three states for each level of nesting and one more, whatever the number of elements |
| PlistGrammar.EveryState | IOKitUser-1/IOCFUnserialize.tab.c:652-757 | in every sound state the tables say what to do: look, reduce or end |
| PlistGrammar.StepKeeps | IOKitUser-1/IOCFUnserialize.tab.c:558-967 | every step keeps the stack sound, the semantic values fitting their states, and makes progress |
| PlistGrammar.NoRecovery | IOKitUser-1/IOCFUnserialize.tab.c:1075-1083 | no state shifts the error token, so every error ends the parse |
| PlistGrammar.ReducesIff | IOKitUser-1/IOCFUnserialize.tab.c:757-767 | which states reduce, and by rules of which length |
| PlistGrammar.GotoLands | IOKitUser-1/IOCFUnserialize.tab.c:954-967 | the goto table leads where the automaton of the grammar does |
| PlistGrammar.ActionSuits | IOKitUser-1/IOCFUnserialize.tab.c:785-914 | the semantic value of each rule is of the kind the next state expects |
| PlistGrammar.RankFalls | IOKitUser-1/IOCFUnserialize.tab.c:954-967 | reductions of length one come to an end |
| PlistSharing.TreeMeansValue | IOKitUser-1/IOCFSerialize.c:80-100 | the tree written for a value means that value whatever was written before, and each reference names an object that is complete and remembered |
| PlistSharing.NumberSurvives | IOKitUser-1/IOCFSerialize.c:136-183 | the bits printed for a number of 8, 16, 32 or 64 bits give its signed value back |
| PlistSpelling.GoodIffSpelt | IOKitUser-1/IOCFSerialize.c:191-261 | which values are written and which tokens survive depends only on the characters of the strings; sharing hides none of them |
| PlistLexing.TextIsTokens | IOKitUser-1/IOCFUnserialize.tab.c:1434-1577 | lexing the text of a value gives the tokens of its tree, whatever follows, up to the first string with a NUL |
| PlistLayout.GapIsSkipped | IOKitUser-1/IOCFUnserialize.tab.c:1446-1466 | the lexer runs over any number of blanks, tabs, newlines, comments and plist tags in front of a token, or of the end |
| PlistLayout.LayoutDoesNotMatter | IOKitUser-1/IOCFUnserialize.tab.c:1434-1577 | two texts made of the same tokens, in any spelling and with anything that may stand between them, parse alike |
| PlistLayout.TreeInAnyLayout | IOKitUser-1/IOCFUnserialize.tab.c:1434-1577 | every tree, laid out in any way, lexes to its tokens and is parsed into what it means, unless the stack is too small or a reference comes too early |
| PlistLayout.TreeWithAnyGaps | IOKitUser-1/IOCFUnserialize.tab.c:1434-1577 | the same for the texts of the tokens of any tree with any gaps between them and behind them |
| PlistLayout.EveryTokenIsSpelt | IOKitUser-1/IOCFUnserialize.tab.c:1464-1577 | every token that a tree is made of has a text that is read as it, whatever follows |
| PlistLayout.SpacedTagIsRead | IOKitUser-1/IOCFUnserialize.tab.c:1171-1258 | blanks around the parts of attributes do not matter |
| PlistLayout.LongNameIsBad | IOKitUser-1/IOCFUnserialize.tab.c:1202-1207 | a tag name of 31 characters or more is refused |
| PlistLayout.LongValueIsBad | IOKitUser-1/IOCFUnserialize.tab.c:1234-1241 | so is a value of an attribute |
| PlistLayout.ManyAttributesAreBad | IOKitUser-1/IOCFUnserialize.tab.c:1246-1248 | and a tag with 32 attributes or more |
| PlistLayout.BracketSpells | IOKitUser-1/IOCFUnserialize.tab.c:1486-1504 | the tags of a container are its brackets, with the id of the last ID attribute |
| PlistLayout.TextSpells | IOKitUser-1/IOCFUnserialize.tab.c:1529-1572 | a string or a key reads as its text with the entities replaced |
| PlistLayout.DataSpells | IOKitUser-1/IOCFUnserialize.tab.c:1505-1513 | data with foreign characters, but none within the padding, reads as the bytes coded |
| PlistLayout.DecimalSpells | IOKitUser-1/IOCFUnserialize.tab.c:1334-1367 | a decimal integer, with leading zeros or without, reads as the number its digits denote modulo 2^64, signed |
| PlistLayout.HexSpells | IOKitUser-1/IOCFUnserialize.tab.c:1334-1367 | so does a hexadecimal one of small letters, which may have no digits |
| PlistLayout.EmptyIntegerSpells | IOKitUser-1/IOCFUnserialize.tab.c:1341 | an integer without digits is 0 |
| PlistLayout.IntegerWithOtherTextIsAnError | IOKitUser-1/IOCFUnserialize.tab.c:1515-1528 | an integer with a sign, or with anything but digits behind its digits that does not make it hexadecimal, is an error |
| PlistLayout.EndTagOpensToo | IOKitUser-1/IOCFUnserialize.tab.c:1495-1572 | an end tag opens text, data or an integer just as its start tag does |
| PlistLayout.CommaIsRead | IOKitUser-1/IOCFUnserialize.tab.c:1459-1462 | a comma is a token |
| PlistLayout.RefSpells | IOKitUser-1/IOCFUnserialize.tab.c:1469-1484 | an empty tag reads as the reference that its first IDREF attribute names |
| PlistLayout.FirstOfMeans | IOKitUser-1/IOCFUnserialize.tab.c:1476-1482 | the first of several IDREF attributes counts |
| PlistLayout.LastOfMeans | IOKitUser-1/IOCFUnserialize.tab.c:1486-1493 | and the last of several ID or size attributes |
| PlistLayout.UnknownNames | IOKitUser-1/IOCFUnserialize.tab.c:1495-1576 | a start or end tag of an unknown name ends the input if the name begins with one of the letters a, d, i, k, p and s, and is an error otherwise |
| PlistLexer.TagIsRead | IOKitUser-1/IOCFUnserialize.tab.c:1171-1258 | a tag with any attributes that fit is read back with its kind, name and attributes |
| PlistLexer.AttrsAreRead | IOKitUser-1/IOCFUnserialize.tab.c:1213-1248 | attributes are read back in order |
| PlistTokens.LexString | IOKitUser-1/IOCFUnserialize.tab.c:1549-1560 | a written string is read as its token, or as an error exactly if it has a NUL |
| PlistTokens.LexKey | IOKitUser-1/IOCFUnserialize.tab.c:1530-1541 | the same for keys |
| PlistTokens.LexData | IOKitUser-1/IOCFUnserialize.tab.c:1505-1513 | written data is read as its token with the same bytes |
| PlistTokens.LexNumber | IOKitUser-1/IOCFUnserialize.tab.c:1515-1528 | a written number is read with its size and the same bits |
| PlistTokens.LexRef | IOKitUser-1/IOCFUnserialize.tab.c:1470-1484 | a written reference is read as one, with its id |
| PlistTokens.LexTruth | IOKitUser-1/IOCFUnserialize.tab.c:1470-1475 | written truth values are read as such |
| PlistTokens.LexOpening | IOKitUser-1/IOCFUnserialize.tab.c:1486-1567 | the opening tags of containers are read with their id |
| PlistTokens.LexClosing | IOKitUser-1/IOCFUnserialize.tab.c:1486-1567 | and their closing tags |
| Base64.EncodeIsCoded | IOKitUser-1/IOCFSerialize.c:282-315 | the encoder that works on triples with a carry gives the coding of RFC 2045, section 6.8 |
| Base64.ShortCodings | IOKitUser-1/IOCFSerialize.c:282-316 | the coding of one, two and three bytes, digit by digit |
| Base64.AlphabetIs | IOKitUser-1/IOCFSerialize.c:264 | the digits are the alphabet of RFC 2045 |
| Base64.DecodeCoded | IOKitUser-1/IOCFUnserialize.tab.c:1392-1432 | the decoder undoes the coding for every byte string |
| Base64.DataSurvives | IOKitUser-1/IOCFUnserialize.tab.c:1392-1432 | getData returns the bytes that were encoded and stops at the next tag |
| Base64.ForeignIsHarmless | IOKitUser-1/IOCFUnserialize.tab.c:1402-1413 | characters outside the alphabet anywhere before the padding change nothing |
| Base64.ForeignAddsAByteIff | IOKitUser-1/IOCFUnserialize.tab.c:1402-1426 | for every byte string and characters outside the alphabet wherever they stand in its coding, the decoder gives the bytes if and only if none of them stands between two padding characters; otherwise it gives one zero byte more |
| Base64.DataWithForeign | IOKitUser-1/IOCFUnserialize.tab.c:1392-1432 | the same for getData, which stops at the next tag |
| Base64.HighBitIsDropped | IOKitUser-1/IOCFUnserialize.tab.c:1402-1413 | characters are read modulo 128, except when the next tag is looked for |
| Base64.NulEndsData | IOKitUser-1/IOCFUnserialize.tab.c:1402-1407 | a character that is 0 modulo 128 in front of the next tag leaves no bytes |
| Base64.ForeignInPaddingAddsAByte | IOKitUser-1/IOCFUnserialize.tab.c:1408-1426 | an input for which a line break in the padding adds a byte |
| PlistText.HexIsRead | IOKitUser-1/IOCFUnserialize.tab.c:1334-1367 | every 64-bit number printed in hexadecimal is read back |
| PlistText.DecimalIsRead | IOKitUser-1/IOCFUnserialize.tab.c:1476-1493 | every id below 2^31 printed in decimal is read back |
| PlistText.EscapesAreUndone | IOKitUser-1/IOCFUnserialize.tab.c:1260-1332 | unescaping undoes escaping for every string |
| PlistText.StringIsRead | IOKitUser-1/IOCFUnserialize.tab.c:1260-1332 | an escaped string is read back if and only if it has no NUL |
| PlistSerializer.Serializer.PreviouslySerialized | IOKitUser-1/IOCFSerialize.c:80-100 | an object equal to an earlier one becomes a reference to its id; any other one is given the next id |
| PlistSerializer.Serializer.AddPlainStartTag | IOKitUser-1/IOCFSerialize.c:102-122 | the tag of an object with no attribute but its id is the one the lexer's lemmas read back, with the id the object was just given |
| PlistWriting.ReferenceText | IOKitUser-1/IOCFSerialize.c:80-92 | the text of a reference, letter by letter: an empty tag with the element name of the object and the id of the earlier one |
| PlistWriting.ElementText | IOKitUser-1/IOCFSerialize.c:102-133 | the text of an object that is new: its element name, the next id, its contents, its end tag |
| PlistWriting.NumberElement | IOKitUser-1/IOCFSerialize.c:136-182 | the text of a number: id, size, and the low 32 or all 64 bits in hexadecimal |
| PlistSerializer.Serializer.SerializeNumber | IOKitUser-1/IOCFSerialize.c:136-183 | writes the text of a number and keeps its id |
| PlistSerializer.Serializer.SerializeString | IOKitUser-1/IOCFSerialize.c:191-226 | writes the text of a string, or fails exactly if it cannot be written |
| PlistSerializer.Serializer.SerializeKey | IOKitUser-1/IOCFSerialize.c:228-261 | the same for keys, which have no id |
| PlistSerializer.Serializer.AddEncoded | IOKitUser-1/IOCFSerialize.c:282-315 | the loop over the bytes, with its carry, writes what the base64 encoder of the model gives |
| PlistSerializer.Serializer.SerializeData | IOKitUser-1/IOCFSerialize.c:263-318 | writes data in base64 between its tags |
| PlistSerializer.Serializer.SerializeList | IOKitUser-1/IOCFSerialize.c:320-371 | writes the elements of an array or set in order, sharing ids among them |
| PlistSerializer.Serializer.SerializeDictionary | IOKitUser-1/IOCFSerialize.c:373-409 | writes keys and values pairwise |
| PlistSerializer.Serializer.Serialize | IOKitUser-1/IOCFSerialize.c:411-442 | for every value text and ids after the call are those of the written form, or it fails exactly where there is none |
| PlistSerializer.IOCFSerialize | IOKitUser-1/IOCFSerialize.c:444-476 | the written text and a NUL, or nothing |
| PlistReader.Reader.GetTag | IOKitUser-1/IOCFUnserialize.tab.c:1171-1258 | the lexer's loop with its fixed buffers finds the tag that the text has, and stops behind it |
| PlistReader.Reader.GetString | IOKitUser-1/IOCFUnserialize.tab.c:1260-1332 | copying and unescaping in place gives the unescaped text up to the next tag |
| PlistReader.Reader.GetNumber | IOKitUser-1/IOCFUnserialize.tab.c:1334-1367 | the loops give the number modulo 2^64, hexadecimal or decimal |
| PlistReader.Reader.GetData | IOKitUser-1/IOCFUnserialize.tab.c:1392-1432 | decoding into the growing buffer gives the decoder's bytes, and every write is inside the buffer |
| PlistReader.Reader.Yylex | IOKitUser-1/IOCFUnserialize.tab.c:1434-1577 | each call returns the next token of the text and moves behind it; what lies between tokens is passed over, as `PlistLayout.GapIsSkipped` says of any of it |
| PlistPool.RevIsOldestFirst | IOKitUser-1/IOCFUnserialize.tab.c:1720-1756 | reversing what the actions linked gives source order |
| PlistPool.Pool.NewObject | IOKitUser-1/IOCFUnserialize.tab.c:1590-1606 | a blank object from the free list or a new one, nobody else's, and no other object changes |
| PlistPool.Pool.FreeObject | IOKitUser-1/IOCFUnserialize.tab.c:1608-1613 | a blank object goes back to the free list |
| PlistPool.Pool.ReverseElements | IOKitUser-1/IOCFUnserialize.tab.c:1727-1737 | the pointer-reversing loop leaves the same objects linked in reverse order and touches no others |
| PlistPool.Pool.LinkFront | IOKitUser-1/IOCFUnserialize.tab.c:858-863 | an element is put in front of the list in place |
| PlistPool.Pool.BuildCFArray | IOKitUser-1/IOCFUnserialize.tab.c:1720-1756 | the array of the elements in source order; every element object is blank and free afterwards |
| PlistPool.Pool.BuildCFSet | IOKitUser-1/IOCFUnserialize.tab.c:1758-1794 | the set of the elements; the same for their objects |
| PlistPool.Pool.BuildCFDictionary | IOKitUser-1/IOCFUnserialize.tab.c:1678-1718 | the dictionary of the pairs in source order, a later value replacing an earlier one of its key; the same for their objects |
| PlistParser.DecisionsMade | IOKitUser-1/IOCFUnserialize.tab.c:654-761 | with a token in sight only the first rule is ever reduced, and the tables never accept there |
| PlistParser.Parser.RetrieveObject | IOKitUser-1/IOCFUnserialize.tab.c:1658-1672 | found exactly if the id is remembered, and then the remembered value |
| PlistParser.Parser.BuildCFNumber | IOKitUser-1/IOCFUnserialize.tab.c:1826-1850 | a number of the size read, with ids remembered |
| PlistParser.Parser.Act | IOKitUser-1/IOCFUnserialize.tab.c:785-938 | the action of each rule on the pool does what it does on values |
| PlistParser.Parser.Shift | IOKitUser-1/IOCFUnserialize.tab.c:558-740 | a shift puts token and state on the stacks, which grow when full |
| PlistParser.Parser.Reduce | IOKitUser-1/IOCFUnserialize.tab.c:757-967 | a reduction replaces the rule's symbols by its result, or fails exactly on an unknown reference |
| PlistParser.Parser.Yyparse | IOKitUser-1/IOCFUnserialize.tab.c:489-1135 | the loop over tables, stacks, lexer and pool terminates with the outcome of the abstract parser, and after a success with an object every pooled object is blank, so that cleanup releases nothing |
| PlistParser.IOCFUnserialize | IOKitUser-1/IOCFUnserialize.tab.c:1864-1901 | the value the text parses to, or nothing; by `PlistLayout.LayoutDoesNotMatter` the layout of the text makes no difference |
| CursorMotion.PlanLeads | Libcurses-21/cr_put.c:215-433 | for all capabilities with NC off and from anywhere to anywhere, the planned motions end exactly at the destination and need no capability that is missing, unless the planner gives up |
| CursorMotion.LocalLeads | Libcurses-21/cr_put.c:285-426 | the same for the part after the choice of the starting corner |
| CursorMotion.GivesUpIff | Libcurses-21/cr_put.c:281-284 | it gives up if and only if the destination is higher up and there is neither a way to home nor a way up |
| CursorMotion.HomesIffShorter | Libcurses-21/cr_put.c:228-280 | but for short ways back, and where no tab can go too far, the cursor is homed exactly if that takes no more motions than going from here, and sent to the lower left corner exactly if that saves two |
| CursorMotion.RightCost | Libcurses-21/cr_put.c:234-246 | the estimate for going to the right, with and without hardware tabs, is the number of motions made, unless the last tab goes too far; then fewer are made, and how many |
| CursorMotion.HomesIffFewerLines | Libcurses-21/cr_put.c:246-262 | on a short way back it is homed exactly if there are fewer lines from the top than from here, whatever the columns cost |
| CursorMotion.HomesThoughLonger | Libcurses-21/cr_put.c:246-268 | an input for which homing takes 39 motions and going from here 12 |
| CursorMotion.BackspaceAnyway | Libcurses-21/cr_put.c:228-368 | a terminal without a backspace is sent one if and only if its return is unusable, the destination is to the left and not further down, and the plan starts from where the cursor is |
| CursorMotion.TabsLead | Libcurses-21/cr_put.c:375-400 | the tabs sent lead, step by step, from a column to the last tab stop that does not pass the destination |
| CursorMotion.TabsLength | Libcurses-21/cr_put.c:375-383 | there are as many of them as stops up to the destination |
| CursorMotion.OvertabsIfShorter | Libcurses-21/cr_put.c:384-399 | a tab too many and back is sent only if it takes fewer motions than the steps to the right, and behind a tab stop exactly then |
| CursorEffect.MotionsKeepTheScreenIff | Libcurses-21/cr_put.c:401-426 | any motions made on a screen that shows curscr leave it unchanged if and only if the terminal has ND or every cell stepped over is plain and outside standout mode, or already the blank that is written |
| CursorEffect.PlanIsAddressingIff | Libcurses-21/cr_put.c:215-433 | the planned motions lead to the destination, and do what absolute addressing does to cursor and screen if and only if there is ND or each of them is harmless |
| CursorEffect.SafeMovesAddress | Libcurses-21/cr_put.c:401-426 | they always do on a terminal with ND, and where nothing stands out |
| CursorEffect.MarginMovesAddress | Libcurses-21/cr_put.c:401-426 | they always do on the way to the left margin |
| CursorEffect.StepBlanksStandout | Libcurses-21/cr_put.c:406-423 | an input for which a step to the right writes over a cell that stands out |
| CursorEffect.EffectIsCarriedOut | Libcurses-21/cr_put.c:406-423 | what the characters sent leave on a terminal that reads them is the effect above, where the cells written again are those that curscr has plain, outside standout mode |
| CursorMover.CostIsLength | Libcurses-21/cr_put.c:205-213 | outside a refresh the cost counted is the number of characters sent |
| CursorMover.RefreshCostIff | Libcurses-21/cr_put.c:401-426 | in a refresh the cost counted is at most the number of characters sent, and is that number if and only if every step to the right writes a cell again or ND is one character |
| CursorMover.CostsGrow | Libcurses-21/cr_put.c:205-213 | a longer sequence of motions never costs less, so giving up early is right |
| CursorMover.MotionsAreCarriedOut | Libcurses-21/cr_put.c:260-426 | on every terminal whose strings can be told apart, the characters sent for motions that lead somewhere take its cursor there; a step over a cell that is written again puts that cell's character there, and any other step leaves the cell or a blank |
| CursorMover.Mover.Put | Libcurses-21/cr_put.c:205-213 | one motion is counted in a dry run and sent in a real one |
| CursorMover.Mover.Consider | Libcurses-21/cr_put.c:228-284 | chooses the start as the plan does |
| CursorMover.Mover.GoReturn | Libcurses-21/cr_put.c:320-337 | sends the carriage return of the plan and knows where it leads |
| CursorMover.Mover.GoDown | Libcurses-21/cr_put.c:339-349 | the line feeds of the plan, or a stop with the budget spent |
| CursorMover.Mover.GoLeft | Libcurses-21/cr_put.c:352-368 | the backspaces of the plan |
| CursorMover.Mover.GoUp | Libcurses-21/cr_put.c:369-374 | the ups of the plan |
| CursorMover.Mover.GoTabbing | Libcurses-21/cr_put.c:375-400 | the tabs of the plan, with one too many and back where that is cheaper |
| CursorMover.Mover.GoRight | Libcurses-21/cr_put.c:401-426 | the steps to the right of the plan |
| CursorMover.Mover.Plod | Libcurses-21/cr_put.c:215-433 | the dry run changes nothing and returns the budget less the exact cost of the plan, or a negative number exactly when it gives up or the cost is too high; the real run sends exactly the plan and ends at the destination |
| CursorMover.Mover.Fgoto | Libcurses-21/cr_put.c:178-195 | the cursor ends at the destination, and so does that of a terminal that reads what was sent, its cells as the steps leave them; with absolute addressing the plan is sent if and only if the cursor is not in the last column and the plan is counted shorter than the address; outside a refresh that means that it is shorter |
| CursorMover.LongerThanTheAddress | Libcurses-21/cr_put.c:180-190 | an input for which fgoto in a refresh sends twelve characters of relative motion instead of an address of six |
| Nbp.PackedIsRead | AppleTalk-52-1/nbp_send.c:352-396 | in every packet, unpacking at a place where a tuple has been packed gives that tuple, and nbp_len is exactly its length |
| Nbp.ReadIsPacked | AppleTalk-52-1/nbp_send.c:352-396 | and packing what has been unpacked gives the bytes that were read |
| Nbp.PackedLayout | AppleTalk-52-1/nbp_send.c:352-383 | where each part of a packed tuple is: net, node, socket, enumerator, and object, type and zone behind their lengths |
| Nbp.PacketIsRead | AppleTalk-52-1/nbp_send.c:316-349 | stepping through a packet by nbp_len reads the tuples that were packed one behind the other, in order |
| Nbp.CollectedMeans | AppleTalk-52-1/nbp_send.c:316-349 | any two tuples collected differ in enumerator, net, node or socket, all have been received, and unless the reply is full each one received has one there with the same four |
| Nbp.FirstIsKept | AppleTalk-52-1/nbp_send.c:328-343 | of those with the same four it is the first received that is kept, with its names |
| Nbp.CollectOne | AppleTalk-52-1/nbp_send.c:328-343 | one more tuple is skipped if known or without room, and is otherwise put behind |
| Nbp.CollectFull | AppleTalk-52-1/nbp_send.c:264-268 | once full, nothing received later changes the reply, so stopping early is right |
| Nbp.Search | AppleTalk-52-1/nbp_send.c:328-335 | finds a tuple exactly if one with its enumerator, net, node and socket is there |
| Nbp.DoNbpReply | AppleTalk-52-1/nbp_send.c:316-349 | a packet, read in place, extends the reply to what is collected from all tuples up to and including its own: different ones, and none missing while there is room |
| Nbp.Receive | AppleTalk-52-1/nbp_send.c:236-300 | over any packets the reply is the first max entries of the first occurrences over all those with the request's id and the expected control: they differ in enumerator, net, node or socket, and none is missing while there is room |
| Nbp.AnswersMean | AppleTalk-52-1/nbp_send.c:258-264 | the tuples considered are those of the packets with the request's id and the expected control, and no others |
| StatusBlock.BodyOffsetsStillDenote | AppleTalk-52-1/asp_if.c:1277-1311 | every offset into the body, relocated, denotes the same bytes |
| StatusBlock.IconOffsetStillDenotes | AppleTalk-52-1/asp_if.c:1277-1311 | so does the offset of the icon |
| StatusBlock.SignatureIsFound | AppleTalk-52-1/asp_if.c:1277-1311 | the field at the first even offset behind the name denotes the signature |
| StatusBlock.AddressesAreFound | AppleTalk-52-1/asp_if.c:1277-1311 | the field behind it denotes the number of addresses, of eight bytes each, and the addresses |
| StatusBlock.NameStays | AppleTalk-52-1/asp_if.c:1280-1282 | the name of the server stays where it is |
| StatusBlock.FlagsAnnounceTcp | AppleTalk-52-1/asp_if.c:1307 | bits 4 and 5 of the flags are set and the others are as before |
| StatusBlock.BytesAreAtTheirPlaces | AppleTalk-52-1/asp_if.c:1277-1311 | every old byte behind the fields is at its new place: unmoved in the header, moved by the gap in the body, and by the new data too in the icon |
| StatusBlock.OffsetIsRightIff | AppleTalk-52-1/asp_if.c:1295-1305 | a field for machine type, versions or methods points at the new place of what it pointed at if and only if that lies in the body |
| StatusBlock.OffsetsIntoTheIconGoWrong | AppleTalk-52-1/asp_if.c:1295-1305 | one that pointed at any byte of the icon comes to denote a byte of the new data, or an earlier byte of the icon |
| StatusBlock.AcceptedWithoutRoom | AppleTalk-52-1/asp_if.c:1252-1297 | a block that passes the size check and for which the buffer has no room |
| StatusBlock.SPNewStatus | AppleTalk-52-1/asp_if.c:1252-1313 | a block that is too long is refused; otherwise the copies and updates in memory give the relocated block, byte for byte but for the padding, and its exact length, and they stay inside the buffer if and only if it fits: else its last byte lies behind |

## Left out

- Subwindows, `mvwin`, `overlay`, `overwrite`, `touchoverlap`: windows here cover the screen and own their lines.
- The path of `wrefresh` without cursor addressing (refresh.c:113-118), `wrefresh(curscr)`, underscoring with `UC`, debug traces.
- Repaint.SendCell: the characters go to a model terminal that stores a cell at its cursor; escape sequences are not spelt out.
- Screens.Screen.ScrollUp: the plain scroll of the whole screen is left undetermined (`wild`), since what it and the move behind it do depends on the terminal; so is, in `ScrollDown` too, the way back to where the cursor was on a terminal that stands out and has no `nd`; every other path is exact.
- Screens.Screen.TakeOutAtTop: the plain scroll of a block that ends above the bottom line.
- Repaint.Makech: on a terminal that does not wrap and has a single column, cr_put.c:118 counts two lines for the wrap, and one is modelled.
- Clearing.Winsch: ends with the corner check of insch.c:84-86 and says whether it holds; what follows it refreshes and scrolls.
- The cursor of `curscr` is kept beside the window it belongs to, and the hash of a line is any function of its cells.
- Refresh.Wrefresh: `mvcur` is taken to address any position on the screen, and what a terminal that stands out and has no `nd` then shows is left undetermined, unless the way is to the margin; how the cursor gets there, and when that is what absolute addressing does, is the model of cr_put.c and of `CursorEffect`. Every move is proved to start from where the cursor is, or from the last column, from where cr_put.c only addresses. A cursor that is driven below the screen scrolls it and stays on the bottom line.
- CursorMover.Mover.Fgoto: starts from positions on the screen; of the wrapping and scrolling of cr_put.c:113-177 for positions outside it only what `makech` comes to is modelled, in `Repaint.FromPastMargin` and `Terminal.MoveTo`; the padding of `tputs` is not.
- CursorMover.MotionsAreCarriedOut: the strings of the terminal can be told apart, and none begins with a blank or with a character that is written again; what the string of an absolute address does is what `tgoto` promises.
- PlistLayout.EveryTokenIsSpelt: gives a text for ids from -1 to 2^31 - 1, sizes below 2^31 and texts without NUL; `TreeInAnyLayout` takes any text that is read as a token.
- CursorMotion.PlanLeads: requires NC off; with NC on, `BackspaceAnyway` says exactly when the plan sends a backspace the terminal does not have.
- CFStringGetCStringPtr is taken to return NULL, which is the path that copies anything; floating-point numbers and types that are not serializable are not values here.
- Core Foundation objects are values compared by their contents; reference counts and allocation failures are not modelled.
- PlistParser.Parser.Yyparse: semantic objects are cells of a pool referred to by index, the stacks are sequences that stand for the growing arrays, an object is taken from the pool when its token is shifted, and line numbers and error messages are left out. Error recovery pops the whole stack, as `NoRecovery` shows it must.
- PlistRoundTrip.RoundTrip: up to 2^31 ids; beyond that the decimal reader's 32-bit result differs.
- Memory behind the end of the text reads as NUL.
- RwLock.MutualExclusion: clients unlock only what they hold; errors of the mutex and condition calls are not modelled.
- RwLock.NobodyIsStuck: says that some thread can always get in, not that each one does; the scheduler is not modelled.
- RwLock.WaiterGetsInIff: the run it gives may use spurious wakeups and the unlock calls of the holders; threads that still use a mutex that has been cleared take no more steps.
- Nbp.DoNbpReply: packets that answer the request hold as many tuples as they say, with names that fit their fields, as nothing in the code looks at the length received; timeouts, `time_diff` and the socket are not modelled.
- StatusBlock.SPNewStatus: what `GetSigInfo` and `GetTCPInfo` find out are parameters; the block has its icon last and a header that ends before it, as the copy at asp_if.c:1308 would otherwise have a negative length; the lookup of the listener and the `ioctl` are left out.
- Termcap loading, tty modes, signals, `printw`, `scanw`, `getch`, and the rest of AppleTalk and IOKit: input, output and system calls.
- Smaller helpers such as `tgoto`, `tscroll`, `nbp_parse` and `lap_init` would add only easier members.
