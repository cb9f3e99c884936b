# Verified model of amdtop

amdtop is a terminal monitor for AMD GPUs. This project models the parts of it that carry state,
pointers, arithmetic or parsing, and proves what they are for. `dafny verify dfyconfig.toml` checks
everything.

| file | models |
|---|---|
| `CircularList.dfy` | the links of `utils/list.h`: rings, insertion, deletion, relinking |
| `ListForest.dfy` | any number of lists at once, and whole runs of list operations |
| `ListTraversal.dfy` | the `list_for_each_entry` family |
| `ModeResource.dfy` | `gpuGetModeResouce`: a snapshot taken from a kernel that changes between ioctls, and who owns which buffer |
| `Scheduler.dfy`, `SchedulerRuns.dfy` | the period timers of the windows and, inside the main window, of the active tab |
| `Navigation.dfy` | which tab and device are active, and where their stars are |
| `Layout.dfy`, `Border.dfy` | the tiling of the terminal and the border around it |
| `Bar.dfy`, `BarRow.dfy` | the arithmetic of a bar and the row of characters it is drawn on |
| `Decimal.dfy`, `RingName.dfy` | decimal numerals, and ring names printed and parsed |
| `FenceInfo.dfy`, `FenceSections.dfy` | the fence file: the reader's nested loops, and what a file of sections means |
| `Edid.dfy`, `Display.dfy` | EDID checksum and texts, and the display tab's change-detecting snapshot |
| `DisplayRuns.dfy`, `DisplayMemory.dfy` | what that tab records and draws over whole runs, and the resources it holds |
| `Findings.dfy` | an input for each place where the code surprises |
| `Common.dfy` | integer widths, quotients and a few types that several models share |

How the C is rendered. Structures that C updates in place are classes. A node's `next` and `prev` are
never null: they hold some node, as an uninitialised pointer holds some address. Forests, base
allocations and the like are ghost parameters that say what the pointers mean. Calls into the kernel,
the clock, printf and scanf are parameters or functions: an `Environment` gives the topology, the
return code and the allocation result at every moment, a `Poll` gives the clock readings and the
handlers' replies, a `Kernel` gives the answers of one display query. Unsigned subtraction, the
32-bit products of the bars and the 64-bit sum of the timers wrap as in C.

## Findings

Places where the code does not do what one would expect. In each the model keeps the code's
behaviour and proves exactly when the expectation holds; `Findings.dfy` has an input for each on
which it does not.

- `list_move_tail(n, n)` destroys the list unless `n` was alone on its ring (`MoveTailOntoItself`,
  input `MoveTailBreaksPair`).
- `gpuGetModeResouce` returns 0 without a resource exactly when a temporary buffer or, with settled
  counts, the resource struct cannot be allocated. It returns -ENOMEM with a resource exactly when
  all those can be had and a copy cannot. Memory stays behind in that case, and when the second
  ioctl fails with at least one temporary buffer allocated (`OutcomeForetold`, inputs
  `EveryFailureOccurs`).
- The fence reader reads the last line of the file twice. This spoils a counter exactly when the
  queried ring is last, the file ends with a newline, and the section ends in its first "emitted"
  line with a non-zero number (`FenceLookup`, input `OneLineIsReadTwice`).
- When the serial number of a display cannot be parsed, the new snapshot is recorded but not drawn,
  and updates do not draw it later, because they see no change. An event draws it exactly when an
  init of the tab succeeds (`DrawnUnlessMissed`, input `MonitorIsMissed`); until then the screen is
  what it was before, which differs from the record unless it happened to show the same
  (`ScreenIsStale`).
- The display tab shows the record of another device than the active one. If there is a record, that
  is so exactly when the last switch was away from the record's device and since then every query has
  failed or agreed with the record on the watched fields, which tell nothing of which monitor it is
  (`ForeignRecord`, inputs `OtherDevicesMonitor` and `OneMonitorForTwo`). Inits draw such a record and
  return 0 (`ReInitDraws`).
- The display tab never frees a resource: every one it is delivered stays live, whatever fails later
  (`AskWhateverFails`, `AskTimes`). When a query gets 0 without a resource it goes on with the listing
  of the last delivery, and through a NULL or freed pointer exactly when there was no delivery or a
  failed copy since the last one (`PointerAfter`, `ListingIsUsable`, input `NoListingAtFirst`).
- After a failed init of the main window the active tab has changed but its star has not moved. Over
  a whole run the star is right exactly when the last switch with a successful init led to the tab
  that is active now, or without such a switch when that is the tab the run started on (`Run` in
  `Navigation.dfy`, inputs `StarStaysBehind` and `StarIsFoundAgain`).
- A bar's percentage is right exactly when the value times 100 fits 32 bits (`PercentExact`, input
  `FullBarReadsEmpty`).
- A bar of width 4 prints its percentage at the cursor of the window, which is behind its last
  label unless something else was printed in the window since, and not between its brackets
  (`SetValue`, input `PercentBehindLabel`).

## Model

| member | source | states |
|---|---|---|
| CircularList.RotatedRing | utils/list.h:6-8 | a ring has no first node: every rotation of a ring is a ring |
| CircularList.RingFixesLinks | utils/list.h:6-8 | being a ring fixes every link: two states that form the same ring agree on all its pointers |
| CircularList.ListAddBetween | utils/list.h:29-37 | closes a ring that is opened between two neighbours over the new entry |
| CircularList.ListAdd | utils/list.h:54-58 | prepends: head and elements s become head, entry and s |
| CircularList.ListAddTail | utils/list.h:75-79 | appends: head and s become head, s and entry |
| CircularList.ListDelBetween | utils/list.h:81-86 | closes a ring over its last node, whose own links survive |
| CircularList.ListDel | utils/list.h:102-106 | removes the node at any position and leaves that node's own links intact |
| CircularList.ListDelInit | utils/list.h:108-113 | as ListDel, with the node a ring by itself afterwards |
| CircularList.ListEmpty | utils/list.h:130-134 | true exactly when there are no elements |
| CircularList.MoveTailOntoItself | utils/list.h:115-120 | moving a node behind itself leaves it a proper link exactly when its list was empty |
| CircularList.Relink | utils/list.h:29-37 | re-adding a deleted node between its own prev and next restores the ring it was deleted from |
| CircularList.MinusMembers | utils/list.h:81-106 | the ring left after n deletions holds exactly the nodes not deleted, each once |
| CircularList.DelAll | utils/list.h:81-106 | deleting any distinct nodes one after the other leaves the ring of the others, and every deleted node keeps the links it had at its deletion |
| CircularList.DelAllThenRelinkAll | utils/list.h:29-106 | for every choice and number of nodes, deleting them and relinking them in reverse restores every link of the ring |
| ListForest.DetachKeepsForm | utils/list.h:102-113 | taking one node out of many disjoint lists leaves disjoint lists of exactly the other nodes |
| ListForest.OtherListsStay | utils/list.h:54-120 | a list that neither holds the operand nor is the target keeps its elements |
| ListForest.DelInitOnHead | utils/list.h:88-113 | deleting a head empties it, and its elements stay one ring in the same cyclic order |
| ListForest.Apply | utils/list.h:23-120 | every operation takes the pointers of all lists from one well-formed forest to the specified next one; the entry is then behind the head, before it, or by itself, by the links |
| ListForest.Run | utils/list.h:23-120 | after any finite legal run over any number of heads all rings are circular, disjoint, and hold what the run says |
| ListTraversal.ForEachFrom | utils/list.h:244-247 | visits the rest of the list from the given node, in order |
| ListTraversal.ForEachEntry | utils/list.h:210-213 | visits exactly the elements, in order |
| ListTraversal.ForEachEntryContinue | utils/list.h:234-237 | visits exactly the elements behind the given one |
| ListTraversal.ForEachEntryReverse | utils/list.h:229-232 | visits exactly the elements, in reverse |
| ListTraversal.ForEachEntryContinueReverse | utils/list.h:239-242 | visits exactly the elements before the given one, in reverse |
| ListTraversal.ActionEffects | utils/list.h:222-226 | what one step of a traversal's body does to the list being traversed and to all the others |
| ListTraversal.ForEachEntrySafe | utils/list.h:222-226 | with a body that keeps, deletes or moves each node at will: terminates, visits each original element once in order, leaves the survivors in order and appends the moved nodes to their new lists |
| ModeResource.FillKeeps | core/gpumode.c:45-47 | an ioctl that fills a buffer of just the right capacity leaves exactly the kernel's ids in it and no other buffer changed |
| ModeResource.Exchange | core/gpumode.c:60-111 | freeing the temporaries below a complete resource leaves the old allocations and the resource, contents intact |
| ModeResource.Process.FillResource | core/gpumode.c:64-113 | with the struct in hand: complete copies of the four lists and no temporary left exactly when every copy can be allocated, else -ENOMEM, the copies freed and struct and temporaries left |
| ModeResource.Process.Publish | core/gpumode.c:60-113 | 0 without a resource exactly when the struct cannot be allocated, a complete copy exactly when every allocation succeeds, and otherwise -ENOMEM and the leak of that path |
| ModeResource.Process.Attempt | core/gpumode.c:16-113 | how a pass ends and what it leaves behind, for every kernel and every pattern of failing ioctls and allocations |
| ModeResource.OutcomeForetold | core/gpumode.c:16-113 | with the allocations numbered, and as equivalences that can be told before the pass: it retries, delivers, returns 0 with nothing, returns -ENOMEM with a resource, returns an ioctl's error, leaks |
| ModeResource.Process.GetModeResource | core/gpumode.c:10-114 | for every kernel behaviour the outcome is that of the pass at which the retry loop ends; what is delivered is complete, is the kernel's state at the last ioctl, and is all that is live beyond the start; without a delivery memory stays behind exactly when that pass leaks; what was live before stays, however it ends |
| ModeResource.EndsOrRetries | core/gpumode.c:48-58 | a pass is the last one exactly when it does not retry, and a retry goes on with the next two ioctls |
| ModeResource.Process.FreeModeResource | core/gpumode.c:116-125 | freeing a delivered resource restores the allocations from before the query; nothing is freed twice |
| ModeResource.FinitelyManyChangesSettle | core/gpumode.c:16-58 | when the topology changes only finitely often, some pass of the retry loop ends it |
| Scheduler.WindowContext.MainUpdate | tui/mainwindow.c:175-191 | the tab is refreshed exactly when the driver is loaded and its period is over, and a failing refresh leaves its timestamp alone |
| Scheduler.WindowContext.WindowsInit | tui/window.c:266-281 | return code by return code: which windows' timers are reset, whether the tab's is, and what is returned |
| Scheduler.WindowContext.MainInit | tui/mainwindow.c:5-32 | without a driver a tab that needs one is not brought up and its timer is left alone; otherwise the timer is reset even if the tab's init fails |
| Scheduler.WindowContext.WindowsUpdate | tui/window.c:298-315 | the windows before the first failing one that are due get the clock after their handlers as timestamp, all others keep theirs, and the failing handler's code is returned |
| SchedulerRuns.UpdatesAreSpaced | tui/window.c:302-312 | over every run of polls and key presses, an update of a window starts at least its period after the previous one returned |
| SchedulerRuns.RateIsBounded | tui/window.c:302-312 | in every such run, updates whose starts lie within a span number at most span / period + 1 |
| SchedulerRuns.FailureSkipsLaterWindows | tui/window.c:303-312 | a failing update leaves its timestamp and every later window alone, and earlier windows are unaffected |
| SchedulerRuns.InstantPollTicks | tui/mainwindow.c:175-191 | with instantaneous error-free handlers a poll acts on the main window's and the tab's timers as a two-timer machine |
| SchedulerRuns.RefreshGaps | tui/mainwindow.c:181-187 | consecutive refreshes are at least the tab's period and less than the sum of both periods and the polling distance apart, and the next one is never overdue |
| SchedulerRuns.ActiveTabGaps | tui/mainwindow.c:175-191 | that bound for every run of the window timers from a refresh on, with any keys that leave the tab's timer and period alone |
| SchedulerRuns.ActiveTabAfterReset | tui/tabinfo.c:43-55 | from a reset of the tab's timer on, the first refresh comes less than the main window's period and the polling distance later, whatever the tab's period, and that bound holds from there on |
| Navigation.Context.TabHandleInput | tui/tabwindow.c:48-87 | the tab moves by one around the ring of tabs; the star follows unless the init of the main window fails |
| Navigation.Context.DeviceHandleInput | tui/devicewindow.c:56-111 | the device moves by one and stops at both ends; its star follows |
| Navigation.Context.UpdateColumn | tui/tabwindow.c:9-19 | exactly one star, on the given row |
| Navigation.Context.DispatchInput | tui/window.c:251-264 | key by key, what becomes of the active tab, modulo the tabs, and of the active device, between both ends; the tab's star is right afterwards exactly when the tab did not change or the init succeeded |
| Navigation.KeyMoves | tui/tabwindow.c:48-69 | PageDown and Ctrl-N go to the next tab, PageUp and Ctrl-P to the previous one, F3 and F4 to the neighbouring device if there is one, other keys nowhere |
| Navigation.Context.Run | tui/window.c:251-264 | over any key sequence the tab is start plus nexts minus previouses modulo the tabs, the device is the saturating walk, and the star is where the last tab switch with a successful init put it, so it is right exactly when that is the active tab |
| Layout.WindowContext.InitWinLayout | tui/window.c:47-84 | the windows are non-empty and tile the context exactly, with the border on the screen, if and only if there are at least 23 columns and 12 lines; then they have the sizes 6, 3 and 20 and the context four fifths of the screen or all but its border |
| Layout.SmallContextIsNotTiled | tui/window.c:66-84 | in a context that is too small some window is empty or sticks out, wrapped subtractions included |
| Border.DrawMainWindowBorder | tui/window.c:98-116 | draws each corner and each side with its character, blanks the interior and changes nothing outside |
| Border.LayOutAndDraw | tui/window.c:47-116 | on every terminal of that size the border fits around the layout |
| Bar.PercentInRange | tui/window.c:455-456 | the percentage is in 0..100, overflow or not |
| Bar.PercentExact | tui/window.c:456 | it is the true percentage exactly when the product fits 32 bits |
| Bar.PercentMonotone | tui/window.c:456 | a larger value has no smaller percentage |
| Bar.CountIsClose | tui/window.c:456-457 | the filled cells are right up to one cell and a hundredth of the width |
| BarRow.WindowBar.Create | tui/window.c:482-512 | after creation on any row the bar shows value 0 of 100, only its name and brackets when it is narrower than 4, and no percentage between them when its width is 4 |
| BarRow.WindowBar.SetValue | tui/window.c:451-480 | afterwards every column of the row is right: ground, name, bracket, filled prefix, blanks, percentage, bracket, label, blanks wherever a longer label ever was, ground; read back, the texts give the name, the percentage, the value before the slash, the maximum behind it, and the unit; a bar narrower than 4 is left alone; at width 4 the percentage is at the old cursor and the label over it |
| BarRow.LabelReads | tui/window.c:440 | scanned back, a label is the value, a slash, the maximum and the unit, with the value ending in column 5 |
| BarRow.PercentReads | tui/window.c:469 | scanned back, the four cells are blanks, the percentage and a percent sign |
| BarRow.HeadReads | tui/window.c:498 | the head is the name, padded to five columns, and an opening bracket |
| BarRow.WindowBar.WriteCaption | tui/window.c:434-449 | the label stands at its place, every column that the last one took is blank, and nothing else changes |
| BarRow.WindowBar.Run | tui/window.c:427-480 | after any sequence of updates, with anything printed elsewhere in the window and maxima of 0 in between, the row shows the last value set, with the maximum of that moment |
| BarRow.ShortUnitsFit | tui/window.c:437-440 | with a unit of up to 14 characters no value and maximum overrun the label buffer |
| Decimal.ScanNumeral | core/gpudridebug.c:28-67 | reading a number back from a printed one, up to the first character that is no digit |
| RingName.AmdGpuRing.ParseRingInfo | core/gpudridebug.c:11-73 | for every name, of a printed form or not: the kind is that of its prefix, the values are the numbers behind the prefix of that form if all of them are there, and unused slots are -1; a name that fills its buffer counts as far as the buffer holds it |
| RingName.ParsedIs | core/gpudridebug.c:28-70 | the formats, form by form, in terms of numbers and dots |
| RingName.ParsePrint | core/gpudridebug.c:28-67 | parsing undoes printing, for every ring of the seven forms |
| RingName.PrintFits | core/gpudridebug.c:24-25 | every printed name fits both buffers, prefix included |
| RingName.ParsedRingsDiffer | core/gpudridebug.c:28-67 | no two rings parse alike |
| RingName.ParseDirectoryEntry | core/gpudridebug.c:91-93 | the driver's file name of a ring comes back as that ring |
| FenceInfo.QueryFenceInfo | core/gpudridebug.c:108-165 | the nested loops compute the line-by-line reading of the file from seven zeros, end-of-file behaviour included |
| FenceSections.TakeAllCollects | core/gpudridebug.c:130-157 | reading a section's body collects its first and second "emitted" numbers and the last number of each other kind; what it does not mention stays |
| FenceSections.MatchingSection | core/gpudridebug.c:124-160 | a matching section is read completely although the header behind it is swallowed |
| FenceSections.NoMatch | core/gpudridebug.c:124-160 | in a file without a matching section none is taken |
| FenceSections.OneMatch | core/gpudridebug.c:124-160 | with one matching section that one is taken, and the file ends in it exactly when it is the last |
| FenceSections.FenceStream | core/gpudridebug.c:124-160 | what the query returns for any stream of sections and any name: the counters of the matching sections one after the other, without those directly behind one that was taken, and with a last "emitted" line taken twice |
| FenceSections.FenceLookup | core/gpudridebug.c:124-160 | the query returns the counters of the ring asked for if and only if the file is not of the twice-read family; otherwise the second emitted counter is the first |
| FenceSections.QueryRing | core/gpudridebug.c:108-165 | each counter is the number on the first or second "emitted" line, or on the last line of its kind, and 0 without one; on a twice-read file the second emitted one is the first |
| FenceSections.QuerySections | core/gpudridebug.c:108-165 | FenceStream of the reader itself, and seven zeros when no name matches |
| FenceSections.CountersSay | core/gpudridebug.c:130-157 | line by line, what a section's counters are |
| Edid.VerifyChecksum | tui/import/edid.h:482-492 | accepts exactly the blocks whose bytes add up to a multiple of 256, for any length |
| Edid.OneClosingByte | tui/import/edid.h:482-492 | whatever comes before, exactly one last byte is accepted |
| Edid.SingleByteErrorsAreDetected | tui/import/edid.h:482-492 | no change of a single byte of an accepted block is accepted |
| Edid.AcceptanceIgnoresOrder | tui/import/edid.h:482-492 | the order of the bytes does not matter |
| Edid.GetDescriptorText | tui/displayinfo.c:55-99 | the text of the first of the four 18-byte descriptors that starts with 0, 0, 0, the tag and 0, cut at the first newline or NUL and at 13 characters; -EINVAL exactly when there is none, and then nothing is written |
| Edid.ReadFromBlock | tui/import/edid.h:395-431 | on blocks put together from a header, four timings or texts and a tail: the first text with the tag, or -EINVAL |
| Display.DisplayTab.Query | tui/displayinfo.c:222-308 | in terms of the listing and the answers about its connectors: success exactly when none of them was an error, and then there is one entry, field by field, for each connected connector, in the order of the listing, and the counts are those of the listing; without a new listing the one before is used |
| Display.OneMore | tui/displayinfo.c:242-305 | one connector more adds its entry if it is connected, and its error if none came before |
| Display.TakenMeans | tui/displayinfo.c:242-305 | what the snapshot of a query means, connector by connector |
| Display.AgreementMeans | tui/displayinfo.c:384-414 | a record that agrees with the snapshot shows the connected connectors in order, with the DPMS state, presence and geometry that the kernel answered |
| Display.ReadText | tui/displayinfo.c:55-99 | the extraction of EDID texts succeeds exactly when a descriptor has the tag, and yields the text of the first such descriptor |
| Display.ParseEdidInfo | tui/displayinfo.c:193-220 | the texts tagged 0xFC and 0xFF, or "unknow", and year and week from bytes 17 and 16; the error is that of the serial number, whatever becomes of the name |
| Display.DisplayTab.NeedUpdate | tui/displayinfo.c:384-414 | true exactly when the shown snapshot does not agree with the fresh one on the watched fields |
| Display.DisplayTab.Update | tui/displayinfo.c:310-336 | the shown snapshot becomes the fresh one, filled in up to the first display that fails to parse: texts and names before it, texts only for it, neither behind it |
| Display.FilledInIs | tui/displayinfo.c:310-336 | what is filled in for one display: texts, date and, if it can be read, the names with the type number, and nothing else |
| Display.DisplayTab.Refresh | tui/displayinfo.c:465-488 | after every refresh whose query succeeds the shown snapshot agrees with the fresh one, parse errors or not; it is drawn exactly when it was recorded and parsed |
| Display.DisplayTab.RefreshRepeatedly | tui/displayinfo.c:465-488 | of any number of refreshes in a row on the same answers all but the first find no change, so a snapshot whose parse failed is not drawn by any of them |
| Display.DisplayTab.Init | tui/displayinfo.c:417-457 | the kernel is asked only on a change of device, and what is shown is drawn exactly on success |
| DisplayRuns.Run | tui/displayinfo.c:417-488 | over any run of inits and updates the return codes, the record and what was drawn last are functions of the events |
| DisplayRuns.RecordsIs | tui/displayinfo.c:384-414 | the change test on the record is a test on the last successful query, whichever snapshot was recorded |
| DisplayRuns.DrawnUnlessMissed | tui/displayinfo.c:417-488 | an event has drawn the record since it was made exactly when it was not missed: its parse failed and no init has succeeded since |
| DisplayRuns.MissedStays | tui/displayinfo.c:417-488 | until then the screen is what it was before the event that made the record |
| DisplayRuns.ScreenIsStale | tui/displayinfo.c:417-488 | the contents of screen and record differ exactly when the record was missed and the screen had not happened to show the same before it was made |
| DisplayRuns.ReInitDraws | tui/displayinfo.c:417-457 | an init for the device that is active already succeeds and draws whatever is on record |
| DisplayRuns.ForeignRecord | tui/displayinfo.c:384-437 | the record was made for another device than the active one exactly when the last switch was away from the record's device and since then every query failed or agreed with the record on the watched fields |
| DisplayRuns.RecordComesFrom | tui/displayinfo.c:417-488 | the record is the answer given for the device that was active when it was made |
| DisplayRuns.ListingIsUsable | tui/displayinfo.c:225-239 | over any run the static pointer holds a usable listing exactly when one was delivered and nothing was stored since, and it is that one |
| DisplayMemory.Ask | tui/displayinfo.c:225-235 | without a leak exactly the delivered resources are live beyond the start: a delivery adds one, and nothing else changes |
| DisplayMemory.AskWhateverFails | tui/displayinfo.c:225-235 | in any environment, leaks included, every resource that was ever delivered stays live with the lists it was delivered with, and so does everything from before |
| DisplayMemory.AskTimes | tui/displayinfo.c:225-235 | n queries without a failure leave n resources live, and at least n allocations more |
| DisplayMemory.PointerAfter | tui/displayinfo.c:225-239 | the static pointer after a query, for each way in which it ends; the tab goes on without a listing exactly when memory was short for the temporaries or the struct and there was no usable listing before |
| Findings.MoveTailBreaksPair | utils/list.h:115-120 | the first of two nodes, moved behind itself, is no proper link any more |
| Findings.EveryFailureOccurs | core/gpumode.c:16-113 | one connector and one failing allocation or ioctl give each of the failing outcomes |
| Findings.QueryOnce | core/gpumode.c:10-114 | the query as a whole has exactly these outcomes when the counts stay the same |
| Findings.OneLineIsReadTwice | core/gpudridebug.c:129-157 | in a file of one section of one line the only emitted number is returned as the second one, too |
| Findings.MonitorIsMissed | tui/displayinfo.c:417-488 | a monitor without a serial number, plugged in after an init, is on record and not on screen after any number of updates; another init draws it |
| Findings.OtherDevicesMonitor | tui/displayinfo.c:417-457 | after a failed query for a new device the next init draws the monitor of the old one and returns 0 |
| Findings.OneMonitorForTwo | tui/displayinfo.c:384-437 | of two devices with a sleeping monitor each the first is drawn for both, the queries for the second succeeding |
| Findings.NoListingAtFirst | tui/displayinfo.c:225-239 | a failing first allocation makes the first query go on without a listing |
| Findings.StarStaysBehind | tui/tabwindow.c:71-84 | the second of two tabs is active and the star on the first after a failed init |
| Findings.StarIsFoundAgain | tui/tabwindow.c:71-84 | a second failed switch, back again, leaves the star on the active tab |
| Findings.FullBarReadsEmpty | tui/window.c:455-456 | a value of 42949673 out of as many reads 0 percent |
| Findings.PercentBehindLabel | tui/window.c:451-469 | a bar of width 4 shows blanks between its brackets and the percentage behind its label, whatever its value |

## Left out

- gpuGetConnector, gpuGetProperty, gpuGetEncoder and gpuGetCrtc: they have no retry, so a display query is answered by one `Kernel` value and no claim is made that its answers belong to one instant.
- ModeResource.Process.GetModeResource: termination needs a pass that does not retry, given as a ghost argument; a kernel that changes its counts between the ioctls of every pass keeps the C loop going for ever.
- ModeResource: counts are unbounded, where the kernel interface holds them in 32 bits.
- SchedulerRuns.UpdatesAreSpaced: assumes that no clock reading plus period reaches 2^64 ns, about 584 years, and that no resize of the terminal re-initialises the windows during the run.
- Scheduler: null entries in the window table; all four windows are set up before the first poll.
- FenceInfo: the characters of a line. A line is what the reader's scans and searches make of it; lines longer than the buffer are not modelled.
- FenceSections.FenceLookup: is about names that match one section only; FenceStream is about all. Both say nothing about the ring id in the result, which every header the outer loop sees overwrites.
- RingName.AmdGpuRing.ParseRingInfo: numbers outside the range of int.
- Display: the name tables, which are a parameter; the DPMS text, the manufacturer letters and the diagonal in inches; names that overrun their 100-character buffers; more than eight connected connectors, which overrun the array in the source, and what happens after a query has gone through a NULL or freed listing; an entry that a failing query leaves half filled behind the counted ones.
- BarRow.WindowBar.SetValue: labels that overrun the 40-character buffer, and setting a value while the maximum is 0, which the source divides by; rows so narrow that printing wraps.
- Edid: the field accessors and the fixed-point decoder.
- Device discovery and teardown, CPU load, the tabs that only print fields, colours, ncurses itself, and core/atombios.c: no property beyond reading one body.
