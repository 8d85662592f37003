# ACE shell: a verified model

ACE runs an AmigaDOS shell on Linux.  This project models the parts of it that
carry the most state and proves what they keep, in Dafny 4.11.
`dafny verify dfyconfig.toml` verifies all of it.

**Names.**  The broker spells every Linux file name so that AmigaDOS can name it
(at most 107 bytes, no ':' or '/', case-insensitive) and reads the spelling back
without any table.  A spelling is the name itself, or a header, a caret and a
payload that carries the rest in base32 (RFC 4648 sections 3.2, 3.5 and 6,
without padding), or, behind `^0`, compressed and in a 7-bit code.  `BitPacking`,
`TextCode`, `Alphabets` and `Pack39` are the codecs, as values and as the loops on
fixed buffers; `Escape` says what a payload is; `NameMapper`, `ExactSpelling`,
`ExactReading`, `DirectoryScan` and `Siblings` are components; `Paths` is whole paths.  The central results are
`NameMapper.ComponentRoundTrip` and `Paths.WholePathRoundTrip`.  That siblings
never collide is not true of the code: `Siblings.SiblingsDistinct` says exactly
when they do, `Siblings.DistinctByName` how to see from the names that they do not,
and `Siblings.SiblingsCollide` shows two that do.

**The broker.**  Sessions, tasks, ports, delivery channels, pending messages and
connections are fixed tables.  `MessageDesk` gives every request and disconnect as
a value with a history of how each message ended, `DeskInvariants` what they keep,
`DeskRequests` exactly when they succeed and what they record,
`BrokerTables` and `SessionTable` the tables updated in place.  `BrokerCore` is the
whole broker as a step machine over accepts, requests and closes in any order, with
any socket write failing; `BrokerInvariants`, `BrokerRuns` and `BrokerExact` hold over
every run.

**The pixel surface.**  `Console` is the console as a user sees it, with no buffer:
drawing, text, scrolling, resizing and the damage rectangle.  `Raster`, `Window` and
`Surface` are the linear buffer, the window into it and the class that scrolls by
moving its origin, by folding back, or by moving rows; every routine is proved to
show what the same operation on the plain screen shows.  `CellGrid` and `CellTable`
are the text grid behind the pixels.  `Resizing` is the resize of both together: that
a failed one leaves no trace is not true of the code, and `Resizing.FailsSilently`
says exactly when it does.  `TextInk` is the ink of a run of text and `TextExact` what
text, fills and scrolls record, `GridOps` the
whole console with its cursor, `GridTruth` and `GridRuns` what it keeps: that a
valid cell says what its pixels show is not true of the code for every operation,
`GridRuns.StepExact` says exactly for which, and `GridRuns.After` holds over every
run of them.

**Exec.**  `ReplyQueue` is `WaitIO()` on a shared reply port in every interleaving
with arrivals, `ReplyPort` the same on the doubly linked list.  `AbortHandshake` is
`AbortIO()` against a blocked read, with both locks, broadcasts and spurious
wake-ups, and `ReadOutcome` what the read then reports.

**Privilege.**  `Privilege`, `PrivilegeInvariants` and `PrivilegeClient` are the
request protocol between broker, supervisor, volume worker and access workers, and
`PrivilegeTruth` what an answer is worth, and `PrivilegeAccess` what decides who gets
access operations performed; `MountLedger`, `MountRequests` and `MountTable` are the
volume worker's mounts.

**Titles.**  `TitleFilter`, `TitlePieces` and `TitleConsole` are the filter that takes
window titles out of a console's byte stream.

Conventions: a byte is an integer from 0 to 255 and a text a sequence of them;
`First` is a search from the front of a table; what the host answers (did the write
succeed, is the device there) is an argument.  Where the code and its comments
differ the code is followed: the hashed spelling described at src/broker.c:891-895
does not exist.

## Model

| member | source | states |
|---|---|---|
| `BitPacking.PackPacks` | src/broker.c:904-931 | the encoders' bit loop writes the digits of the data read as one big-endian number, shifted left to a whole digit (the relation `Packs`, stated on values and not on bits) |
| `BitPacking.PackLength` | src/broker.c:899-902 | the length functions of both codes give the number of digits written, for every input length |
| `BitPacking.UnpackIff` | src/broker.c:933-964 | the decoders' bit loop, with its test of the left-over bits, yields data exactly when the data is not empty and packs to those digits |
| `BitPacking.PackUnpack` | src/broker.c:904-964 | unpacking what was packed gives the data back, for every non-empty data |
| `BitPacking.UnpackPack` | src/broker.c:904-964 | packing what was unpacked gives the digits back: digits have one reading only |
| `BitPacking.PacksUniqueData` | src/broker.c:955-963 | two data that pack to the same digits are the same; this is what the zero-padding test buys |
| `TextCode.EncodeDecode` | src/broker.c:904-964 | base32 and DENSE128 at once: decoding an encoding gives the data back, for every non-empty data that fits the buffer |
| `TextCode.DecodeEncode` | src/broker.c:1079-1131 | any text the decoder accepts is the encoding of what it yields, up to upper-casing for base32: the spelling is canonical |
| `TextCode.EncodeInto` | src/broker.c:904-931 | the encoding loop on a fixed buffer and a 32-bit accumulator that loses its high bits: it writes the whole encoding and a NUL, or returns 0, and returns 0 exactly when there is no data or no room |
| `TextCode.DecodeInto` | src/broker.c:933-964 | the decoding loop on a fixed buffer and a 32-bit accumulator succeeds exactly when the text has a decoding that fits, and then the buffer holds it |
| `TextCode.FindDigit` | src/broker.c:1066-1072 | the alphabet search finds the digit a character stands for, or that it stands for none |
| `Alphabets.Base32Sound` | src/broker.c:897 | the 32 characters are distinct, none is NUL or lower case |
| `Alphabets.Dense128Sound` | src/broker.c:1047-1072 | the 128 characters are distinct and none is NUL |
| `Alphabets.SymbolsAreOrdinary` | src/broker.c:1029-1064 | no symbol of either code is a caret, colon or slash, and base32 has no '0' |
| `Pack39.EncodeDecode` | src/broker.c:1155-1237 | divide-by-39 undoes multiply-and-carry for every string over the alphabet up to 255 long, leading zero-valued symbols included |
| `Pack39.EncodeCanonical` | src/broker.c:1155-1191 | the packed form has no leading zero digit, stands for a value below 39 to the length, and is at most one byte longer than the string: the digit buffer cannot overflow |
| `Pack39.AcceptedIffCanonical` | src/broker.c:1341-1348 | decode-then-encode accepts a payload exactly when some string packs to it, which is exactly when it is canonical |
| `Pack39.SymbolValueIsPosition` | src/broker.c:1133-1140 | a character's value is its place in the alphabet |
| `Pack39.EncodeInto` | src/broker.c:1155-1191 | the in-place multiply-and-carry loop succeeds exactly on encodable strings that fit, and then the buffer holds the length byte and the base-256 digits, most significant first |
| `Pack39.DecodeInto` | src/broker.c:1193-1237 | the in-place division loop succeeds exactly when the digits hold that many symbols and no more, and then the text is those symbols and a NUL |
| `Pack39.DivideInPlace` | src/broker.c:1207-1222 | one pass of long division in place leaves quotient and remainder, the write index never passing the read index |
| `Escape.ValidHasNoCaret` | src/broker.c:1386-1405 | no payload an escape may carry contains a caret |
| `Escape.MarkerAtHeader` | src/broker.c:1407-1414 | in header, caret, payload the parser finds that very caret, whatever ordinary carets the header holds |
| `Escape.LiteralPayload` | src/broker.c:1386-1405 | a base32 payload made from the rest of a name is accepted, reads back as it, and cannot be taken for a compressed one |
| `Escape.CompressedPayload` | src/broker.c:1328-1384 | a payload made by PACK39 or by DEFLATE reads back as the text it was made from, and is accepted as an escape |
| `Escape.Base32FoldsCase` | src/broker.c:933-964 | base32 payloads that differ only in case read the same |
| `NameMapper.ComponentRoundTrip` | src/broker.c:1560-1831 | for every directory and every name Linux allows: if the name maps at all, the spelling is not empty, at most 107 bytes, free of ':' and '/', and reads back in that directory as the name -- plain, '.'/'..' for ':'/'::', base32 and compressed spellings, case variants, and names not in the directory |
| `ExactSpelling.MapsExactly` | src/broker.c:1560-1709 | what is written, for every directory, every name Linux allows and every buffer: ':' and '::' as '.' and '..'; an ordinary name as itself; any other as much of itself as can stand, then base32 of the rest if that has room, else the payload of the engine that makes less of it if that has room, else nothing |
| `ExactSpelling.PlainExactly` | src/broker.c:1448-1487 | a name is spelled as itself exactly when it has at most 107 bytes, no ':' or '/', no caret that opens an escape, and no case variant or none before it; or when it is by chance its own compressed escape, which the lemma describes |
| `ExactSpelling.RefusedExactly` | src/broker.c:1638-1709 | a name cannot be spelled exactly when it is not ordinary, base32 has no room for what cannot stand, and neither engine's payload has room |
| `ExactSpelling.SplitIsHeader` | src/broker.c:1530-1558 | the header kept is the longest of which every byte can be spelled and which every case variant shares |
| `ExactReading.ValidIff` | src/broker.c:1386-1405 | a caret opens an escape exactly when what follows could have been written for some tail: base32 of it and its NUL in whatever case, or a zero and what an engine makes of it |
| `ExactReading.EscapeReads` | src/broker.c:1751-1831 | a header, a caret and such a suffix stand for header and tail, whatever the directory holds, but for the one payload too long for the reading, which is handed back |
| `ExactReading.EscapeUnique` | src/broker.c:1407-1414 | a text has an escape at one place at most |
| `ExactReading.TypedReads` | src/broker.c:1723-1749 | text without an escape, in whatever case, stands for the least entry that folds to it, and for itself if none does |
| `NameMapper.PlainRoundTrip` | src/broker.c:1723-1831 | a name spelled as itself reads back as itself, although the reader picks the first of the entries equal up to case |
| `NameMapper.LiteralRoundTrip` | src/broker.c:1596-1637 | header, caret, base32 of the rest reads back as the name |
| `NameMapper.CompressedRoundTrip` | src/broker.c:1638-1709 | header, caret, '0', DENSE128 of the compressed rest reads back as the name |
| `NameMapper.SplitIsLatest` | src/broker.c:1530-1558 | the split is at or before the first byte that cannot be spelled and every case variant's first difference, and no later place is |
| `Siblings.SiblingsDistinct` | src/broker.c:1461-1709 | two entries of one directory get spellings equal up to case exactly when one of them, spelled plainly, has a ^0 behind the other's header up to case and, behind that, a payload which in upper case the reader takes for the other's tail, packed by the engine preferred for it; every other pairing of plain, base32 and compressed spellings is distinct |
| `Siblings.DistinctByName` | src/broker.c:1461-1709 | from the names alone: unless one of the two has a lower-case letter behind a ^0 their spellings differ |
| `Siblings.ReadsIff` | src/broker.c:1328-1384 | a payload is what the mapper writes for a tail exactly when the reader takes it for that tail and its engine is the preferred one |
| `Siblings.ShadowHasLowerCase` | src/broker.c:1047-1131 | such an entry has a lower-case letter behind a ^0 |
| `Siblings.SiblingsCollide` | src/broker.c:1560-1709 | the failing family is not empty: in a directory of 108 times 'a' and the name ^0yc! both are spelled ^0YC! up to case |
| `Siblings.SplitSeparates` | src/broker.c:1530-1558 | the split point lies at or before the byte where case variants part, so the headers agree and the payloads carry the difference |
| `DirectoryScan.CaseVariantNeedsMapping` | src/broker.c:1461-1487 | the one-pass scan, in whatever order the directory lists its entries, finds whether a case variant exists and the name is not the first of them |
| `DirectoryScan.MatchExistingCase` | src/broker.c:1723-1749 | the one-pass scan, in whatever order, finds the lexically first entry equal up to case, or none |
| `DirectoryScan.LowerSplit` | src/broker.c:1530-1558 | the one-pass scan, in whatever order, lowers the split to the latest one before every case variant's first difference |
| `Paths.WholePathRoundTrip` | src/broker.c:1833-2073 | for every snapshot of the directories and every host path below a volume root whose components all map, resolving the text after the colon yields exactly that host path |
| `Paths.PrintWrites` | src/broker.c:1833-1945 | the printer writes its text so far, the separator due, and the spellings with one slash between any two |
| `Paths.ParsePrinted` | src/broker.c:2020-2073 | the reader walks the same host parents as the printer did and arrives at the same host path |
| `Paths.PrintsExactly` | src/broker.c:1833-1945 | a host path can be named exactly when each component can be spelled in its own parent, the whole name fits the buffer and every host parent its own |
| `Paths.AbsoluteRoundTrip` | src/broker.c:2020-2073 | a path that starts with a slash is read from the root, whatever the current directory, back to the host path it was written for |
| `DeskInvariants.DisconnectInv` | src/broker.c:4584-4608 | after a disconnect no task, port, channel or message record names the closed descriptor, and every message still pending can be answered and its sender told |
| `DeskInvariants.AddPortInv` | src/broker.c:3321-3358 | a port added has a name no port had and belongs to the connection; a request that fails changes nothing; the invariants are kept |
| `DeskInvariants.AttachChannelEnds` | src/broker.c:3115-3161 | attaching again abandons every message delivered to the process, and ends no message in another way |
| `DeskInvariants.AttachChannelInv` | src/broker.c:3115-3161 | the invariants are kept, among them at most one channel for a process |
| `DeskInvariants.RemovePortEnds` | src/broker.c:3804-3828 | removing a port abandons every message sent to it, and ends no message in another way; a request that fails changes nothing |
| `DeskInvariants.PutLeaves` | src/broker.c:3831-3892 | a message refused or whose push fails leaves no record; one taken is pending under the id handed out, for the owner of the port named, its answer to go to the sender's own channel |
| `DeskRequests.PutTakes` | src/broker.c:3831-3892 | a message is taken exactly when the name is a live port's, the sender is known, both processes have channels, a record is free and the push succeeded |
| `DeskRequests.PutRecords` | src/broker.c:3868-3881 | what is recorded of it: a new id, the port and its owner, the sender and the descriptor of the sender's channel; nothing else changes |
| `DeskRequests.ReplyIff` | src/broker.c:3894-3932 | a reply goes through exactly when the message named waits for the process that replies |
| `DeskRequests.AddPortIff` | src/broker.c:3321-3358 | a port is added exactly when its name is one, short enough and unused, its owner is given and a record is free; it is recorded with connection, owner and name |
| `DeskRequests.RemovePortIff` | src/broker.c:3804-3828 | a port is removed exactly when a record has the id |
| `DeskRequests.AttachChannelIff` | src/broker.c:3115-3161 | a process gets its channel exactly when a record is free, its own earlier one counting, and it is recorded with connection and process |
| `DeskRequests.AttachTaskIff` | src/broker.c:3360-3393 | a task is attached exactly when it has a name, short enough, and an owner, and a record is free |
| `DeskRequests.DisconnectTables` | src/broker.c:3028-3062 | a disconnect takes the connection's ports and channels, and no others |
| `DeskRequests.DisconnectTask` | src/broker.c:4584-4596 | and the task it holds, and no other |
| `DeskRequests.DisconnectEnds` | src/broker.c:4584-4596 | a message whose port or receiving process goes is abandoned, one whose sender goes is dropped, and every other stays |
| `DeskInvariants.PutInv` | src/broker.c:3831-3892 | the invariants are kept, among them that every pending message has a live port with that owner, an owner's channel and an open sender |
| `DeskInvariants.ReplyEnds` | src/broker.c:3894-3932 | a reply that goes through ends exactly the message it names, once; any other changes nothing |
| `DeskInvariants.RepliedByOwner` | src/broker.c:3894-3932 | only the process a message was delivered to can have it replied to |
| `DeskInvariants.ForgottenBySender` | src/broker.c:3260-3267 | a message is dropped silently only when the connection its reply would go to closes |
| `BrokerTables.Tables.AbandonMessages` | src/broker.c:3281-3310 | the loop ends exactly the messages hit, one push attempted for each |
| `BrokerTables.Tables.DropMessages` | src/broker.c:3260-3267 | the loop drops exactly the messages of that sender |
| `BrokerTables.Tables.AddPort` | src/broker.c:3321-3358 | the tables are those of the request as a value, in success and in each failure |
| `BrokerTables.Tables.AttachChannel` | src/broker.c:3115-3161 | the earlier channel of the process, if any, is taken out first and its messages abandoned |
| `BrokerTables.Tables.RemovePort` | src/broker.c:3804-3828 | the port named goes, and its messages with it |
| `BrokerTables.Tables.Put` | src/broker.c:3831-3892 | the record is filled in, and cleared again if the push fails |
| `BrokerTables.Tables.Reply` | src/broker.c:3894-3932 | the record is cleared once the owner has replied |
| `BrokerTables.Tables.AttachTask` | src/broker.c:3360-3393 | the first free record is taken, or none |
| `BrokerTables.Tables.DropPorts` | src/broker.c:3028-3037 | port after port, messages first, is one clearing of all the messages to any of them, none counted twice |
| `BrokerTables.Tables.DropChannels` | src/broker.c:3047-3062 | channel after channel is one clearing of all the messages to any of their owners |
| `BrokerTables.Tables.Disconnect` | src/broker.c:4584-4596 | the four drops in their order are the disconnect |
| `BrokerInvariants.RunInv` | src/broker.c:4584-4872 | in every state every run can reach, the privileged operations of PRIVOP, GETCWD and SETCWD included: a session's anchors are the connections that claim it, claimed sessions are in use, ids are unique; in root mode the root shells are the anchored connections, a root shell implies an FMM, a CRM implies an FMM; the idle deadline is armed exactly when there is no connection; and the message invariants hold |
| `BrokerInvariants.GetSessionKeeps` | src/broker.c:824-859 | finding or making a session never takes a claimed one, and hands back one in use under the id asked for |
| `BrokerInvariants.GetSessionFails` | src/broker.c:824-859 | it fails exactly when no session has the id and either the id is too long or every slot is claimed |
| `BrokerCore.Coldest` | src/broker.c:829-845 | the session taken over is unclaimed and was used no later than any other unclaimed one |
| `BrokerRuns.ClaimedSession` | src/broker.c:4584-4608 | a claimed session keeps its slot and id through every step and is freed by exactly the step that closes its last claim |
| `BrokerRuns.ClaimedOverRun` | src/broker.c:3774-3786 | over any run that does not close its last claim a claimed session is the same session |
| `BrokerRuns.MessageFate` | src/broker.c:3831-3932 | over any run an issued message is at every later moment pending, or ended in exactly one way, once, and an end reached is never taken back |
| `BrokerRuns.RunConserves` | src/broker.c:3260-3310 | in every state every run can reach the ids handed out are, as a multiset, those pending and those replied to, abandoned or dropped with their sender: each exactly once |
| `BrokerExact.RecordsStay` | src/broker.c:3831-3932 | over any run, as long as a message is pending its record is the one made when it was sent |
| `BrokerExact.PutServed` | src/broker.c:3831-3892 | from the socket: a PORT_PUT admitted, with all it needs and its push done, leaves exactly its record, and any other leaves the messages as they were |
| `BrokerExact.ReplyServed` | src/broker.c:3894-3932 | from the socket: a PORT_REPLY admitted ends the message it names exactly when that waits for the process that replies |
| `BrokerExact.AddServed` | src/broker.c:3321-3358 | from the socket: a PORT_ADD admitted makes the port exactly when it may |
| `BrokerExact.RemServed` | src/broker.c:3804-3828 | from the socket: a PORT_REM admitted takes the port away exactly when there is one |
| `BrokerExact.ChannelServed` | src/broker.c:3115-3161 | from the socket: a PORT_ATTACH admitted gives a connection that has none its channel exactly when there is room |
| `BrokerExact.TaskServed` | src/broker.c:3360-3393 | from the socket: a TASK_ATTACH admitted gives a connection that has none its task exactly when it may |
| `BrokerExact.AttachServed` | src/broker.c:3774-3786 | from the socket: an ATTACH admitted makes the claim, on the session it names, exactly when it may |
| `BrokerExact.AttachClaims` | src/broker.c:3774-3786 | a claim granted is the connection's and the session's and nobody else's; one refused changes nothing |
| `BrokerExact.RunClocked` | src/broker.c:824-859 | in every state every run can reach, the session a request finds or makes becomes the most recently used of all |
| `BrokerExact.LastShellStops` | src/broker.c:4584-4608 | the privileged services end with the step that drops the last claim, and with no other drop |
| `BrokerExact.PrivilegedExactly` | src/broker.c:2822-2886 | after a privileged operation the access worker and the mount mediator are there exactly when they were or could be made, and the channel did not fail |
| `BrokerExact.CloneMakes` | src/broker.c:4308-4337 | CLONESESSION leaves a session under the child's id exactly when there was one or a slot is unclaimed |
| `BrokerExact.AcceptTakes` | src/broker.c:4610-4630 | a newcomer is taken in exactly when the table has room |
| `BrokerRuns.ForgottenOnlyBySender` | src/broker.c:4584-4608 | no step drops a message silently but the one that closes its sender's connection |
| `BrokerRuns.RepliedOnlyByOwner` | src/broker.c:3894-3932 | no step replies to a message but a PORT_REPLY naming it from the process it was delivered to |
| `BrokerRuns.TurnIsThePolled` | src/broker.c:4850-4862 | going backwards, every poll result is acted on for the connection it was reported for, whatever was dropped before |
| `BrokerRuns.PassInv` | src/broker.c:4850-4862 | a whole pass over the poll results keeps every invariant of the broker |
| `SessionTable.Table.Get` | src/broker.c:824-859 | the single pass with its three candidates does what find, else first free, else coldest unclaimed does |
| `Surface.RastPort.ScrollRaster` | src/aros_graphics_runtime.c:1630-1718 | for every box and every dx, dy: the window shows new[y][x] = old[y+dy][x+dx] where the source is in the box, the fill elsewhere in it, and what it showed outside -- whether by moving the origin, folding back, or moving rows -- and the window stays inside the allocation |
| `Surface.RastPort.ScrollByOrigin` | src/aros_graphics_runtime.c:1583-1618 | the origin path is taken exactly when the margins already show the fill colour, and then shows the same as the copying path |
| `Surface.RastPort.ScrollByCopy` | src/aros_graphics_runtime.c:1684-1713 | row moves away from the vacated edge and two strips of fill make the scroll |
| `Surface.RastPort.FillRect` | src/aros_graphics_runtime.c:902-927 | first row word by word, the others copied from it: exactly the clipped box changes |
| `Surface.RastPort.ResizeTo` | src/aros_graphics_runtime.c:1063-1153 | pixels first, cell table after: the area common to both sizes is kept and all else is background, reusing the allocation, folding back, or rebinding; a table that cannot be had leaves the resized console with its old table and fails; it succeeds exactly for the same size, or a good size whose surface and table can be had |
| `Resizing.FailsSilently` | src/aros_graphics_runtime.c:1063-1153 | a failed call leaves the console alone exactly when the size was bad or a surface was needed and not had; otherwise the console has its new size and its old cell table |
| `Resizing.RetryDoesNothing` | src/aros_graphics_runtime.c:1073-1079 | after such a failure every retry at that size reports success and leaves the old table |
| `Resizing.StaysCovering` | src/aros_graphics_runtime.c:1103-1152 | a call keeps the table and the console together exactly when it succeeded, or left the console alone, or the old table happens to have the new size |
| `Resizing.TornResize` | src/aros_graphics_runtime.c:1103-1152 | the failing input: 800 pixels widened to 900 without memory for the table fails with the console 900 wide and 100 columns, and the retry reports success |
| `Surface.RastPort.RectFill` | src/aros_graphics_runtime.c:1536-1565 | the clipped box takes the colour and is damaged; nothing happens while rendering is deferred |
| `Surface.RastPort.TakeDamage` | src/aros_graphics_runtime.c:1155-1172 | the rectangle is reported and cleared |
| `Surface.RastPort.constructor` | src/aros_graphics_runtime.c:943-1044 | a new console shows the background and is damaged all over |
| `Raster.CopyRun` | src/aros_graphics_runtime.c:1691-1703 | a memmove between rows of the linear buffer changes one run of one row, seen by row and column over the whole buffer |
| `Raster.MoveRowsUp` | src/aros_graphics_runtime.c:1600-1608 | one memmove of whole strides moves whole rows |
| `Surface.OriginMakesScroll` | src/aros_graphics_runtime.c:1567-1582 | with margins of the fill colour moving the whole window is indistinguishable from the scroll |
| `Surface.PartsMakeScroll` | src/aros_graphics_runtime.c:1684-1713 | moved survivors and the two vacated strips are the scroll, pixel by pixel |
| `Console.DamageSound` | src/aros_graphics_runtime.c:828-894 | over every run of drawing, text, scrolling, resizing, rendering and deferring since a take: the rectangle lies inside the console and every visible pixel outside it was visible then and shows what it showed then |
| `Console.NothingToReport` | src/aros_graphics_runtime.c:1155-1172 | when no damage is reported nothing visible has changed since the last take |
| `Console.ScrollMoves` | src/aros_graphics_runtime.c:1659-1668 | positive dx and dy move the pixels left and up |
| `Console.DamageLeast` | src/aros_graphics_runtime.c:828-894 | the rectangle is the least that holds the damage so far and the visible part of the new |
| `Console.DrawLeast` | src/aros_graphics_runtime.c:1536-1565 | so drawing reports no more than it must |
| `CellGrid.ScrollCommutes` | src/aros_graphics_runtime.c:753-811 | for a cell-aligned box and shift and a style without underline, scrolling the cells and rendering shows what rendering and scrolling the pixels shows, in any font whose space has no ink |
| `CellGrid.FillCommutes` | src/aros_graphics_runtime.c:720-747 | the same for filling a cell-aligned box |
| `CellGrid.RenderShowsGrid` | src/aros_graphics_runtime.c:1444-1481 | the background and then each valid cell in turn, clipped to its own box, show each cell where its grid place says |
| `CellTable.Table.ScrollBox` | src/aros_graphics_runtime.c:753-811 | saving the box and writing it back shifted scrolls the cells, succeeds exactly on aligned boxes inside the grid, and changes nothing otherwise |
| `CellTable.Table.Resize` | src/aros_graphics_runtime.c:619-663 | the new table keeps the cells of both sizes if the font is the same, and all else is blank; without a table or a font nothing changes |
| `GridRuns.StepExact` | src/aros_graphics_runtime.c:665-811 | for every truthful state and every text (opaque or not, on cells or between them), fill, cursor or other COMPLEMENT, scroll (memory or not), resize (surface and table had or not), render and deferral: the grid is truthful afterwards exactly when the operation agrees with it; agreeing is a condition on the state before, the font and the operation |
| `GridRuns.After` | src/aros_graphics_runtime.c:665-811 | so over every run of operations that agree: unless the grid changed while rendering was deferred, every visible pixel of a valid cell is the one the cell's glyph puts there, with both pens flipped under the cursor |
| `GridRuns.WindowShowsGrid` | src/aros_graphics_runtime.c:1444-1481 | and so, where cells are valid, the window shows what rendering the grid would, cursor included |
| `GridRuns.FreshInv` | src/aros_graphics_runtime.c:943-1044 | a new console starts such a run |
| `GridTruth.ApartIff` | src/aros_graphics_runtime.c:1726-1848 | the agreement of a run of opaque text on cells: all its glyphs are drawn under one clip, so it agrees exactly when no character changes what another shows on a visible pixel of the grid, which the font, the characters and the room for them decide |
| `TextExact.TextRecords` | src/aros_graphics_runtime.c:1767-1787 | text on cells records, drawn or deferred, in the cell of each character whose whole cell lies before the right edge that character, its style and pens, and no other cell changes; text between cells records nothing |
| `TextExact.TextDraws` | src/aros_graphics_runtime.c:1767-1843 | every visible pixel of such a character takes the run's ink unless rendering is deferred, and no other pixel changes |
| `TextExact.TextShows` | src/aros_graphics_runtime.c:1767-1843 | opaque text on cells whose characters keep apart shows in each such cell its character's glyph |
| `TextExact.FillRecords` | src/aros_graphics_runtime.c:720-747 | a fill blanks exactly the cells all of whose pixels it covers, gives up exactly those it covers in part, and leaves the others |
| `TextExact.ScrollRecords` | src/aros_graphics_runtime.c:753-811 | a scroll the grid follows moves the cells by whole columns and rows, drawn or deferred, and blanks those vacated |
| `TextExact.GiveUpRecords` | src/aros_graphics_runtime.c:689-718 | one it cannot follow gives up exactly the cells it touches |
| `TextInk.FontKeepsIn` | src/aros_graphics_runtime.c:1803-1835 | no run in a font, style and pens ever has one character disturb another exactly when no character inks a cell that is not its own |
| `GridRuns.OneCharacterAgrees` | src/aros_graphics_runtime.c:1726-1848 | a single opaque character on a cell always agrees |
| `GridRuns.TextAgrees` | src/aros_graphics_runtime.c:1726-1848 | opaque text on cells agrees in a font whose characters keep to their cells |
| `GridRuns.PlainAgrees` | src/aros_graphics_runtime.c:1536-1718 | fills and scrolls agree while no cursor is drawn and nothing is underlined |
| `GridRuns.CursorAgrees` | src/aros_graphics_runtime.c:1380-1441 | the cursor can be drawn on any valid cell while it is drawn nowhere else |
| `GridRuns.CursorUndone` | src/aros_graphics_runtime.c:1380-1441 | drawn twice on a cell, the cursor is off and every pixel what it was |
| `GridTruth.ResizeTrue` | src/aros_graphics_runtime.c:1063-1153 | a resize in the same font that changes the console keeps the grid truthful exactly when a pixel gained in a cell of the old grid is what that cell draws there and, if the new table was had, a pixel in no cell of the old grid, kept or gained, is what the new blank draws there; whatever earlier resizes left behind |
| `GridRuns.WholeCellsAgree` | src/aros_graphics_runtime.c:1063-1153 | which holds when the grid reaches every edge of the console, no cell is cut off at an edge the size grows past, and the cursor is in the grid |
| `GridRuns.CutOffCellLies` | src/aros_graphics_runtime.c:1063-1153 | a resize that does not agree: 12 pixels with cells of 8, widened to 16 on another background |
| `GridRuns.TornCellLies` | src/aros_graphics_runtime.c:637-663 | another: one cell widened to two without memory for the table, a character written in the second, and then widened to three, where the new table calls the second cell a blank |
| `GridRuns.OverhangLies` | src/aros_graphics_runtime.c:1803-1835 | a run of two that does not agree: the first character's ink reaches the second cell, which is recorded as a blank |
| `GridRuns.UnalignedTextLies` | src/aros_graphics_runtime.c:1778-1787 | text that does not agree: a character between two cells is recorded in neither |
| `GridRuns.ScrolledCursorLies` | src/aros_graphics_runtime.c:791 | a scroll that does not agree: it forgets the cursor of a row it does not move, which still shows it |
| `ReplyQueue.QueuePreserved` | src/aros_exec_runtime.c:932-1003 | in every interleaving of pops and arrivals WaitIO() takes exactly its own message and leaves all others queued in order of arrival |
| `ReplyQueue.DrainsOn` | src/aros_exec_runtime.c:967-977 | once its message has arrived the drain can always pop, each pop brings the message one place nearer and no arrival puts it back |
| `ReplyPort.Port.Drain` | src/aros_exec_runtime.c:967-977 | on the linked list: the head is unlinked and, unless it is the request's own, chained behind those set aside through its back link |
| `ReplyPort.Port.RestoreAll` | src/aros_exec_runtime.c:932-956 | on the linked list: following the back links from the last, each message pushed to the front restores their order before whatever has arrived since |
| `ReplyPort.Port.Arrives` | src/aros_exec_runtime.c:385-407 | an arrival appends to the list and disturbs neither it nor the chain |
| `ReplyPort.Port.RemoveHead` | src/aros_exec_runtime.c:340-348 | the first message is unlinked, or there is none |
| `AbortHandshake.NoLostWakeup` | src/aros_exec_runtime.c:638-671 | in every interleaving, once AbortIO() has returned the reader is neither asleep nor about to sleep with the flag unseen |
| `AbortHandshake.AbortedRequestFails` | src/aros_exec_runtime.c:720-754 | a request whose flag went up before it finished finishes with error -2, in every interleaving |
| `AbortHandshake.FinishedStays` | src/aros_exec_runtime.c:720-754 | a request that finished before is not touched by an abort |
| `AbortHandshake.AbortCompletes` | src/aros_exec_runtime.c:1024-1045 | after AbortIO() has returned at most six steps of the worker end the request, whatever else happens in between |
| `AbortHandshake.NoDeadlock` | src/aros_exec_runtime.c:638-671 | the two locks never block both threads: a worker neither asleep nor done can move, or AbortIO() holds what it needs and can let go |
| `ReadOutcome.OutcomeExactly` | src/aros_exec_runtime.c:638-754 | in every interleaving a finished read reports no error exactly when input was fetched and the flag was not up at the report, and -2 otherwise; as much as there was at the fetch, up to what was wanted, or nothing if it was given up |
| `ReadOutcome.OrdinaryRead` | src/aros_exec_runtime.c:638-754 | a read nobody aborts, of a unit nobody closes, reports no error and as much as there was when it fetched, up to what it wanted |
| `ReadOutcome.InputConserved` | src/aros_exec_runtime.c:657-668 | in every interleaving the input there at first and fed since is what others took, what the request was given and what is still there |
| `ReadOutcome.NeverSleepsOnInput` | src/aros_exec_runtime.c:645-655 | in every interleaving the worker is never asleep, nor about to be, with input to read or the unit closing |
| `PrivilegeInvariants.RunInv` | src/ace_fmm.c:460-671 | in every interleaving of client, supervisor, volume worker and CRMs: at most one request is anywhere between a client and its answer; every request read has had exactly one reply attempted, in order, but for the one being forwarded; volume operations ran only in the volume worker and only if granted, access operations only in a CRM |
| `PrivilegeInvariants.RepliesDistinct` | src/ace_fmm.c:394-450 | on no connection, to the supervisor or to any CRM, do two replies go out under one id: their ids rise |
| `PrivilegeInvariants.NeverStale` | src/ace_fmm_client.c:587-634 | on every connection, whatever a client took for an answer was made for the very request it had sent |
| `PrivilegeInvariants.ReceiveMatches` | src/ace_fmm_client.c:587-634 | a reply at hand always answers the very request waited for, so the foreign-id branch is never taken against an honest peer |
| `PrivilegeInvariants.ClosedForGood` | src/ace_fmm_client.c:599-631 | on every connection: after a timeout or a failure nothing is ever sent or accepted again, so a late reply is never taken for a later request |
| `PrivilegeInvariants.RelayInv` | src/ace_fmm.c:394-450 | the worker's answer always carries the id forwarded and is relayed as it came |
| `PrivilegeInvariants.OpenInv` | src/ace_crm.c:502-573 | a CRM answers each request once and performs access operations only |
| `PrivilegeInvariants.WorkInv` | src/ace_fmm.c:533-546 | the volume worker answers each request once and performs granted volume operations only |
| `PrivilegeTruth.RunTruth` | src/ace_fmm.c:394-546 | in every state every run can reach every answer on its way or accepted is true: what the supervisor says itself is what it does, a granted volume operation has the worker's own answer or the host failed, an access operation answered was performed by that CRM |
| `PrivilegeTruth.VolumeAnswer` | src/ace_fmm.c:394-450 | over every run a volume operation a client accepted as done was performed by the volume worker, and the status accepted is the one the worker gave |
| `PrivilegeTruth.AccessAnswer` | src/ace_crm.c:502-573 | over every run an access operation answered was performed by the CRM asked, and the status accepted is the one it gave |
| `PrivilegeTruth.PerformedOnce` | src/ace_fmm.c:533-546 | over every run the worker has performed each request it read once, in the order they were sent |
| `PrivilegeTruth.DispatchForwards` | src/ace_fmm.c:533-537 | a granted volume request with the channel open and the send done is in the worker's inbox, and no reply has been attempted |
| `PrivilegeTruth.VolumeServed` | src/ace_fmm.c:394-546 | forward, work, relay and receive perform such a request and give the client the worker's status |
| `PrivilegeTruth.AccessServed` | src/ace_crm.c:502-573 | an access request to a live CRM is performed and its status accepted |
| `PrivilegeTruth.SendsExactly` | src/ace_fmm_client.c:587-634 | a request goes out, under an id of its own, exactly when the connection is open, nothing is awaited and the send succeeds |
| `PrivilegeTruth.ClosesExactly` | src/ace_fmm_client.c:587-634 | against an honest peer a connection closes exactly when a send fails or an answer is given up |
| `PrivilegeTruth.EndsExactly` | src/ace_fmm.c:394-671 | the supervisor ends exactly when told to, when a new worker's channel cannot be handed over, or when an answer cannot be relayed |
| `PrivilegeTruth.SpawnsExactly` | src/ace_fmm.c:253-318 | a SPAWN_ACCESS makes one access worker exactly when it succeeds and its channel is handed over |
| `PrivilegeAccess.AccessNeedsSpawn` | src/ace_fmm.c:253-318 | over every run an access operation has been performed only if a SPAWN_ACCESS succeeded |
| `PrivilegeAccess.SpawnGivesAccess` | src/ace_fmm.c:253-318 | whenever one succeeds any access operation can be performed two steps later, the access class granted or not: that only granted access operations are performed is not true of the code |
| `PrivilegeAccess.UngrantedAccess` | src/ace_fmm.c:253-318 | the failing input: four steps with the access class not granted |
| `PrivilegeClient.Connection.Ask` | src/ace_fmm_client.c:587-634 | the whole call leaves id counter and closed flag as send, wait and receive do, and returns a reply exactly when one is accepted; a closed connection refuses whatever is still in the pipe, and an oversized payload is refused without using an id or closing |
| `MountLedger.LedgerExact` | src/ace_fmm_volume.c:360-719 | over every run of namespace requests, MOUNT, BIND and UNMOUNT: the entries in use are exactly the mounts made and not detached, no place is mounted twice, keys are distinct |
| `MountLedger.NothingAfterFailure` | src/ace_fmm_volume.c:392-429 | once the one attempt at a namespace has failed nothing is ever mounted |
| `MountLedger.ShutDownEmpties` | src/ace_fmm_volume.c:786-819 | shutdown takes down every mount and leaves no entry in use |
| `MountLedger.ViewInv` | src/ace_fmm_volume.c:477-550 | a repeated request changes nothing: an entry in use always stands for a mount, so no second one is stacked |
| `MountLedger.ViewMakes` | src/ace_fmm_volume.c:477-550 | a view granted is mounted, and no other place is disturbed |
| `MountLedger.UnmountTakes` | src/ace_fmm_volume.c:693-719 | an unmount granted takes down that mount and no other |
| `MountRequests.BindKeyInjective` | src/ace_fmm_volume.c:622 | two filesystems bound under one key are one filesystem |
| `MountRequests.BindKeyIsName` | src/ace_fmm_volume.c:622 | a bind key is also a name a device could have: a device so named would share its view |
| `MountRequests.ViewGrants` | src/ace_fmm_volume.c:477-550 | a view is granted exactly when its place is not too long, it is there or can be mounted and entered, and the reply fits |
| `MountRequests.ViewMounts` | src/ace_fmm_volume.c:477-550 | and a mount is made, whether or not the reply fits, exactly when it was not there and all else is met |
| `MountRequests.MountGrants` | src/ace_fmm_volume.c:431-550 | MOUNT succeeds exactly when device, type, namespace and root are good and the view is granted |
| `MountRequests.BindGrants` | src/ace_fmm_volume.c:599-691 | BIND the same for a filesystem whose key is short enough |
| `MountRequests.UnmountGrants` | src/ace_fmm_volume.c:693-719 | UNMOUNT succeeds exactly when the device has a view and it was detached, and takes that mount away |
| `MountRequests.StartExactly` | src/ace_fmm_volume.c:392-429 | the namespace is there exactly when it was, or had not failed before and the host makes it |
| `MountTable.Worker.StartNamespace` | src/ace_fmm_volume.c:422-429 | the one attempt, its failure remembered |
| `MountTable.Worker.Mount` | src/ace_fmm_volume.c:431-550 | every refusal leaves the ledger alone; a mount that finds no free entry is taken down at once |
| `MountTable.Worker.Bind` | src/ace_fmm_volume.c:599-691 | the same under the key fs-major-minor |
| `MountTable.Worker.Unmount` | src/ace_fmm_volume.c:693-719 | the entry is freed only when the detach succeeded |
| `MountTable.Worker.ShutDown` | src/ace_fmm_volume.c:786-819 | the backward loop takes down the entries one by one |
| `TitleFilter.Lossless` | src/amiga_console.c:1184-1264 | for every byte stream: the bytes passed, with the recognised title sequences put back where they were, and the prefix still held, are the stream; the title and its NUL always fit the buffer |
| `TitleFilter.ChunksDoNotMatter` | src/amiga_console.c:1180-1186 | however the stream is cut into reads, the bytes passed, the titles and the state are those of one read of it all |
| `TitleFilter.TitleTaken` | src/amiga_console.c:1236-1258 | between sequences a title sequence is taken out whole exactly when the title has no ESC, no BEL and fits the buffer |
| `TitlePieces.StreamExactly` | src/amiga_console.c:1184-1264 | however a stream is made of single bytes, title sequences, sequences broken off and an unfinished rest: the titles come out as titles, every other piece as it is, and the rest is held |
| `TitlePieces.EveryStream` | src/amiga_console.c:1184-1264 | every stream is made so |
| `TitleConsole.Window.Output` | src/amiga_console.c:1184-1264 | the byte loop with its two fixed buffers gives the device and the title bar what the filter says, for every read |
| `TitleConsole.Window.OutputByte` | src/amiga_console.c:1167-1178 | a full buffer is written out first: what was sent or gathered grows by exactly the byte |

## Left out

- DEFLATE and its preset dictionary: a pair of functions of which only "inflating undoes compressing" is used.
- Containment of resolved paths.
- The path walks of `Paths` and the marker search of `Escape` are modelled on values, not as loops on buffers; the case where raw and canonical host path have different numbers of components (src/broker.c:1915-1919) is not modelled.
- Parsing of numbers in requests (`strtol`, `strtoull`): a request carries the number or that there was none; ids are unbounded, so the wrap to 1 after 2^64 is not modelled.
- Broadcast ports, task signals, tallies, variables, assigns, the text of current directories and the copy CLONESESSION makes: they touch none of the invariants; the privileged operations of GETCWD and SETCWD are modelled, with any outcome.
- The malformed-request paths of the broker (bad magic, bad lengths): the connection is dropped, which is a close.
- Palette and font changes are not related to the grid.
- Surface and cells are fields of one structure in the source and two classes here; `cell_record`, `cell_invalidate_box` and `cell_fill_box` are values, not loops.
- GridRuns.After: the font and the palette are the same throughout a run, and nothing is claimed between a change made while rendering is deferred and the next render.
- Glyph drawing by cairo: on the plain console an arbitrary picture inside its clip; in the grid, for each character, style and pen, an arbitrary change of the pixels in its cell and past it, none for a space. Characters that overlap are taken to be painted one after the other.
- MountTable.Worker.ShutDown: takes every detach to succeed, and does not model the directories removed.
- MountLedger.LedgerExact: takes a detach to take effect when it is reported to, including the one that undoes a mount for want of a free entry.
- PrivilegeInvariants.RunInv: clients send well-formed records only, so the replies to a bad magic or an oversized payload are not modelled; handshake, credentials and the deadline are not either.
- What CRM operations do to files (openat2 resolution, path splitting): operating-system behaviour; a CRM performs an access operation or does not.
- AbortHandshake.NoLostWakeup: one reader per request; other users of the unit are single critical sections.
- ReplyQueue.QueuePreserved: one task drains the port, and no message is queued twice.
- Timers, clipboard, pools, semaphores, fonts, windows, menus, speech, the command-line tools and the broker's client library.
