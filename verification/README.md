# A verified model of the USB/IP virtual-device library

This Dafny project models the logic of a library that emulates USB devices over USB/IP, together
with its libusb and libusbK wrappers and some of its example programs, and proves what that logic
is for. Sockets, threads and files become byte streams, interleaved steps and finite trees.

Each component has a specification in plain functions, an imperative class or method in the form
the C code has (queues, buffers patched in place, rings, loops), proved equal to the specification,
and theorems over all inputs, all runs or all interleavings.

| component | files | main results |
|---|---|---|
| IN endpoint engine | `Endpoint`, `Interleaving`, `StreamRefinement`, `Unlinking`, `PendingList`, `Pipe`, `PipeRuns` | parked URBs and queued data never coexist; every URB is accounted for exactly once; with one writer the completions are the written bytes cut by the URBs; exactly when an unlink stops its URB, and when it loses others |
| mass storage | `Scsi`, `BulkOnly`, `BotHost`, `Storage`, `ReadBack`, `MassStorage` | Bulk-Only Transport stays in step over every session; reads return the last blocks written, what a WRITE sends a READ of the same blocks returns, and any OUT traffic stores only completed writes; sense is per unit; when a WRITE never completes |
| JPEG entropy coder | `Bits`, `BitWriter`, `Huffman`, `ZigZag`, `EntropyCoder`, `JpegScan`, `AnnexK` | canonical Huffman codes are prefix-free; every scan decodes to the coefficients it was given, with tables rebuilt from the four lists announced |
| descriptor builder and parser | `Allocation`, `Builder`, `DeviceBuilder`, `ConfigParser`, `BuilderRoundTrip`, `HostView`, `Rollback`, `BuildRuns` | the host parses exactly what was appended and not aborted, with the addresses allocated; endpoint numbers are never shared; exactly when an aborted group leaves nothing |
| Microsoft OS 2.0 descriptors | `MsOs`, `MsOsEmitter` | size and bytes agree; the set parses back to the advertisements |
| wire framing | `Wire`, `Transfers`, `Iso` | both ends consume exactly what the other wrote; isochronous packets land in their slots |
| video | `Uvc`, `UvcStream` | the host recovers exactly the frames sent |
| libusb transfers | `AsyncQueue` | order, cancellation and wake-ups over every interleaving |
| Bluetooth, MTP data phase | `Bluetooth`, `MtpReceive` | how a stream is cut into transfers does not matter, and exactly when |
| MTP objects | `MtpTable`, `MtpTree`, `MtpPaths`, `MtpObjects` | after any rescans and renames the handle tree is the path tree; exactly when a rename keeps handles |
| libusbK streams | `StreamSlots`, `StreamRings` | each slot in one place, rings never overwritten, data in order |
| isochronous pacing | `Pacer` | order, deadlines, no drift |

`Bytes` holds byte order and sequence helpers. Run `dafny verify dfyconfig.toml`.

Where the code does something its callers would not expect, the model keeps the code and the
theorem says exactly when: an unlink of the tail URB makes the next park lose the others
(`Unlinking.ParkAfterUnlink`), a WRITE of no blocks never gets its status and swallows the next
command (`Storage.WriteCompletesIff`), interface number 255 reserves nothing
(`Allocation.ReservedIsGrantedIff`), an aborted group leaves traces when a step of it re-declared an
older alternate, counted an endpoint in an older descriptor or took a slot an older endpoint held
(`Rollback.AbortRestoresIff`, with `Rollback.OldInterfaceKeepsCount` and `Rollback.ReusedSlotIsLost`
as cases), the endpoints of an alternate without a record are not counted
(`BuilderRoundTrip.CountsAreExact`), the host does not see interface and endpoint descriptors cut
shorter than their layout (`BuilderRoundTrip.InterfaceSeenIff`, `BuilderRoundTrip.EndpointSeenIff`),
an unlink does not stop the completion of a URB that is no longer parked
(`Unlinking.UnlinkStopsIff`) nor a cancel a transfer that is no longer queued
(`AsyncQueue.FirstCancelSparesIff`), Bluetooth drops a partial PDU when PDU and transfer are too large
together (`Bluetooth.ChunkingInvariantIff`), and a dead table entry at the new path
takes over a renamed object's handle (`MtpTree.RenameHandleIff`, with the run in `MtpTree.RenameOntoDead`).

## Model

| member | source | states |
|---|---|---|
| Endpoint.Limit | src/usbip_device.c:875-878 | how many of the bytes at hand a URB takes: never more than there are, never more than its length unless that is 0, and fewer only when its length is used up |
| StreamRefinement.TakeSliceCuts | src/usbip_device.c:1747-1762 | an IN URB gets the front of the oldest write, as much as it asks for, and what stays queued is the rest of that write and all later ones |
| Interleaving.QueueInvStep | src/usbip_device.c:858-894 | at every lock release of every step (many writers, dispatch, stall, clear, unlink) the parked list and the data queue are never both non-empty |
| Interleaving.PlacesStep | src/usbip_device.c:1626-1855 | each step keeps every URB in exactly one place: parked, in a thread's hand, waiting for its stall, answered on the wire, unlinked, or dropped |
| Interleaving.RunInvariant | src/usbip_device.c:1626-1855 | over every run from a fresh endpoint: never both queues non-empty, and every submitted URB is accounted for exactly once |
| StreamRefinement.UnsentConserves | src/usbip_device.c:858-894 | the reference: pieces cut off the writes, followed by what is unsent, are the bytes written, none lost, repeated or reordered |
| StreamRefinement.PiecesAreCuts | src/usbip_device.c:1747-1762 | a piece holds bytes of exactly one write, is no longer than its URB asked, and is short only when it ends that write |
| StreamRefinement.AllPiecesAreCuts | src/usbip_device.c:1747-1762 | the same for every piece of a sequence of completions |
| StreamRefinement.PiecesDetermined | src/usbip_device.c:858-894 | the URB lengths and the writes determine the pieces: no other sequence of cuts fits them |
| StreamRefinement.RunStream | src/usbip_device.c:858-894 | with one writer every step keeps the completed pieces, the piece in hand and the backlog in step with the reference |
| StreamRefinement.StreamDelivered | src/usbip_device.c:1743-1787 | over any run of write, submit, stall, clear-halt and unlink, the payloads completed followed by the unsent queue are the bytes written |
| Unlinking.UnlinkedIsFinal | src/usbip_device.c:1804-1829 | a URB removed by an unlink is never completed afterwards |
| Unlinking.UnlinkStopsIff | src/usbip_device.c:1804-1829 | unlinking a URB not answered yet keeps it off the wire in every run that goes on from there if and only if it is parked; one popped by a writer or taken by a stall is still sent |
| Unlinking.NothingDropped | src/usbip_device.c:1779-1783 | as long as no unlink removes the last of several parked URBs, no park ever drops one |
| Unlinking.ParkAfterUnlink | src/usbip_device.c:1821-1827 | a park after an unlink loses parked URBs if and only if that unlink removed the tail and left others |
| Unlinking.TailLossExample | src/usbip_device.c:1821-1827 | a run from a fresh endpoint, for any four reads: three are parked, the newest is unlinked, the fourth is parked, and the first two are gone with nothing on the wire |
| Unlinking.DroppedIsLost | src/usbip_device.c:1779-1783 | a URB a park dropped never reaches the wire at any later state of the run |
| PendingList.PendingList.ParkUrb | src/usbip_device.c:1769-1784 | the linked list grows as the endpoint's parked list does, dropping old nodes exactly when the tail pointer is NULL |
| PendingList.PendingList.PopHead | src/usbip_device.c:869-873 | popping the head node is popping the first parked URB; the tail becomes NULL with the last |
| PendingList.PendingList.UnlinkSeqnum | src/usbip_device.c:1815-1829 | the pointer-to-pointer walk removes exactly the URBs with the sequence number, and clears the tail exactly when it removed it |
| PendingList.PendingList.TakeAll | src/usbip_device.c:652-659 | a stall detaches the whole list |
| Pipe.Pipe.WriteData | src/usbip_device.c:858-894 | a whole write without interference is the specification Pipe.Write |
| Pipe.Pipe.DispatchIn | src/usbip_device.c:1643-1787 | a whole IN dispatch without interference is Pipe.Dispatch |
| Pipe.Pipe.StallEndpoint | src/usbip_device.c:648-668 | a stall halts the endpoint and fails every parked URB; queued data stays |
| Pipe.Pipe.ClearHaltFeature | src/usbip_device.c:670-678 | clearing the halt changes nothing else |
| PipeRuns.WriteIsRun | src/usbip_device.c:858-894 | Pipe.Write is the run of the concurrent machine's lock sections in which no other thread comes between |
| PipeRuns.DispatchIsRun | src/usbip_device.c:1643-1787 | Pipe.Dispatch is such a run of submit, halt check, serve or park, and send |
| PipeRuns.HaltIsRun | src/usbip_device.c:648-668 | Pipe.Halt is such a run of a stall and its sends |
| Scsi.StoredBlock | src/classes/device/msc.c:843-846 | a stored block reads back as written and every other block keeps its bytes |
| Scsi.ReadIsBlocks | src/classes/device/msc.c:607-627 | a read is exactly the blocks it names, one after the other |
| Scsi.ReadCommand | src/classes/device/msc.c:607-627 | READ(10) and READ(12): the block number is the big-endian word at byte 2 and the count is bytes 7 to 8 or 6 to 9, written as bytes; an answer is exactly those blocks, a range past the end or a failing backend is refused with its sense code |
| Scsi.WriteCommand | src/classes/device/msc.c:629-656 | WRITE(10) and WRITE(12): the data awaited are for the blocks that the same bytes of the command name, as many bytes as those blocks have; a read-only unit and a range past the end are refused |
| Scsi.CapacityCommand | src/classes/device/msc.c:566-606 | READ CAPACITY(10) and (16) report the number of the last block, all ones when there is none, and the block size, big-endian |
| Scsi.SenseCommand | src/classes/device/msc.c:658-670 | REQUEST SENSE answers 18 bytes of current fixed-format sense with the recorded key and codes at bytes 2, 12 and 13 |
| Scsi.OtherCommands | src/classes/device/msc.c:671-761 | which of the remaining commands answer, succeed silently or are refused as unknown |
| Scsi.WriteThenRead | src/classes/device/msc.c:607-656 | blocks stored and read again are the data stored |
| BulkOnly.ParseWire | src/classes/device/msc.c:862-866 | parsing a CBW's 31 bytes gives back its tag, length, direction, unit and command |
| BulkOnly.OnOutValid | src/classes/device/msc.c:833-879 | every OUT transfer, well formed or not, keeps the transport state valid: a write in flight stays within its unit and its buffer within its need |
| BotHost.StatusRead | src/classes/device/msc.c:335-342 | the 13-byte status read takes exactly the queued CSW |
| BotHost.DataThenStatus | src/classes/device/msc.c:358-369 | data and CSW queued one after the other are never merged: the next URB takes the data and no more |
| BotHost.WriteCollected | src/classes/device/msc.c:838-858 | however the host cuts the data of a write, the backend gets all of it, once |
| BotHost.AnsweredExchange | src/classes/device/msc.c:543-761 | every command but an accepted write completes: data or a stall, then a CSW with its own tag and the residue that is missing from the data |
| BotHost.ExchangeCompletes | src/classes/device/msc.c:833-879 | every meaningful exchange completes, reads and writes alike, and leaves both pipes idle and un-halted |
| BotHost.SessionStaysInStep | src/classes/device/msc.c:335-384 | over every session each CSW read carries the tag of its own command, bytes delivered plus residue are dCBWDataTransferLength, and between commands nothing is queued, parked, halted or being written |
| Storage.OnOutFrame | src/classes/device/msc.c:833-879 | one OUT transfer: only a write in flight changes a medium and only the unit its CBW named, only a command changes sense, shapes never change |
| Storage.ReadOnlyKept | src/classes/device/msc.c:638-641 | whatever the host sends, a read-only unit keeps every byte |
| Storage.WriteIsItsBytes | src/classes/device/msc.c:838-858 | after any OUT traffic and resets, a write in flight is one whose CBW was accepted, and what it has got is exactly the bytes sent since |
| Storage.TrafficStores | src/classes/device/msc.c:833-858 | after any OUT traffic and resets, a block changes only when a transfer completes a write on its unit, and then holds its part of the bytes sent since that write's CBW, cut to what it needs, where the block is one of those that the CBW's own bytes name; a failing backend may leave anything on that unit |
| Storage.BlocksAreLastWritten | src/classes/device/msc.c:838-858 | over every session, with reads and writes the backend may fail, every block of every unit holds the data of the last WRITE whose command bytes name it, or what a failed write left there |
| Storage.ReadReturnsLastWritten | src/classes/device/msc.c:607-627 | a READ after any session returns, for each block it names, the last data written to it |
| ReadBack.WriteReadBack | src/classes/device/msc.c:607-656 | in any session, what a WRITE(10) or (12) sends to a unit, a later READ naming the same blocks returns, as long as no other write was handed to that unit in between |
| Storage.SenseIsRecorded | src/classes/device/msc.c:371-384 | each unit's sense is the last refusal charged to it since its last REQUEST SENSE; refusals for missing units go to unit 0 |
| Storage.RequestSenseReports | src/classes/device/msc.c:658-670 | REQUEST SENSE reports exactly its own unit's recorded sense |
| Storage.WriteCompletesIff | src/classes/device/msc.c:647-656 | a well-formed WRITE completes if and only if it asks for at least one byte |
| Storage.EmptyWriteSwallowsNext | src/classes/device/msc.c:838-858 | the status of a WRITE of no blocks comes only with the next CBW, under the old tag, and that command is never run |
| MassStorage.MassStorage.Receive | src/classes/device/msc.c:833-879 | the class with the source's fields does exactly what the transport function says, for every OUT transfer |
| MassStorage.MassStorage.DispatchCommand | src/classes/device/msc.c:543-761 | a dispatched command changes units, pipes and write state as the specification says |
| MassStorage.MassStorage.BulkOnlyReset | src/classes/device/msc.c:824-829 | a Bulk-Only reset drops the write in flight and nothing else |
| ZigZag.TableIsWalk | examples/device/video/jpeg.c:30-34 | the ZZ table is the walk along the diagonals of the 8x8 block: every square is where the walk meets it |
| ZigZag.PlacedOrdered | examples/device/video/jpeg.c:193-194 | placing coefficients received in zig-zag order gives back the block |
| Huffman.CodeFits | examples/device/video/jpeg.c:71-84 | every code handed out fits its length |
| Huffman.PrefixFree | examples/device/video/jpeg.c:71-84 | for every Kraft-feasible list, two codes that both start the same bits are the same code |
| Huffman.SymbolRoundTrip | examples/device/video/jpeg.c:71-84 | whatever bits follow a code, decoding gives back its symbol and those bits |
| Huffman.NextFits | examples/device/video/jpeg.c:75-83 | the 16-bit running code is the true code for every symbol still to come: it can wrap only when the list is exhausted |
| Huffman.HuffTable.Build | examples/device/video/jpeg.c:71-84 | the filled tables are the canonical code of the list (Annex C of ITU-T T.81), and hold nothing else |
| BitWriter.UnstuffStuff | examples/device/video/jpeg.c:108-108 | removing the stuffed zeros undoes byte stuffing |
| BitWriter.OrDisjoint | examples/device/video/jpeg.c:103-103 | OR of bits that do not overlap is addition: what makes the accumulator a bit string |
| BitWriter.ShiftOut | examples/device/video/jpeg.c:105-111 | taking the top octet of the 24-bit window and shifting leaves exactly the remaining bits at the top |
| BitWriter.BitWriter.PutByte | examples/device/video/jpeg.c:92-95 | a byte is stored when there is room; the length counts on and the flag falls when there is not |
| BitWriter.BitWriter.PutBits | examples/device/video/jpeg.c:102-112 | put_bits appends exactly the low bits of the code to the bit string written, whatever the state of the accumulator |
| BitWriter.BitWriter.Flush | examples/device/video/jpeg.c:113-118 | bit_flush pads to a byte boundary with fewer than eight ones |
| EntropyCoder.Magnitude | examples/device/video/jpeg.c:121-130 | the loop computes the number of magnitude bits and the 16-bit word, one's complement for negatives |
| EntropyCoder.ExtendAmplitude | examples/device/video/jpeg.c:121-130 | EXTEND of Annex F gives back the value whose magnitude bits were sent |
| EntropyCoder.AcRoundTrip | examples/device/video/jpeg.c:192-209 | run-length decoding gives back the AC coefficients from any position, with ZRL for long runs and EOB only for trailing zeros |
| EntropyCoder.BlockRoundTrip | examples/device/video/jpeg.c:183-209 | every block with DC category at most 11 and AC categories at most 10 decodes to itself, whatever follows it |
| JpegScan.ScanRoundTrip | examples/device/video/jpeg.c:268-291 | every sequence of macroblocks decodes to itself, each component with its own DC prediction |
| JpegScan.MarkerIsAfterSegment | examples/device/video/jpeg.c:108-108 | no stuffed segment holds a marker: the first one is the EOI behind it |
| JpegScan.PutAc | examples/device/video/jpeg.c:199-206 | the ZRL loop and the run/size symbol emit exactly the bits of the reference for one coefficient |
| JpegScan.EncodeBlock | examples/device/video/jpeg.c:171-210 | the integer part of encode_block appends exactly the block's bits and returns the new DC prediction |
| JpegScan.EncodeScan | examples/device/video/jpeg.c:265-293 | what is written after the headers ends in FF D9 and, read back to the first marker, unstuffed and decoded with any tables that code as the encoder's do, is the coefficients given, with only padding ones left over |
| AnnexK.FeasibleIff | examples/device/video/jpeg.c:37-62 | a list of code counts is Kraft-feasible exactly when its codes of full length fit in 16 bits |
| AnnexK.ListsAll | examples/device/video/jpeg.c:42-69 | the AC lists name each of the 162 symbols the coder sends exactly once |
| AnnexK.BuildTables | examples/device/video/jpeg.c:228-232 | the four tables are the canonical codes of the four Annex K lists, each in its place: luma and chroma, DC and AC; each has a code for every symbol the coder can send |
| AnnexK.EncodeImage | examples/device/video/jpeg.c:220-294 | table building and scan together: a decoder that builds its own tables from the four lists announced gets the coefficients back from the bytes written, luma with the luma pair |
| Allocation.Alloc | src/usbip_device.c:518-535 | allocation fails exactly when the wanted number cannot be granted and none of the fifteen is vacant; otherwise it grants the wish or the lowest vacant number |
| Allocation.NeverShared | src/usbip_device.c:505-535 | after any sequence of appends and reservations no two interfaces hold the same number and direction, and the plug-time conflict check passes |
| Allocation.RunKeepsClaim | src/usbip_device.c:691-705 | a claimed number stays its interface's through any appends and reservations by anybody |
| Allocation.ReservedIsGrantedIff | src/usbip_device.c:691-705 | a reserved number is what its interface later gets, after anything, if and only if the interface number is not 255 or already holds it |
| Builder.AppendEndpoint | src/usbip_device.c:575-612 | an endpoint append is refused exactly when the endpoint table is full or no number can be allocated |
| Builder.EndpointStep | src/usbip_device.c:565-613 | byte for byte: an accepted endpoint append records number, direction, owner, type, packet size and interval from the descriptor, takes one slot and its reservation, writes the address chosen into byte 2, and counts byte 4 of the open alternate; nothing else changes |
| Builder.InterfaceStep | src/usbip_device.c:550-564 | an accepted interface append opens its pair of numbers, registers the interface number and records where the descriptor is |
| ConfigParser.WalkMeets | wrapper/libusb-1.0/libusb.c:766-820 | walking descriptors laid end to end meets exactly those descriptors |
| ConfigParser.WalkIsTree | wrapper/libusb-1.0/libusb.c:766-820 | the walk builds the tree of sections: each interface descriptor with the endpoints and extras up to the next, and each endpoint has the address, attributes, packet size and interval at bytes 2, 3, 4 to 5 and 6 of its descriptor |
| ConfigParser.NumbersAreDistinct | wrapper/libusb-1.0/libusb.c:822-842 | interface numbers are grouped without repeats, and no alternate is without a group while a bucket is left |
| ConfigParser.ParseConfig | wrapper/libusb-1.0/libusb.c:744-893 | the loops of parse_config compute exactly the walk, the buckets and the grouped alternates, with the error cases for short or wrong headers |
| ConfigParser.Collect | wrapper/libusb-1.0/libusb.c:766-820 | the position-advancing loop, stopping at a zero length or a cut-off descriptor, collects exactly the walk |
| ConfigParser.Buckets | wrapper/libusb-1.0/libusb.c:822-842 | each alternate gets the bucket of its interface number in first-appearance order, or none past the sixty-fourth |
| BuildRuns.HostReadsBuild | src/usbip_device.c:537-615 | from an empty device, any build steps with standard descriptors, with groups begun and aborted: the host parses the descriptors accepted and not aborted in order, as given but for filled lengths, allocated addresses and endpoint counts; its tree is the one their bytes say, its endpoint addresses are those of the builder's endpoints, and a bNumEndpoints left 0 is the number of endpoints parsed for exactly the alternates that have a record or no endpoint |
| HostView.HostTreeIs | wrapper/libusb-1.0/libusb.c:744-893 | what the host parses of the served configuration, in terms of descriptor bytes: interfaces are the alternates by byte 2 in order of appearance, each alternate has its own numbers and the endpoints up to the next, each endpoint has bytes 2 to 6 of its descriptor |
| HostView.HostAddressesAllocated | src/usbip_device.c:589-600 | the addresses the host parses are, in order, those of the endpoints the builder holds: the number, with 128 added exactly for IN |
| HostView.ServedHead | src/usbip_device.c:1322-1341 | the nine bytes in front of the served configuration: length 9, type 2, the little-endian total length and the number of interfaces |
| BuilderRoundTrip.CountsAreExact | src/usbip_device.c:604-612 | a bNumEndpoints the author left 0 is the number of endpoints in its section if and only if there are none or the alternate's pair of numbers is one of the first 64 |
| BuilderRoundTrip.InterfaceSeenIff | wrapper/libusb-1.0/libusb.c:772-790 | the host sees one alternate more after an accepted interface descriptor if and only if its length is at least 9 |
| BuilderRoundTrip.EndpointSeenIff | wrapper/libusb-1.0/libusb.c:791-812 | the host sees one endpoint more after an accepted endpoint descriptor of any length if and only if its length is at least 7 and an interface was opened before it |
| BuilderRoundTrip.ServedParses | src/usbip_device.c:1322-1341 | walking the served configuration gives the tree of the descriptors held |
| BuilderRoundTrip.TraceEndpoint | src/usbip_device.c:565-613 | an endpoint append patches its own address and one count byte of the open alternate, and nothing else |
| Rollback.BuildConsistent | src/usbip_device.c:1861-1879 | whatever was built, with groups aborted that touched nothing older, the plug-time check for endpoint conflicts passes and every record points into the blob |
| Rollback.ReservationHolds | src/usbip_device.c:691-705 | the address usbip_device_reserve_endpoint returned is the one the interface's endpoint gets, after any further build steps, with groups begun and aborted among them |
| Rollback.StepSince | src/usbip_device.c:537-615 | one step inside a group spares what was there at its start if and only if it opens no alternate recorded then, counts no endpoint in a byte of then and takes no slot held then; damage done is never undone by a later step |
| Rollback.AbortRestoresIff | src/usbip_device.c:763-827 | group_begin, any steps, group_abort: every field of the builder is as before if and only if no step opened an alternate recorded before, counted an endpoint in a byte that was there before, or took a slot held before |
| Rollback.AbortRestores | src/usbip_device.c:763-827 | so it is whenever the group's interfaces are first opened in it and its endpoints belong to them |
| Rollback.AlwaysTabled | src/usbip_device.c:787-800 | after any steps and aborts at all, every slot in use is held by an endpoint of that number and direction: what the abort's own loop relies on |
| DeviceBuilder.DeviceBuilder.AllocNumber | src/usbip_device.c:518-535 | the allocation loop returns what the specification allocates |
| DeviceBuilder.DeviceBuilder.AddDescriptor | src/usbip_device.c:537-615 | appending in place (copy, patch, roll back the length on failure) is the specification's append; a refused descriptor leaves the state unchanged |
| DeviceBuilder.DeviceBuilder.ReserveEndpoint | src/usbip_device.c:691-705 | reserving in place is the specification's reservation |
| DeviceBuilder.DeviceBuilder.BeginGroup | src/usbip_device.c:763-785 | beginning a group records the mark and nothing else |
| DeviceBuilder.DeviceBuilder.ReleaseEndpoints | src/usbip_device.c:792-800 | the loop clears exactly the slots the group's endpoints hold |
| DeviceBuilder.DeviceBuilder.AbortGroup | src/usbip_device.c:787-827 | aborting in place is the specification's abort |
| MsOs.SetBytes | src/usbip_device.c:1187-1229 | the bytes of the set are exactly as many as msos2_set_size says, for every group and advertisement table |
| MsOs.FeatureRoundTrip | src/usbip_device.c:1122-1152 | parsing a feature gives the Compatible ID cut to eight bytes and the GUID |
| MsOs.EntryForIs | src/usbip_device.c:962-979 | a group is described by the first entry registered for it, or else by the first registered for the whole device, and by none if there is neither |
| MsOs.SubsetsAre | src/usbip_device.c:981-999 | the set has function subsets exactly when there are several groups and something to advertise; a subset names the first interface of its group, or 0 for a group without any |
| MsOs.SetRoundTrip | src/usbip_device.c:1187-1229 | parsing the set, with every nested length checked, gives exactly the advertisements: first interface, Compatible ID, GUID |
| MsOs.BosMatchesSet | src/usbip_device.c:1273-1289 | the length a host finds in the BOS is the length of the set served, and there is none without advertisements |
| MsOsEmitter.PutUtf16 | src/usbip_device.c:935-950 | a string is written as UTF-16LE with its NULs and nothing else changes |
| MsOsEmitter.PutNamed | src/usbip_device.c:1134-1150 | the registry property: strings first, then the lengths they turned out to have |
| MsOsEmitter.PutSet | src/usbip_device.c:1187-1229 | the emitter writes exactly as many bytes as the size function says, nothing outside them, and what it writes parses back to the advertisements |
| Wire.HdrRoundTrip | src/usbip.c:191-200 | the 48-byte header gives back its fields |
| Wire.HdrLayout | src/usbip.c:191-200 | each of the ten words is four big-endian bytes at its offset and the eight SETUP bytes follow |
| Transfers.SubmitRoundTrip | src/usbip.c:219-278 | the server reads exactly what usbip_client_submit wrote, and no more |
| Transfers.SubmitLayout | src/usbip.c:858-880 | a submit is command word 1, then sequence number, device, direction, endpoint, flags, length and the rest at their offsets, then SETUP, then the data of an OUT transfer |
| Transfers.ReturnRoundTrip | src/usbip.c:280-297 | whatever count the device returns, negative or more than was asked for, the client gets status and count, keeps what fits, and its stream goes on at the next message |
| Transfers.ReturnLayout | src/usbip.c:280-297 | a return is command word 3 with the sequence number, the status and the count as two's-complement words at their offsets |
| Transfers.ReadReply | src/usbip.c:887-912 | the client's reads, with the length as a signed word and the 256-byte drain loop, take exactly one return |
| Iso.SubmitSlots | src/usbip_host.c:305-311 | slot offsets are the sums of the lengths before them |
| Iso.Gather | src/usbip.c:957-960 | the gather loop sends the slots back to back |
| Iso.CommandRoundTrip | src/usbip.c:929-978 | the server reads exactly what the client wrote, for every isochronous request |
| Iso.CommandLayout | src/usbip.c:929-978 | an isochronous submit is command word 1 with its fields and the number of packets at their offsets |
| Iso.DescLayout | src/usbip.c:201-217 | packet descriptor i is sixteen bytes at 16 i: offset, length, actual length and status, big-endian |
| Iso.Depad | src/usbip_device.c:1709-1719 | the de-pad loop packs the slots back to back for the callback |
| Iso.ReturnRoundTrip | src/usbip.c:309-349 | the client reads exactly what the server returned |
| Iso.ReturnLayout | src/usbip.c:309-349 | an isochronous return is command word 3 with status, total length and number of packets at their offsets |
| Iso.Scatter | src/usbip.c:1003-1012 | the scatter loop in place is the specification's scatter |
| Iso.ScatterPlaces | src/usbip.c:1003-1012 | each packet lands in its slot byte for byte and no other byte changes |
| Iso.InEndToEnd | src/usbip.c:929-1025 | an IN transfer: packet i arrives at slot i, the rest of every slot is left alone, both ends read exactly what the other wrote |
| Iso.OutEndToEnd | src/usbip.c:929-1025 | an OUT transfer: the callback's packet i is slot i, the reply carries no data |
| Iso.RunStaysFramed | src/usbip.c:929-1025 | over any run of transfers in either direction every command and every reply is read back whole |
| Uvc.Packet | src/classes/device/uvc.c:157-189 | no payload is longer than the host asked |
| Uvc.PacketFills | src/classes/device/uvc.c:157-189 | a payload is two header bytes, then as much of the frame as the request has room for: the camera goes on whenever there is room for one byte, and the last byte of a frame sets EOF, flips FID and takes the next frame |
| Uvc.PacketKeepsStep | src/classes/device/uvc.c:157-189 | one payload keeps camera and host in step |
| Uvc.HostRecoversFrames | examples/host/uvc_host.c:94-116 | from the start of a stream, for any sizes asked for, the host's frames are exactly the frames completed, in order |
| Uvc.StreamHeaders | src/classes/device/uvc.c:172-187 | FID is the parity of the frame and so constant within it, EOF marks exactly its last payload, no packet exceeds its request |
| UvcStream.Camera.SetAlt | src/classes/device/uvc.c:254-270 | starting a stream resets frame, cursor, FID and index; stopping changes only the streaming flag |
| UvcStream.Camera.OnIso | src/classes/device/uvc.c:157-189 | the packet loop writes the payloads of the specification back to back and reports their lengths |
| UvcStream.Reassembler.TakePacket | examples/host/uvc_host.c:97-115 | the reassembly loop is the specification's host |
| UvcStream.SlotHoldsPacket | src/usbip_host.c:289-294 | after a transfer of equal slots the buffer the host looks at for a packet starts with that packet |
| UvcStream.TransferKeepsStep | examples/host/uvc_host.c:94-116 | a whole isochronous transfer, whatever its buffer held before, keeps camera and host in step |
| AsyncQueue.StepOrdered | wrapper/libusb-1.0/libusb.c:1152-1232 | every step keeps callbacks run, batch, done queue, transfer in flight and submit queue equal to the submissions in order |
| AsyncQueue.StepNoticed | wrapper/libusb-1.0/libusb.c:1181-1197 | every step keeps a non-empty done queue noticed: a byte in the pipe, a worker about to write one, or the event thread past its drain |
| AsyncQueue.EveryRun | wrapper/libusb-1.0/libusb.c:1152-1321 | over every interleaving both hold |
| AsyncQueue.QuietMeansAllCalled | wrapper/libusb-1.0/libusb.c:1275-1321 | when nothing is left anywhere, every submission has had its callback, once and in order |
| AsyncQueue.CancelledWhileQueued | wrapper/libusb-1.0/libusb.c:1234-1251 | cancelling a queued transfer succeeds, it never reaches the socket, and its callback reads CANCELLED |
| AsyncQueue.CancelSparesIff | wrapper/libusb-1.0/libusb.c:1152-1251 | cancelling a transfer that has not reached the socket keeps it off, in every continuation, if and only if the worker has not taken it with its flag unset |
| AsyncQueue.FirstCancelSparesIff | wrapper/libusb-1.0/libusb.c:1152-1251 | the first cancel of a transfer keeps it off the socket, in every continuation, if and only if it is still queued |
| AsyncQueue.Context.SubmitTransfer | wrapper/libusb-1.0/libusb.c:1202-1232 | submitting queues the transfer behind all earlier ones |
| AsyncQueue.Context.WorkerTurn | wrapper/libusb-1.0/libusb.c:1152-1200 | a worker turn takes the oldest transfer through its four steps, or does nothing |
| AsyncQueue.Context.HandleEvents | wrapper/libusb-1.0/libusb.c:1275-1321 | handling events runs the callback of every finished transfer, in order, and loses none |
| AsyncQueue.Context.CancelTransfer | wrapper/libusb-1.0/libusb.c:1234-1251 | cancelling answers NOT_FOUND exactly for transfers whose callback was reached |
| Bluetooth.FeedIsParse | src/classes/device/bluetooth.c:137-161 | within the sizes, feeding transfers is parsing their concatenation |
| Bluetooth.PdusDelivered | src/classes/device/bluetooth.c:137-161 | PDUs as their length bytes announce them, followed by the start of another, are delivered one by one, in order and unchanged, however the stream is cut into transfers, as long as PDU and transfer together are at most 1025 bytes |
| Bluetooth.ChunkingInvariantIff | src/classes/device/bluetooth.c:137-161 | delivery is independent of how the stream is cut, for all streams and cuts, if and only if the largest PDU plus the largest transfer is at most 1025 |
| Bluetooth.AclReassembly.OnOutTransfer | src/classes/device/bluetooth.c:137-161 | the buffer with memcpy and memmove delivers what the specification delivers |
| Bluetooth.AclReassembly.Drain | src/classes/device/bluetooth.c:151-160 | the loop delivers every complete PDU and moves the rest to the front |
| MtpReceive.FeedDepends | src/classes/device/mtp.c:1594-1618 | what a data phase completes with depends only on the bytes, not on how they were cut |
| MtpReceive.CompletesIff | src/classes/device/mtp.c:1594-1618 | whatever bytes arrive in whatever transfers: the phase completes if and only if twelve bytes and the length in the first four are there, with what lies between, nothing for a length below twelve |
| MtpReceive.SplitDoesNotMatter | src/classes/device/mtp.c:1594-1618 | a well-formed container cut anywhere completes once, with its last transfer, with its payload |
| MtpReceive.Receiver.OnOutTransfer | src/classes/device/mtp.c:1594-1618 | one transfer of a data phase |
| MtpTable.UpsertKeeps | src/classes/device/mtp.c:375-401 | an upsert makes its entry live with the given parent and kind, keeps every handle and path, and changes no other entry |
| MtpTable.VisitsDistinct | src/classes/device/mtp.c:426-445 | a scan of a well-named tree meets every path once |
| MtpTable.ScanShows | src/classes/device/mtp.c:426-445 | scanning a store makes exactly its paths live, each under its directory's handle |
| MtpTree.RescanShows | src/classes/device/mtp.c:447-453 | after a rescan of any table, also one with a path in it twice, the live entries are exactly the stores' paths, each the first of its path, and no entry loses its handle |
| MtpTree.RescanLinks | src/classes/device/mtp.c:426-453 | after a rescan of any table each parent handle names the live directory of the path |
| MtpTree.IsDescendantIff | src/classes/device/mtp.c:473-483 | is_descendant holds exactly when one path is strictly above the other in the same store |
| MtpTree.RenameKeepsHandles | src/classes/device/mtp.c:958-977 | a rename keeps the handle of everything moved, provided no entry, live or dead, was at or below the new path |
| MtpTree.RenameOtherStore | src/classes/device/mtp.c:958-977 | a rename in one store, followed by a rescan, leaves the handle of every path of another store that was in the table |
| MtpTree.RetagTouches | src/classes/device/mtp.c:958-977 | the retag leaves every entry of another store and every entry of its own store that is not at or below the old path exactly as it was |
| MtpTree.RenameHandleIff | src/classes/device/mtp.c:958-977 | after the retag and the rescan that follows it, the new place has the moved entry's handle if and only if no entry at the new place comes earlier in the table; otherwise it has that entry's |
| MtpTree.EveryRun | src/classes/device/mtp.c:1100-1113 | from the empty table, after any rescans, renames and moves: the live entries are exactly the stores' paths, each once and with its own handle, parents are the directories, and is_descendant is the order of the paths |
| MtpTree.RenameOntoDead | src/classes/device/mtp.c:958-977 | a run that leaves a path in the table twice: after x is deleted and y renamed to x, the live x has the dead entry's handle and y's is gone |
| MtpPaths.TextInjective | src/classes/device/mtp.c:350-356 | paths joined with slashes are different strings for different paths |
| MtpPaths.RetagTest | src/classes/device/mtp.c:958-977 | the string test and splice of retag_paths are the test and splice on path components |
| MtpObjects.ObjectTable.UpsertObj | src/classes/device/mtp.c:375-401 | the array update is the specification's upsert and returns the entry's handle |
| MtpObjects.ObjectTable.ScanDir | src/classes/device/mtp.c:426-445 | the recursive scan settles every entry below a directory, in order |
| MtpObjects.ObjectTable.RescanAll | src/classes/device/mtp.c:447-453 | a rescan in place shows the stores and links every parent |
| MtpObjects.ObjectTable.RetagPaths | src/classes/device/mtp.c:958-977 | the retag loop moves exactly the entries at or below the old path, and leaves a table that can be rescanned |
| MtpObjects.ObjectTable.IsBelow | src/classes/device/mtp.c:473-483 | the upward walk ends, because every parent's path is shorter, with the specification's answer |
| StreamSlots.StepKeepsPlaces | wrapper/libusbK/libusbk.c:2229-2451 | every step keeps each slot in exactly one place: free ring, ready ring, the thread's hand or a caller's |
| StreamSlots.RoomToPush | wrapper/libusbK/libusbk.c:206-211 | no push finds a full ring |
| StreamSlots.StepInOrder | wrapper/libusbK/libusbk.c:2391-2451 | every step keeps data in order: completion order for readers, write order for the thread |
| StreamSlots.EveryRun | wrapper/libusbK/libusbk.c:2229-2451 | over every interleaving of thread, readers or writers, stops and restarts, all three hold |
| StreamSlots.ReadCopiesWhatItPopped | wrapper/libusbK/libusbk.c:2404-2416 | the copy a reader makes outside the lock is of what it popped: until it puts the slot back, nothing others do changes that buffer |
| StreamRings.Ring.Push | wrapper/libusbK/libusbk.c:207-211 | a push appends to the ring's contents and overwrites none of them |
| StreamRings.Ring.Pop | wrapper/libusbK/libusbk.c:212-218 | a pop takes the oldest entry |
| StreamRings.Stream.TakeSlot | wrapper/libusbK/libusbk.c:2237-2252 | the thread's first lock section |
| StreamRings.Stream.ReturnSlot | wrapper/libusbK/libusbk.c:2262-2287 | the thread's last lock section: a failed transfer returns its slot to the free ring |
| StreamRings.Stream.ReadSlot | wrapper/libusbK/libusbk.c:2397-2407 | the first lock section of StmK_Read |
| StreamRings.Stream.WriteSlot | wrapper/libusbK/libusbk.c:2433-2446 | the lock section of StmK_Write |
| Pacer.NoDriftIff | src/usbip_device.c:87-101 | the n-th deadline is exactly the start plus the interval times all packets if and only if the endpoint was never late |
| Pacer.ServiceIntervals | src/usbip_device.c:87-101 | the interval of a packet: bInterval milliseconds at full speed, 125 microseconds doubled bInterval - 1 times at high speed, and 0 read as 1 |
| Pacer.SubmitDue | src/usbip_device.c:87-101 | a paced submission is due the interval of its packets after its endpoint's old deadline, or after now when that has passed; no other endpoint's deadline moves |
| Pacer.RunDriftIff | src/usbip_device.c:87-198 | over every run, whatever other endpoints do: an endpoint's deadline is its first submission plus the interval of all its packets if and only if it was never late after that |
| Pacer.UnlinkParts | src/usbip_device.c:1835-1852 | an unlink drops exactly the entries with its sequence number |
| Pacer.StepInv | src/usbip_device.c:103-198 | every step keeps deadlines per endpoint strictly increasing in submission order |
| Pacer.EveryRun | src/usbip_device.c:103-213 | over every run an endpoint's completions leave in submission order, none before its deadline unless stopping, each once unless unlinked |
| Pacer.StopDrains | src/usbip_device.c:200-213 | once stopping, the pacer can go on sending until nothing waits |
| Pacer.Pacer.SubmitPaced | src/usbip_device.c:87-198 | a paced submit advances its endpoint's clock and pushes the entry at the head |
| Pacer.Pacer.Turn | src/usbip_device.c:117-142 | a turn sends the earliest entry if it is due, and nothing otherwise |
| Pacer.Pacer.UnlinkPaced | src/usbip_device.c:1835-1852 | an unlink removes exactly the entries with its sequence number |

## Left out

- Endpoint: URB lengths are non-negative (a negative 32-bit length is not modelled), and length 0 means no limit, as in the code.
- Interleaving: one connection's lifetime; connection teardown, several connections to one device and the OUT queue read by usbip_device_read are not modelled.
- StreamRefinement.StreamDelivered: one writer thread; with several writers the order in which their bytes interleave is not claimed.
- BotHost.SessionStaysInStep: for commands whose host direction and length suit the command, media below 2^32 bytes, and no reset in mid-command.
- BotHost.ExchangeCompletes: a WRITE sends exactly the bytes its length announces; WriteCompletesIff covers a length of 0.
- Storage.TrafficStores: what a failing backend leaves is a parameter; the source records no sense for a failed write.
- Scsi: the reply bytes of INQUIRY, mode pages, format capacities and the other descriptive commands are an abstract parameter; their lengths and bytes are not checked.
- EntropyCoder.BlockRoundTrip: DC categories above 11 and AC categories above 10 have no code in the tables; the cosine transform and quantisation that keep coefficients below them are not modelled.
- AnnexK.ListsAll: ACL_VAL and ACC_VAL are their first 37 and 43 symbols followed by the other symbols in ascending order, which is how the source's lists go on.
- JpegScan.EncodeScan: the header segments before the scan are any bytes; their contents are not modelled.
- BuildRuns.HostReadsBuild: interface descriptors of at least 9 bytes and endpoint descriptors of at least 7, as USB 2.0 sections 9.6.5 and 9.6.6 lay them out; InterfaceSeenIff and EndpointSeenIff say what shorter ones come to; aborts are of groups that touched nothing older.
- DeviceBuilder.DeviceBuilder.AddDescriptor: descriptors of at least 2 bytes, and not for a short one so near the end of the 2048-byte buffer that the source would patch a byte outside it.
- Rollback.AbortRestoresIff: no second group is begun inside the group, and the records of the state before it point into its blob, as BuildConsistent shows they do; the advertisement table, from which an abort removes the group's entries in no particular order, is not part of the builder state.
- MsOs.SetRoundTrip: sets below 65536 bytes; the device stalls requests for sets above 4096.
- MsOs: the Microsoft OS 1.0 descriptors and the WebUSB URL.
- Iso.InEndToEnd: packet lengths sum to less than 2^31 and the callback keeps to the lengths it was given.
- Uvc.HostRecoversFrames: frames no larger than the negotiated maximum, and one streaming session; the example host keeps a partial frame over a stop.
- AsyncQueue.EveryRun: one event thread; shutdown of the worker is not modelled, and a transfer is not submitted while it is still active.
- Bluetooth.ChunkingInvariantIff: transfers no larger than the reassembly buffer.
- Bluetooth.AclReassembly.OnOutTransfer: transfers of at most 1024 bytes, the size of the buffer they are copied to.
- MtpReceive: what the data phase's operations do with their payload, and the command dispatch.
- MtpTable: handle wrap-around, truncation of long names and paths, and entries whose get_info fails.
- MtpObjects: the object table is a growing sequence; file system calls are a finite tree given to the scan.
- MtpPaths: the class works on paths as lists of names; these lemmas tie them to the strings of the source.
- StreamRings: StmK_Start and StmK_Stop are steps of the state machine, not methods; callbacks and the truncation of a read to the caller's length are not modelled.
- Pacer.EveryRun: submissions while not stopping, packets per transfer above 0, bInterval at most 16 at high speed; time in whole microseconds.
- DeviceBuilder: an abort is called with the table AlwaysTabled promises; endpoint objects are records in a sequence and the map holds their index, so aliasing of endpoint pointers is not modelled.
- Sockets, the listener, bus identifiers, packet capture, logging, allocation failure, HID, CDC-ACM, UAC, DFU and the remaining libusbK API would only add table lookups or platform mechanics.
